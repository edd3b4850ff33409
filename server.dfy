/** The connection object of the rpc server: its fields are updated in place by the completion
    handlers, and every method is proved to take the step ConnectionSpec gives for it. */
module Server {
  import opened ConnectionSpec

  /** The process-wide callback slots shared by every connection: whether a read callback and an
      error callback are registered. The callbacks' own effects are not modelled. */
  class CallbackSlots {
    var onRead: bool
    var onError: bool

    /** Both slots start out empty. */
    constructor ()
      ensures !onRead && !onError
    {
      onRead, onError := false, false;
    }

    /** What get_on_read and get_on_error find in the slots. */
    function Registered(): Slots
      reads this
    {
      Slots(onRead, onError)
    }

    /** set_on_read overwrites the read slot for all connections. */
    method SetOnRead(present: bool)
      modifies this
      ensures Registered() == old(Registered()).(onRead := present)
    {
      onRead := present;
    }

    /** set_on_error overwrites the error slot for all connections. */
    method SetOnError(present: bool)
      modifies this
      ensures Registered() == old(Registered()).(onError := present)
    {
      onError := present;
    }
  }

  class Connection {
    var open: bool
    var buf: seq<byte>
    var headLen: nat
    const timeOut: nat
    var timerArmed: bool
    var pending: Pending
    ghost var readCallbacks: nat
    ghost var errorReports: nat
    ghost var errorCallbacks: nat
    /** The process-wide slots. The constructor is given them, so every connection that is given
        the same object shares them, as all connections share the slots in the program. */
    const slots: CallbackSlots

    /** The connection's state as a value. */
    ghost function Snapshot(): State
      reads this
    {
      State(open, buf, headLen, timeOut, timerArmed, pending, readCallbacks, errorReports, errorCallbacks)
    }

    ghost predicate Valid()
      reads this
    {
      Inv(Snapshot())
    }

    /** A connection with a page-sized buffer, a closed socket, no read outstanding and the
        timer disarmed. */
    constructor (timeOut: nat, slots: CallbackSlots)
      ensures Snapshot() == Init(timeOut) && Valid()
      ensures this.slots == slots
    {
      open := false;
      buf := Zeros(PAGE_SIZE);
      headLen := 0;
      this.timeOut := timeOut;
      timerArmed := false;
      pending := NoRead;
      readCallbacks, errorReports, errorCallbacks := 0, 0, 0;
      this.slots := slots;
    }

    /** The acceptor accepts a peer into socket(), which opens it. */
    method Accept()
      requires Snapshot() == Init(timeOut)
      modifies this
      ensures Snapshot() == ConnectionSpec.Accept(old(Snapshot())) && Valid()
    {
      open := true;
    }

    method Close()
      requires Valid()
      modifies this
      ensures Snapshot() == ConnectionSpec.Close(old(Snapshot())) && Valid()
    {
      open := false;
    }

    /** start: the header read becomes the one outstanding read. */
    method Start()
      requires Valid() && pending == NoRead
      modifies this
      ensures Snapshot() == ConnectionSpec.ReadHead(old(Snapshot())) && Valid()
    {
      ReadHead();
    }

    /** on_error: called only while the socket is open, which makes this the connection's one report. */
    method OnError()
      requires Valid() && open
      modifies this
      ensures Snapshot() == ConnectionSpec.OnError(old(Snapshot()), slots.Registered()) && Valid()
    {
      open := false;
      errorReports := errorReports + 1;
      if slots.onError {
        errorCallbacks := errorCallbacks + 1;
      }
    }

    /** get_read_buffer: the body of the current frame, never the rest of the buffer. */
    method GetReadBuffer() returns (view: seq<byte>)
      requires headLen <= |buf|
      ensures view == ReadBuffer(Snapshot())
    {
      view := buf[..headLen];
    }

    /** get_read_header: the length field of the last header read. */
    method GetReadHeader() returns (len: nat)
      ensures len == headLen
    {
      len := headLen;
    }

    method ExpiresTimer()
      requires Valid()
      modifies this
      ensures Snapshot() == ConnectionSpec.ExpiresTimer(old(Snapshot())) && Valid()
    {
      if timeOut == 0 {
        return;
      }
      timerArmed := true;
    }

    method CancelTimer()
      requires Valid()
      modifies this
      ensures Snapshot() == ConnectionSpec.CancelTimer(old(Snapshot())) && Valid()
    {
      if timeOut == 0 {
        return;
      }
      timerArmed := false;
    }

    method ReadHead()
      requires Valid() && pending == NoRead
      modifies this
      ensures Snapshot() == ConnectionSpec.ReadHead(old(Snapshot())) && Valid()
    {
      ExpiresTimer();
      pending := HeadRead;
    }

    /** read_body: called by handle_read_head for a header whose length is positive. */
    method ReadBody()
      requires Valid() && pending == NoRead && 0 < headLen
      modifies this
      ensures Snapshot() == ConnectionSpec.ReadBody(old(Snapshot())) && Valid()
    {
      if headLen > MAX_BUF_LEN {
        open := false;
        return;
      }
      if headLen > PAGE_SIZE {
        buf := Resize(buf, headLen);
      }
      pending := BodyRead;
    }

    /** handle_read_head: the header read has completed with `error`, and `len` is the length
        field it left in the header. */
    method HandleReadHead(error: bool, len: nat)
      requires Valid() && pending == HeadRead
      modifies this
      ensures Snapshot() == ConnectionSpec.HandleReadHead(old(Snapshot()), slots.Registered(), error, len)
      ensures Valid()
    {
      headLen := len;
      pending := NoRead;
      if !open {
        return;
      }
      if !error {
        if headLen == 0 {
          ReadHead();
        } else {
          ReadBody();
        }
      } else {
        CancelTimer();
        OnError();
      }
    }

    /** handle_read_body: the body read has completed with `error` after storing `received` at
        the front of the buffer; a successful read stores the whole body. */
    method HandleReadBody(error: bool, received: seq<byte>)
      requires Valid() && pending == BodyRead
      requires |received| <= headLen && (!error ==> |received| == headLen)
      modifies this
      ensures Snapshot() == ConnectionSpec.HandleReadBody(old(Snapshot()), slots.Registered(), error, received)
      ensures Valid()
    {
      buf := received + buf[|received|..];
      pending := NoRead;
      CancelTimer();
      if !open {
        return;
      }
      if !error {
        if slots.onRead {
          readCallbacks := readCallbacks + 1;
        }
        ReadHead();
      } else {
        CancelTimer();
        OnError();
      }
    }
  }

  /** A client sends a header declaring 5 bytes followed by "hello": the read callback sees
      exactly those 5 bytes, runs once, and the connection stays open for the next header. */
  method HelloFrame(timeOut: nat) returns (view: seq<byte>, stillOpen: bool, ghost readCalls: nat)
    requires 5 <= MAX_BUF_LEN
    ensures view == [104, 101, 108, 108, 111] && stillOpen && readCalls == 1
  {
    var slots := new CallbackSlots();
    slots.SetOnRead(true);
    var c := new Connection(timeOut, slots);
    c.Accept();
    c.Start();
    c.HandleReadHead(false, 5);
    c.HandleReadBody(false, [104, 101, 108, 108, 111]);
    view := c.GetReadBuffer();
    stillOpen := c.open;
    readCalls := c.readCallbacks;
  }

  /** A client sends a header declaring more than MAX_BUF_LEN bytes: the socket is closed, no
      body read is issued, and neither callback runs even though both are registered. */
  method OversizedFrame(timeOut: nat, len: nat)
    returns (stillOpen: bool, readIssued: bool, ghost readCalls: nat, ghost errorCalls: nat)
    requires len > MAX_BUF_LEN
    ensures !stillOpen && !readIssued && readCalls == 0 && errorCalls == 0
  {
    var slots := new CallbackSlots();
    slots.SetOnRead(true);
    slots.SetOnError(true);
    var c := new Connection(timeOut, slots);
    c.Accept();
    c.Start();
    c.HandleReadHead(false, len);
    stillOpen := c.open;
    readIssued := c.pending != NoRead;
    readCalls, errorCalls := c.readCallbacks, c.errorCallbacks;
  }

  /** Two connections given the same slots object: a read callback registered after both exist
      reaches both, and each runs it once for its own one-byte frame. */
  method SharedSlots(timeOut: nat)
    returns (seen1: bool, seen2: bool, ghost readCalls1: nat, ghost readCalls2: nat)
    requires 1 <= MAX_BUF_LEN
    ensures seen1 && seen2 && readCalls1 == 1 && readCalls2 == 1
  {
    var slots := new CallbackSlots();
    var c1 := new Connection(timeOut, slots);
    var c2 := new Connection(timeOut, slots);
    slots.SetOnRead(true);
    c1.Accept();
    c1.Start();
    c2.Accept();
    c2.Start();
    c1.HandleReadHead(false, 1);
    c1.HandleReadBody(false, [0]);
    c2.HandleReadHead(false, 1);
    c2.HandleReadBody(false, [7]);
    seen1, seen2 := c1.slots.onRead, c2.slots.onRead;
    readCalls1, readCalls2 := c1.readCallbacks, c2.readCallbacks;
  }
}
