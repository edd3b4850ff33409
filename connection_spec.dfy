/** The read path of one rpc server connection, as a state machine over values.
    Each completion handler of the connection is one step from a State to the next;
    the class in server.dfy is proved to take exactly these steps. */
module ConnectionSpec {

  /** Size of a fresh receive buffer; its value is fixed elsewhere in the program. */
  const PAGE_SIZE: nat

  /** Largest body length a header may declare; its value is fixed elsewhere in the program. */
  const MAX_BUF_LEN: nat

  newtype byte = x: int | 0 <= x < 256

  /** Which asynchronous read, if any, is outstanding on the socket. */
  datatype Pending = NoRead | HeadRead | BodyRead

  /** The process-wide callback slots: whether a read and an error callback are registered. */
  datatype Slots = Slots(onRead: bool, onError: bool)

  /** One connection: the socket-open flag, the receive buffer, the length field of the last
      header read, the configured timeout (0 disables the timer), whether the idle timer is armed,
      the outstanding read, and how often the read callback, the error notifier and the error
      callback have run. */
  datatype State = State(
    open: bool,
    buf: seq<byte>,
    headLen: nat,
    timeOut: nat,
    timerArmed: bool,
    pending: Pending,
    readCallbacks: nat,
    errorReports: nat,
    errorCallbacks: nat)

  function Zeros(n: nat): (z: seq<byte>)
    ensures |z| == n
    ensures forall i :: 0 <= i < n ==> z[i] == 0
  {
    seq(n, _ => 0)
  }

  /** The receive buffer after resizing it to n bytes: the common prefix is kept and new bytes are zero. */
  function Resize(b: seq<byte>, n: nat): (r: seq<byte>)
    ensures |r| == n
    ensures forall i :: 0 <= i < n && i < |b| ==> r[i] == b[i]
    ensures forall i :: |b| <= i < n ==> r[i] == 0
  {
    if n <= |b| then b[..n] else b + Zeros(n - |b|)
  }

  /** What every reachable connection satisfies. */
  ghost predicate Inv(s: State)
  {
    // the buffer never drops below a page, and only a frame within the cap makes it larger
    && |s.buf| >= PAGE_SIZE
    && (|s.buf| == PAGE_SIZE || |s.buf| <= MAX_BUF_LEN)
    // an outstanding body read is for a legal length and fits the buffer
    && (s.pending == BodyRead ==> 0 < s.headLen <= MAX_BUF_LEN && s.headLen <= |s.buf|)
    // a zero timeout never arms the timer
    && (s.timerArmed ==> s.timeOut != 0)
    // at most one failure is reported, the error callback runs at most once per report,
    // and a reported connection is closed
    && s.errorCallbacks <= s.errorReports <= 1
    && (s.errorReports == 1 ==> !s.open)
  }

  /** A freshly constructed connection (connection_impl.hpp:5-12). */
  function Init(timeOut: nat): (s: State)
    ensures |s.buf| == PAGE_SIZE && forall i :: 0 <= i < |s.buf| ==> s.buf[i] == 0
    ensures s.pending == NoRead && !s.open && !s.timerArmed && s.timeOut == timeOut
    ensures s.readCallbacks == 0 && s.errorReports == 0 && s.errorCallbacks == 0
    ensures Inv(s)
  {
    State(false, Zeros(PAGE_SIZE), 0, timeOut, false, NoRead, 0, 0, 0)
  }

  /** The acceptor opens the socket of a fresh connection through its socket() accessor. */
  function Accept(s: State): (r: State)
    requires s == Init(s.timeOut)
    ensures r.open && Inv(r)
    ensures r.(open := false) == s
  {
    s.(open := true)
  }

  /** close(): the socket ends up closed, errors of the close itself are discarded. */
  function Close(s: State): (r: State)
    ensures !r.open
    ensures !s.open ==> r == s
    ensures r.(open := s.open) == s
  {
    s.(open := false)
  }

  /** on_error: close the socket, then run the error callback when one is registered. */
  function OnError(s: State, slots: Slots): (r: State)
    ensures !r.open
    ensures r.errorReports == s.errorReports + 1
    ensures r.errorCallbacks == s.errorCallbacks + (if slots.onError then 1 else 0)
    ensures r.(open := s.open, errorReports := s.errorReports, errorCallbacks := s.errorCallbacks) == s
  {
    var c := Close(s);
    c.(errorReports := c.errorReports + 1,
       errorCallbacks := c.errorCallbacks + (if slots.onError then 1 else 0))
  }

  /** expires_timer: arms the timer unless the timeout is zero. */
  function ExpiresTimer(s: State): (r: State)
    ensures r.timerArmed == (s.timeOut != 0 || s.timerArmed)
    ensures s.timeOut == 0 ==> r == s
    ensures r.(timerArmed := s.timerArmed) == s
  {
    if s.timeOut == 0 then s else s.(timerArmed := true)
  }

  /** cancel_timer: disarms the timer unless the timeout is zero. */
  function CancelTimer(s: State): (r: State)
    ensures r.timerArmed == (s.timeOut == 0 && s.timerArmed)
    ensures s.timeOut == 0 ==> r == s
    ensures r.(timerArmed := s.timerArmed) == s
  {
    if s.timeOut == 0 then s else s.(timerArmed := false)
  }

  /** read_head: arm the timer and issue the header read, which becomes the one outstanding read. */
  function ReadHead(s: State): (r: State)
    requires s.pending == NoRead
    ensures r.pending == HeadRead
    ensures r.timerArmed == (s.timeOut != 0 || s.timerArmed)
    ensures r.(pending := NoRead, timerArmed := s.timerArmed) == s
  {
    ExpiresTimer(s).(pending := HeadRead)
  }

  /** read_body: abort an oversized frame by closing the socket; otherwise resize the buffer to
      the body length when that exceeds a page, and issue the body read. */
  function ReadBody(s: State): (r: State)
    requires s.pending == NoRead
    ensures s.headLen > MAX_BUF_LEN ==> r == Close(s)
    ensures s.headLen <= MAX_BUF_LEN ==>
      && r.pending == BodyRead
      && |r.buf| == (if s.headLen > PAGE_SIZE then s.headLen else |s.buf|)
      && (forall i :: 0 <= i < |r.buf| && i < |s.buf| ==> r.buf[i] == s.buf[i])
      && r.(buf := s.buf, pending := NoRead) == s
    ensures s.headLen <= MAX_BUF_LEN && |s.buf| >= PAGE_SIZE ==>
      PAGE_SIZE <= |r.buf| && s.headLen <= |r.buf|
  {
    if s.headLen > MAX_BUF_LEN then
      Close(s)
    else
      var sized := if s.headLen > PAGE_SIZE then s.(buf := Resize(s.buf, s.headLen)) else s;
      sized.(pending := BodyRead)
  }

  /** handle_read_head: the header read has completed with `error`, leaving `len` in the header.
      A closed socket ignores the completion; a zero length loops to the next header; a positive
      length goes on to the body; an error cancels the timer and reports through on_error. */
  function HandleReadHead(s: State, slots: Slots, error: bool, len: nat): (r: State)
    requires s.pending == HeadRead
    ensures r.headLen == len && r.readCallbacks == s.readCallbacks
    ensures !s.open ==> r == s.(pending := NoRead, headLen := len)
    ensures s.open && !error && len == 0 ==>
      && r.open && r.pending == HeadRead && r.buf == s.buf
      && r.timerArmed == (s.timeOut != 0 || s.timerArmed)
      && r.errorReports == s.errorReports && r.errorCallbacks == s.errorCallbacks
    ensures s.open && !error && 0 < len <= MAX_BUF_LEN ==>
      && r.open && r.pending == BodyRead && r.timerArmed == s.timerArmed
      && (|s.buf| >= PAGE_SIZE ==> PAGE_SIZE <= |r.buf| && len <= |r.buf|)
      && r.errorReports == s.errorReports && r.errorCallbacks == s.errorCallbacks
    ensures s.open && !error && len > MAX_BUF_LEN ==>
      && !r.open && r.pending == NoRead && r.buf == s.buf && r.timerArmed == s.timerArmed
      && r.errorReports == s.errorReports && r.errorCallbacks == s.errorCallbacks
    ensures s.open && error ==>
      && !r.open && r.pending == NoRead && r.buf == s.buf
      && r.timerArmed == (s.timeOut == 0 && s.timerArmed)
      && r.errorReports == s.errorReports + 1
      && r.errorCallbacks == s.errorCallbacks + (if slots.onError then 1 else 0)
  {
    var done := s.(pending := NoRead, headLen := len);
    if !done.open then done
    else if !error then
      if len == 0 then ReadHead(done) else ReadBody(done)
    else
      OnError(CancelTimer(done), slots)
  }

  /** The connection once the body read has stored `received` at the front of the buffer and the
      handler has cancelled the timer: the state the read callback observes. */
  function BodyCompleted(s: State, received: seq<byte>): (c: State)
    requires |received| <= |s.buf|
    ensures c.pending == NoRead && c.timerArmed == (s.timeOut == 0 && s.timerArmed)
    ensures |c.buf| == |s.buf| && c.buf[..|received|] == received
    ensures c.buf[|received|..] == s.buf[|received|..]
    ensures c.(buf := s.buf, pending := s.pending, timerArmed := s.timerArmed) == s
  {
    CancelTimer(s.(pending := NoRead, buf := received + s.buf[|received|..]))
  }

  /** handle_read_body: the body read has completed with `error` after storing `received`.
      The timer is cancelled first, even on a closed socket; on success the read callback runs
      (when registered) and the next header read is issued; on error on_error reports it. */
  function HandleReadBody(s: State, slots: Slots, error: bool, received: seq<byte>): (r: State)
    requires s.pending == BodyRead && s.headLen <= |s.buf|
    requires |received| <= s.headLen && (!error ==> |received| == s.headLen)
    ensures s.timeOut != 0 && !(s.open && !error) ==> !r.timerArmed
    ensures r.headLen == s.headLen && |r.buf| == |s.buf|
    ensures !s.open ==>
      && !r.open && r.pending == NoRead
      && r.readCallbacks == s.readCallbacks
      && r.errorReports == s.errorReports && r.errorCallbacks == s.errorCallbacks
    ensures s.open && !error ==>
      && r.open && r.pending == HeadRead && r.buf[..r.headLen] == received
      && r.timerArmed == (s.timeOut != 0 || s.timerArmed)
      && r.readCallbacks == s.readCallbacks + (if slots.onRead then 1 else 0)
      && r.errorReports == s.errorReports && r.errorCallbacks == s.errorCallbacks
    ensures s.open && error ==>
      && !r.open && r.pending == NoRead
      && r.readCallbacks == s.readCallbacks
      && r.errorReports == s.errorReports + 1
      && r.errorCallbacks == s.errorCallbacks + (if slots.onError then 1 else 0)
  {
    var c := BodyCompleted(s, received);
    if !c.open then c
    else if !error then
      ReadHead(c.(readCallbacks := c.readCallbacks + (if slots.onRead then 1 else 0)))
    else
      OnError(CancelTimer(c), slots)
  }

  /** get_read_buffer: the view of the first headLen bytes of the buffer. */
  function ReadBuffer(s: State): (view: seq<byte>)
    requires s.headLen <= |s.buf|
    ensures |view| == s.headLen
    ensures forall i :: 0 <= i < |view| ==> view[i] == s.buf[i]
  {
    s.buf[..s.headLen]
  }
}
