/** Runs of a connection: the events it can see, one after another, and what holds of every run. */
module ConnectionTraces {
  import opened ConnectionSpec

  /** An input to the connection: a call from outside, a completion of the outstanding read,
      or a (re)registration of one of the process-wide callbacks. */
  datatype Event =
    | StartCall
    | CloseCall
    | HeadDone(error: bool, len: nat)
    | BodyDone(error: bool, received: seq<byte>)
    | SetOnRead(present: bool)
    | SetOnError(present: bool)

  /** Whether `e` can occur in `s`: start is called while no read is outstanding, a completion
      arrives only for the read that was issued, and a successful body read delivers exactly
      headLen bytes into a buffer that holds them. */
  predicate Enabled(s: State, e: Event)
  {
    match e
    case StartCall => s.pending == NoRead
    case HeadDone(_, _) => s.pending == HeadRead
    case BodyDone(error, received) =>
      && s.pending == BodyRead && s.headLen <= |s.buf|
      && |received| <= s.headLen && (!error ==> |received| == s.headLen)
    case _ => true
  }

  /** The connection after one enabled event. */
  function Step(s: State, slots: Slots, e: Event): State
    requires Enabled(s, e)
  {
    match e
    case StartCall => ReadHead(s)
    case CloseCall => Close(s)
    case HeadDone(error, len) => HandleReadHead(s, slots, error, len)
    case BodyDone(error, received) => HandleReadBody(s, slots, error, received)
    case SetOnRead(_) => s
    case SetOnError(_) => s
  }

  /** The callback slots after one event. */
  function NextSlots(slots: Slots, e: Event): Slots
  {
    match e
    case SetOnRead(present) => slots.(onRead := present)
    case SetOnError(present) => slots.(onError := present)
    case _ => slots
  }

  /** Every event of `events` is enabled when it occurs. */
  ghost predicate Admissible(s: State, slots: Slots, events: seq<Event>)
    decreases |events|
  {
    events == [] ||
    (Enabled(s, events[0]) && Admissible(Step(s, slots, events[0]), NextSlots(slots, events[0]), events[1..]))
  }

  /** The connection after all of `events`. */
  function Run(s: State, slots: Slots, events: seq<Event>): State
    requires Admissible(s, slots, events)
    decreases |events|
  {
    if events == [] then s
    else Run(Step(s, slots, events[0]), NextSlots(slots, events[0]), events[1..])
  }

  lemma StepPreservesInv(s: State, slots: Slots, e: Event)
    requires Inv(s) && Enabled(s, e)
    ensures Inv(Step(s, slots, e))
  {
  }

  /** The invariant holds after any run that starts where it holds. */
  lemma {:induction false} RunPreservesInv(s: State, slots: Slots, events: seq<Event>)
    requires Inv(s) && Admissible(s, slots, events)
    ensures Inv(Run(s, slots, events))
    decreases |events|
  {
    if events != [] {
      StepPreservesInv(s, slots, events[0]);
      RunPreservesInv(Step(s, slots, events[0]), NextSlots(slots, events[0]), events[1..]);
    }
  }

  /** From an accepted connection, whatever happens, failure is reported at most once, the error
      callback runs at most once, and the receive buffer holds at least a page. */
  lemma AtMostOneErrorReport(timeOut: nat, slots: Slots, events: seq<Event>)
    requires Admissible(Accept(Init(timeOut)), slots, events)
    ensures var r := Run(Accept(Init(timeOut)), slots, events);
      r.errorCallbacks <= r.errorReports <= 1 && |r.buf| >= PAGE_SIZE
  {
    RunPreservesInv(Accept(Init(timeOut)), slots, events);
  }

  /** Once the socket is closed it stays closed and no callback and no failure report follows,
      whatever completes or is called afterwards. */
  lemma {:induction false} ClosedIgnoresCompletions(s: State, slots: Slots, events: seq<Event>)
    requires !s.open && Admissible(s, slots, events)
    ensures var r := Run(s, slots, events);
      && !r.open
      && r.readCallbacks == s.readCallbacks
      && r.errorReports == s.errorReports
      && r.errorCallbacks == s.errorCallbacks
    decreases |events|
  {
    if events != [] {
      ClosedIgnoresCompletions(Step(s, slots, events[0]), NextSlots(slots, events[0]), events[1..]);
    }
  }

  /** A header of length n > 0 within the cap followed by its n body bytes: the connection stays
      open and awaits the next header, the read callback runs once when registered, no failure is
      reported, the next header is awaited under the timer (unless the timeout is zero), the buffer view
      is exactly the body, and the buffer has been resized to n when n exceeds a page. */
  lemma FrameDeliversBody(s: State, slots: Slots, n: nat, body: seq<byte>)
    requires Inv(s) && s.open && s.pending == HeadRead
    requires 0 < n <= MAX_BUF_LEN && |body| == n
    ensures Admissible(s, slots, [HeadDone(false, n), BodyDone(false, body)])
    ensures var r := Run(s, slots, [HeadDone(false, n), BodyDone(false, body)]);
      && r.open && r.pending == HeadRead && r.timerArmed == (s.timeOut != 0)
      && r.headLen == n && n <= |r.buf| && ReadBuffer(r) == body
      && r.readCallbacks == s.readCallbacks + (if slots.onRead then 1 else 0)
      && r.errorReports == s.errorReports && r.errorCallbacks == s.errorCallbacks
      && |r.buf| == (if n > PAGE_SIZE then n else |s.buf|)
  {
    var h := HandleReadHead(s, slots, false, n);
    var r := HandleReadBody(h, slots, false, body);
    assert Step(s, slots, HeadDone(false, n)) == h;
    assert [HeadDone(false, n), BodyDone(false, body)][1..] == [BodyDone(false, body)];
    assert Run(h, slots, [BodyDone(false, body)]) == r by {
      assert [BodyDone(false, body)][1..] == [];
    }
  }

  /** A header declaring more than MAX_BUF_LEN bytes closes the connection with no read issued and
      no failure reported; from then on no callback runs, whatever else happens. Unlike an I/O
      failure, this path leaves the timer as it was: armed under a nonzero timeout. */
  lemma OversizedFrameAborts(s: State, slots: Slots, len: nat, rest: seq<Event>)
    requires s.open && s.pending == HeadRead && len > MAX_BUF_LEN
    requires Admissible(HandleReadHead(s, slots, false, len), slots, rest)
    ensures var h := HandleReadHead(s, slots, false, len);
      && !h.open && h.pending == NoRead && h.buf == s.buf && h.timerArmed == s.timerArmed
    ensures Admissible(s, slots, [HeadDone(false, len)] + rest)
    ensures var r := Run(s, slots, [HeadDone(false, len)] + rest);
      && !r.open
      && r.readCallbacks == s.readCallbacks
      && r.errorReports == s.errorReports && r.errorCallbacks == s.errorCallbacks
  {
    var h := HandleReadHead(s, slots, false, len);
    assert ([HeadDone(false, len)] + rest)[0] == HeadDone(false, len);
    assert ([HeadDone(false, len)] + rest)[1..] == rest;
    ClosedIgnoresCompletions(h, slots, rest);
  }

  /** The buffer's size follows the last frame larger than a page, so a smaller such frame shrinks
      it: after a frame of n bytes and then one of m bytes, PAGE_SIZE < m < n, the buffer holds m bytes. */
  lemma BufferFollowsLastLargeFrame(s: State, slots: Slots, n: nat, bodyN: seq<byte>, m: nat, bodyM: seq<byte>)
    requires Inv(s) && s.open && s.pending == HeadRead
    requires PAGE_SIZE < m < n <= MAX_BUF_LEN && |bodyN| == n && |bodyM| == m
    ensures var first := [HeadDone(false, n), BodyDone(false, bodyN)];
      && Admissible(s, slots, first)
      && var mid := Run(s, slots, first);
      && |mid.buf| == n
      && Admissible(mid, slots, [HeadDone(false, m), BodyDone(false, bodyM)])
      && |Run(mid, slots, [HeadDone(false, m), BodyDone(false, bodyM)]).buf| == m
  {
    FrameDeliversBody(s, slots, n, bodyN);
    var mid := Run(s, slots, [HeadDone(false, n), BodyDone(false, bodyN)]);
    RunPreservesInv(s, slots, [HeadDone(false, n), BodyDone(false, bodyN)]);
    FrameDeliversBody(mid, slots, m, bodyM);
  }

  /** A header read that fails after leaving a length above a page in the header reaches the error
      callback with headLen larger than the buffer: a view of headLen bytes from the buffer, as
      get_read_buffer would build it there, runs past the buffer's end. */
  lemma ErrorCallbackSeesOverlongHeader(timeOut: nat, slots: Slots)
    requires slots.onError
    ensures var events := [StartCall, HeadDone(true, PAGE_SIZE + 1)];
      && Admissible(Accept(Init(timeOut)), slots, events)
      && var r := Run(Accept(Init(timeOut)), slots, events);
      && r.errorCallbacks == 1 && r.headLen > |r.buf|
  {
    var s0 := Accept(Init(timeOut));
    var s1 := Step(s0, slots, StartCall);
    var s2 := Step(s1, slots, HeadDone(true, PAGE_SIZE + 1));
    assert [StartCall, HeadDone(true, PAGE_SIZE + 1)][1..] == [HeadDone(true, PAGE_SIZE + 1)];
    assert [HeadDone(true, PAGE_SIZE + 1)][1..] == [];
    assert Run(s1, slots, [HeadDone(true, PAGE_SIZE + 1)]) == s2;
  }
}
