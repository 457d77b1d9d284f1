/** One stream session as a state machine: the writing end, the reading end, and two FIFO links between
    them. Every function below is one atomic step of the source. */
module StreamModel {
  import opened Numbers
  import opened Frames
  import opened Wrappers

  /** `defQuotaSizeBytes`: the credit both ends start with. */
  const QUOTA_SIZE: int := 1024 * 16

  /** Errors a channel can hold. */
  datatype Fault = Eof | Text(msg: bytes) | ConnectionClosed

  /** `streamChannel`: what the read loop of one end fills in. */
  datatype Channel = Channel(buf: bytes, err: Option<Fault>, quota: int)

  /** A stream frame of this session: last byte of the sender's prefix, then the payload. */
  datatype Frame = Frame(flag: byte, payload: bytes)

  /** `flag` is the last byte of the shared prefix slice. */
  datatype Writer = Writer(flag: byte, quotaRem: int, ch: Channel)

  /** `launched`: grants whose `addQuota` goroutine has not run yet. `credited`: grants added to `quotaRem`
      whose frame has not been written yet. */
  datatype Reader = Reader(flag: byte, quotaRem: int, ch: Channel, launched: seq<int>, credited: seq<int>)

  /** `down` carries frames to the reader, `up` carries frames to the writer. */
  datatype Session = Session(w: Writer, r: Reader, down: seq<Frame>, up: seq<Frame>, open: bool)

  /** `AsWritten`: `Write` adds the cumulative quota and leaves it in the channel.
      `TakeOnce`: the accounting that was meant, where `Write` takes the quota out of the channel. */
  datatype Accounting = AsWritten | TakeOnce

  datatype Action =
    | Write(p: bytes)            // one attempt of `Write`; a blocked attempt is retried by a later action
    | Close
    | DestroyWriter(msg: bytes)
    | DeliverDown
    | Read(room: nat)            // `room` is the length of the destination slice
    | Credit(i: nat)             // first half of a pending `addQuota`
    | SendGrant(i: nat)          // second half of a pending `addQuota`
    | DestroyReader(msg: bytes)
    | DeliverUp
    | Disconnect                 // the connection is lost with everything in flight
    | WriterNotices              // `onConnClosed` at the writing end
    | ReaderNotices

  const NEW_CHANNEL := Channel([], None, 0)

  const NEW_SESSION :=
    Session(Writer(CHUNK, QUOTA_SIZE, NEW_CHANNEL), Reader(QUOTA, QUOTA_SIZE, NEW_CHANNEL, [], []), [], [], true)

  /** What the read loop does to a channel for each flag. */
  function OnFrame(ch: Channel, f: Frame): Channel {
    if f.flag == CHUNK then ch.(buf := ch.buf + f.payload)
    else if f.flag == FINISH then ch.(err := Some(Eof))
    else if f.flag == ERROR then ch.(err := Some(Text(f.payload)))
    else if f.flag == QUOTA then ch.(quota := ch.quota + Value(f.payload))
    else ch
  }

  /** The threshold test: below 66 hundredths of the quota. */
  predicate BelowThreshold(q: int) {
    100 * q < 66 * QUOTA_SIZE
  }

  function Without<T>(s: seq<T>, i: nat): seq<T>
    requires i < |s|
  {
    s[..i] + s[i + 1..]
  }

  // ---- writing end ----

  /** The credit an attempt works with. */
  function AttemptCredit(w: Writer): int {
    w.quotaRem + w.ch.quota
  }

  function AfterCredit(w: Writer, m: Accounting): Writer {
    w.(quotaRem := AttemptCredit(w), ch := if m == TakeOnce then w.ch.(quota := 0) else w.ch)
  }

  /** The attempt gets past the credit check and the connection takes the frame. */
  predicate WriteGoesOut(s: Session) {
    s.w.ch.err == None && AttemptCredit(s.w) > 0 && s.open
  }

  datatype WriteResult = Sent(n: nat) | Refused(err: Fault) | WriteError | WouldWait

  /** What an attempt returns; where the source waits for a signal and calls itself, it is `WouldWait`. */
  function WriteOutcome(s: Session, p: bytes): WriteResult {
    if s.w.ch.err != None then Refused(s.w.ch.err.value)
    else if AttemptCredit(s.w) <= 0 then WouldWait
    else if !s.open then WriteError
    else Sent(|p|)
  }

  function DoWrite(s: Session, p: bytes, m: Accounting): Session {
    if s.w.ch.err != None then s
    else if !WriteGoesOut(s) then s.(w := AfterCredit(s.w, m))
    else
      var w := AfterCredit(s.w, m);
      s.(w := w.(quotaRem := w.quotaRem - |p|), down := s.down + [Frame(w.flag, p)])
  }

  /** `Close` and `Destroy` overwrite the last byte of the prefix before they send it. */
  function DoEnd(s: Session, flag: byte, msg: bytes): Session {
    var w := s.w.(flag := flag);
    s.(w := w, down := if s.open then s.down + [Frame(flag, msg)] else s.down)
  }

  function DoDeliverUp(s: Session): Session {
    if s.up == [] then s
    else s.(w := s.w.(ch := OnFrame(s.w.ch, s.up[0])), up := s.up[1..])
  }

  // ---- reading end ----

  datatype ReadResult = Got(data: bytes) | Failed(err: Fault) | Nothing | Blocked

  function BytesRead(r: Reader, room: nat): bytes {
    if room <= |r.ch.buf| then r.ch.buf[..room] else r.ch.buf
  }

  /** What `Read` returns. With an empty destination it returns at once, even past unread bytes. */
  function ReadOutcome(r: Reader, room: nat): ReadResult {
    var data := BytesRead(r, room);
    if data != [] then Got(data)
    else if r.ch.err != None then Failed(r.ch.err.value)
    else if room == 0 then Nothing
    else Blocked
  }

  /** The bytes a call of `Read` returns: those it takes from the buffer. */
  function Returned(r: Reader, room: nat): (data: bytes)
    ensures data == BytesRead(r, room)
  {
    var o := ReadOutcome(r, room);
    if o.Got? then o.data else []
  }

  /** The data leaves the buffer; when the credit falls below the threshold a grant is launched. */
  function AfterRead(r: Reader, room: nat): Reader {
    var n := |BytesRead(r, room)|;
    if n == 0 then r
    else
      var q := r.quotaRem - n;
      r.(quotaRem := q, ch := r.ch.(buf := r.ch.buf[n..]),
         launched := if BelowThreshold(q) then r.launched + [QUOTA_SIZE - q] else r.launched)
  }

  function DoCredit(s: Session, i: nat): Session {
    if i >= |s.r.launched| then s
    else
      var q := s.r.launched[i];
      s.(r := s.r.(quotaRem := s.r.quotaRem + q, launched := Without(s.r.launched, i), credited := s.r.credited + [q]))
  }

  function DoSendGrant(s: Session, i: nat): Session {
    if i >= |s.r.credited| then s
    else
      var q := s.r.credited[i];
      s.(r := s.r.(credited := Without(s.r.credited, i)),
         up := if s.open then s.up + [Frame(s.r.flag, IntBytes(q))] else s.up)
  }

  function DoDestroyReader(s: Session, msg: bytes): Session {
    s.(r := s.r.(flag := ERROR), up := if s.open then s.up + [Frame(ERROR, msg)] else s.up)
  }

  function DoDeliverDown(s: Session): Session {
    if s.down == [] then s
    else s.(r := s.r.(ch := OnFrame(s.r.ch, s.down[0])), down := s.down[1..])
  }

  // ---- connection ----

  function DoDisconnect(s: Session): Session {
    s.(down := [], up := [], open := false)
  }

  function Step(s: Session, a: Action, m: Accounting): Session {
    match a
    case Write(p) => DoWrite(s, p, m)
    case Close => DoEnd(s, FINISH, [])
    case DestroyWriter(msg) => DoEnd(s, ERROR, msg)
    case DeliverDown => DoDeliverDown(s)
    case Read(room) => s.(r := AfterRead(s.r, room))
    case Credit(i) => DoCredit(s, i)
    case SendGrant(i) => DoSendGrant(s, i)
    case DestroyReader(msg) => DoDestroyReader(s, msg)
    case DeliverUp => DoDeliverUp(s)
    case Disconnect => DoDisconnect(s)
    case WriterNotices => if s.open then s else s.(w := s.w.(ch := s.w.ch.(err := Some(ConnectionClosed))))
    case ReaderNotices => if s.open then s else s.(r := s.r.(ch := s.r.ch.(err := Some(ConnectionClosed))))
  }

  // ---- what an observer of the calls has counted ----

  /** `written`: payloads accepted before the first `Close`/`Destroy` call of the writer, `closed` telling
      whether there was one. `read`: bytes returned by `Read`. `spent`: length of all payloads accepted.
      `seen`: sum over all attempts of the quota found in the channel; `lastSeen`: the last of them.
      `issued`: grants added to the reader's credit. `delivered`: grants that reached the writer's channel. */
  datatype History = History(written: bytes, closed: bool, read: bytes, spent: nat, seen: int, lastSeen: int,
                             issued: int, delivered: int)

  const NEW_HISTORY := History([], false, [], 0, 0, 0, 0, 0)

  function Observe(s: Session, h: History, a: Action): History {
    match a
    case Write(p) =>
      if s.w.ch.err != None then h
      else
        var h1 := h.(seen := h.seen + s.w.ch.quota, lastSeen := s.w.ch.quota);
        if !WriteGoesOut(s) then h1
        else h1.(spent := h.spent + |p|, written := if h.closed then h.written else h.written + p)
    case Close => h.(closed := true)
    case DestroyWriter(_) => h.(closed := true)
    case Read(room) => h.(read := h.read + Returned(s.r, room))
    case Credit(i) => if i < |s.r.launched| then h.(issued := h.issued + s.r.launched[i]) else h
    case DeliverUp =>
      if s.up != [] && s.up[0].flag == QUOTA then h.(delivered := h.delivered + Value(s.up[0].payload)) else h
    case _ => h
  }

  datatype Traced = Traced(s: Session, h: History)

  const START := Traced(NEW_SESSION, NEW_HISTORY)

  function Next(t: Traced, a: Action, m: Accounting): Traced {
    Traced(Step(t.s, a, m), Observe(t.s, t.h, a))
  }

  /** The state some actions later. */
  function Steps(t: Traced, acts: seq<Action>, m: Accounting): Traced
    decreases |acts|
  {
    if acts == [] then t else Steps(Next(t, acts[0], m), acts[1..], m)
  }

  /** The state after a run: any actions in any order. */
  function Run(acts: seq<Action>, m: Accounting): Traced {
    Steps(START, acts, m)
  }

  lemma {:induction false} StepsConcat(t: Traced, acts: seq<Action>, more: seq<Action>, m: Accounting)
    ensures Steps(t, acts + more, m) == Steps(Steps(t, acts, m), more, m)
    decreases |acts|
  {
    if acts == [] {
      assert [] + more == more;
    } else {
      var next, rest := Next(t, acts[0], m), acts[1..];
      StepsConcat(next, rest, more, m);
      assert (acts + more)[0] == acts[0] && (acts + more)[1..] == rest + more;
      assert Steps(t, acts + more, m) == Steps(next, rest + more, m);
    }
  }
}
