/** What every run of a stream session keeps: credit is conserved, data arrives byte for byte, and the writer is
    never starved for good. */
module StreamRuns {
  import opened Numbers
  import opened Frames
  import opened StreamModel
  import opened Wrappers

  // ---- sums over links and pending grants ----

  function Sum(s: seq<int>): int {
    if s == [] then 0 else s[0] + Sum(s[1..])
  }

  lemma {:induction false} SumConcat(a: seq<int>, b: seq<int>)
    ensures Sum(a + b) == Sum(a) + Sum(b)
  {
    if a == [] {
      assert a + b == b;
    } else {
      SumConcat(a[1..], b);
      assert (a + b)[1..] == a[1..] + b;
    }
  }

  lemma SumAppend(s: seq<int>, x: int)
    ensures Sum(s + [x]) == Sum(s) + x
  {
    SumConcat(s, [x]);
    assert [x][1..] == [];
  }

  lemma {:induction false} SumAround(a: seq<int>, x: int, b: seq<int>)
    ensures Sum(a + [x] + b) == Sum(a + b) + x
  {
    if a == [] {
      assert a + b == b && (a + [x] + b)[1..] == b;
    } else {
      SumAround(a[1..], x, b);
      assert (a + [x] + b)[1..] == a[1..] + [x] + b;
      assert (a + b)[1..] == a[1..] + b;
    }
  }

  lemma CutAround(s: seq<int>, i: nat)
    requires i < |s|
    ensures s[..i] + [s[i]] + s[i + 1..] == s
  {
  }

  lemma SumWithout(s: seq<int>, i: nat)
    requires i < |s|
    ensures Sum(Without(s, i)) == Sum(s) - s[i]
  {
    var a, x, b := s[..i], s[i], s[i + 1..];
    assert a + [x] + b == s by {
      CutAround(s, i);
    }
    SumAround(a, x, b);
  }

  predicate AllPositive(s: seq<int>) {
    forall i :: 0 <= i < |s| ==> s[i] > 0
  }

  lemma WithoutPositive(s: seq<int>, i: nat)
    requires i < |s| && AllPositive(s)
    ensures AllPositive(Without(s, i)) && s[i] > 0
  {
  }

  lemma AppendPositive(s: seq<int>, x: int)
    requires AllPositive(s) && x > 0
    ensures AllPositive(s + [x])
  {
  }

  lemma {:induction false} SumPositive(s: seq<int>)
    requires AllPositive(s)
    ensures Sum(s) >= |s|
  {
    if s != [] {
      SumPositive(s[1..]);
    }
  }

  /** Payload bytes on their way to the reader. */
  function Data(fs: seq<Frame>): bytes {
    if fs == [] then [] else (if fs[0].flag == CHUNK then fs[0].payload else []) + Data(fs[1..])
  }

  lemma {:induction false} DataAppend(fs: seq<Frame>, f: Frame)
    ensures Data(fs + [f]) == Data(fs) + (if f.flag == CHUNK then f.payload else [])
  {
    if fs == [] {
      assert [f][1..] == [];
      assert fs + [f] == [f];
    } else {
      DataAppend(fs[1..], f);
      assert (fs + [f])[1..] == fs[1..] + [f] && (fs + [f])[0] == fs[0];
      var head, tail := if fs[0].flag == CHUNK then fs[0].payload else [], if f.flag == CHUNK then f.payload else [];
      assert head + (Data(fs[1..]) + tail) == (head + Data(fs[1..])) + tail;
    }
  }

  /** Grants on their way to the writer. */
  function QuotaIn(fs: seq<Frame>): nat {
    if fs == [] then 0 else (if fs[0].flag == QUOTA then Value(fs[0].payload) else 0) + QuotaIn(fs[1..])
  }

  lemma {:induction false} QuotaInAppend(fs: seq<Frame>, f: Frame)
    ensures QuotaIn(fs + [f]) == QuotaIn(fs) + (if f.flag == QUOTA then Value(f.payload) else 0)
  {
    if fs == [] {
      assert [f][1..] == [];
      assert fs + [f] == [f];
    } else {
      QuotaInAppend(fs[1..], f);
      assert (fs + [f])[1..] == fs[1..] + [f];
    }
  }

  // ---- credit ----

  /** Credit conservation at both ends. */
  ghost predicate Conserved(t: Traced, m: Accounting) {
    && t.s.w.quotaRem + t.h.spent == QUOTA_SIZE + t.h.seen
    && t.s.r.quotaRem + |t.h.read| == QUOTA_SIZE + t.h.issued
    && 0 <= t.h.lastSeen <= t.h.seen && 0 <= t.s.w.ch.quota
    && (m == AsWritten ==> t.s.w.ch.quota == t.h.delivered >= t.h.lastSeen && (t.h.delivered == 0 ==> t.h.seen == 0))
    && (m == TakeOnce ==> t.s.w.ch.quota + t.h.seen == t.h.delivered)
  }

  lemma ConservedStep(t: Traced, a: Action, m: Accounting)
    requires Conserved(t, m)
    ensures Conserved(Next(t, a, m), m)
  {
  }

  /** Grants are positive, none is lost between the reader's books and the writer's channel while the reader
      keeps its prefix, and the reader's credit with the launched grants never drops under the threshold. */
  ghost predicate Granted(t: Traced) {
    var r := t.s.r;
    && AllPositive(r.launched) && AllPositive(r.credited)
    && (r.flag == QUOTA || r.flag == ERROR)
    && (r.flag == QUOTA ==> forall i :: 0 <= i < |t.s.up| ==> t.s.up[i].flag == QUOTA)
    && t.h.delivered + QuotaIn(t.s.up) + Sum(r.credited) <= t.h.issued
    && (t.s.open && r.flag == QUOTA ==>
          t.h.delivered + QuotaIn(t.s.up) + Sum(r.credited) == t.h.issued)
    && !BelowThreshold(r.quotaRem + Sum(r.launched))
  }

  lemma GrantedStep(t: Traced, a: Action, m: Accounting)
    requires Granted(t)
    ensures Granted(Next(t, a, m))
  {
    match a
    case Read(room) => GrantedRead(t, room, m);
    case Credit(i) => GrantedCredit(t, i, m);
    case SendGrant(i) => GrantedSend(t, i, m);
    case DestroyReader(msg) => QuotaInAppend(t.s.up, Frame(ERROR, msg));
    case DeliverUp => GrantedDeliver(t, m);
    case Disconnect =>
    case _ => GrantedSame(t, Next(t, a, m));
  }

  /** A step that touches neither the grants nor the link to the writer. */
  lemma GrantedSame(t: Traced, t': Traced)
    requires Granted(t)
    requires t'.s.open == t.s.open && t'.s.up == t.s.up && t'.s.r.(ch := t.s.r.ch) == t.s.r
    requires t'.h.issued == t.h.issued && t'.h.delivered == t.h.delivered
    ensures Granted(t')
  {
  }

  lemma GrantedDeliver(t: Traced, m: Accounting)
    requires Granted(t)
    ensures Granted(Next(t, DeliverUp, m))
  {
  }

  lemma GrantedRead(t: Traced, room: nat, m: Accounting)
    requires Granted(t)
    ensures Granted(Next(t, Read(room), m))
  {
    var r, n := t.s.r, |BytesRead(t.s.r, room)|;
    if n != 0 && BelowThreshold(r.quotaRem - n) {
      SumAppend(r.launched, QUOTA_SIZE - (r.quotaRem - n));
      AppendPositive(r.launched, QUOTA_SIZE - (r.quotaRem - n));
      SumPositive(r.launched);
    } else {
      SumPositive(r.launched);
    }
  }

  lemma GrantedCredit(t: Traced, i: nat, m: Accounting)
    requires Granted(t)
    ensures Granted(Next(t, Credit(i), m))
  {
    var r := t.s.r;
    if i < |r.launched| {
      SumWithout(r.launched, i);
      WithoutPositive(r.launched, i);
      SumAppend(r.credited, r.launched[i]);
      AppendPositive(r.credited, r.launched[i]);
    }
  }

  lemma GrantedSend(t: Traced, i: nat, m: Accounting)
    requires Granted(t)
    ensures Granted(Next(t, SendGrant(i), m))
  {
    if i < |t.s.r.credited| {
      IntRoundTrip(t.s.r.credited[i]);
      GrantedPosted(t, Next(t, SendGrant(i), m), i, IntBytes(t.s.r.credited[i]));
    }
  }

  lemma GrantedPosted(t: Traced, t': Traced, i: nat, payload: bytes)
    requires Granted(t) && i < |t.s.r.credited| && Value(payload) == t.s.r.credited[i]
    requires t'.s.r == t.s.r.(credited := Without(t.s.r.credited, i)) && t'.s.open == t.s.open && t'.h == t.h
    requires t'.s.up == if t.s.open then t.s.up + [Frame(t.s.r.flag, payload)] else t.s.up
    ensures Granted(t')
  {
    SumWithout(t.s.r.credited, i);
    WithoutPositive(t.s.r.credited, i);
    QuotaInAppend(t.s.up, Frame(t.s.r.flag, payload));
  }

  // ---- data ----

  /** Nothing follows a frame that ends the stream, except frames that carry no data. */
  ghost predicate EndsOnce(fs: seq<Frame>) {
    forall i, j :: 0 <= i < j < |fs| && fs[i].flag != CHUNK ==> fs[j].flag != CHUNK
  }

  ghost predicate NoChunk(fs: seq<Frame>) {
    forall i :: 0 <= i < |fs| ==> fs[i].flag != CHUNK
  }

  /** Byte-exact delivery, and what the flag byte and the error field say about it. */
  ghost predicate Delivering(t: Traced) {
    var s, h := t.s, t.h;
    && (s.open ==> h.read + s.r.ch.buf + Data(s.down) == h.written)
    && (!s.open ==> s.down == [] && h.read + s.r.ch.buf <= h.written)
    && (h.closed <==> s.w.flag != CHUNK)
    && (!h.closed ==> forall i :: 0 <= i < |s.down| ==> s.down[i].flag == CHUNK)
    && |h.written| <= h.spent && (!h.closed ==> h.spent == |h.written|)
    && EndsOnce(s.down)
    && (s.r.ch.err != None ==> NoChunk(s.down))
    && (s.r.ch.err == Some(ConnectionClosed) ==> !s.open)
    && (s.r.ch.err != None && s.r.ch.err != Some(ConnectionClosed) ==> h.closed && h.read + s.r.ch.buf == h.written)
  }

  lemma {:induction false} DataOfNoChunk(fs: seq<Frame>)
    requires NoChunk(fs)
    ensures Data(fs) == []
  {
    if fs != [] {
      DataOfNoChunk(fs[1..]);
    }
  }

  lemma DeliveringStep(t: Traced, a: Action, m: Accounting)
    requires Delivering(t)
    ensures Delivering(Next(t, a, m))
  {
    match a
    case Write(p) => DeliveringWrite(t, p, m);
    case Close => DeliveringEnd(t, FINISH, []);
    case DestroyWriter(msg) => DeliveringEnd(t, ERROR, msg);
    case DeliverDown =>
      if t.s.down != [] {
        DeliverDownKeepsData(t);
      }
    case Read(room) => DeliveringRead(t, room, m);
    case Disconnect => DeliveringDisconnect(t, m);
    case ReaderNotices => DeliveringNotice(t, m);
    case _ => DeliveringSame(t, Next(t, a, m));
  }

  /** A step that touches neither the frames to the reader, nor its buffer and error, nor what was written. */
  lemma DeliveringSame(t: Traced, t': Traced)
    requires Delivering(t)
    requires t'.s.open == t.s.open && t'.s.down == t.s.down && t'.s.w.flag == t.s.w.flag
    requires t'.s.r.ch.buf == t.s.r.ch.buf && t'.s.r.ch.err == t.s.r.ch.err
    requires t'.h.(seen := 0, lastSeen := 0, issued := 0, delivered := 0)
               == t.h.(seen := 0, lastSeen := 0, issued := 0, delivered := 0)
    ensures Delivering(t')
  {
  }

  lemma DeliveringDisconnect(t: Traced, m: Accounting)
    requires Delivering(t)
    ensures Delivering(Next(t, Disconnect, m))
  {
  }

  lemma DeliveringNotice(t: Traced, m: Accounting)
    requires Delivering(t)
    ensures Delivering(Next(t, ReaderNotices, m))
  {
  }

  lemma DeliveringEnd(t: Traced, flag: byte, msg: bytes)
    requires Delivering(t) && (flag == FINISH || flag == ERROR)
    ensures Delivering(Traced(DoEnd(t.s, flag, msg), t.h.(closed := true)))
  {
    DataAppend(t.s.down, Frame(flag, msg));
  }

  lemma DeliveringWrite(t: Traced, p: bytes, m: Accounting)
    requires Delivering(t)
    ensures Delivering(Next(t, Write(p), m))
  {
    if WriteGoesOut(t.s) {
      DeliveringFrame(t, p, m);
    } else {
      DeliveringSame(t, Next(t, Write(p), m));
    }
  }

  lemma DeliveringFrame(t: Traced, p: bytes, m: Accounting)
    requires Delivering(t) && WriteGoesOut(t.s)
    ensures Delivering(Next(t, Write(p), m))
  {
    var s, h := t.s, t.h;
    DataAppend(s.down, Frame(s.w.flag, p));
    assert h.read + s.r.ch.buf + (Data(s.down) + p) == h.read + s.r.ch.buf + Data(s.down) + p;
  }

  lemma MovedByRead(read: bytes, buf: bytes, n: nat)
    requires n <= |buf|
    ensures (read + buf[..n]) + buf[n..] == read + buf
    ensures n == 0 ==> read + buf[..n] == read
  {
    assert buf[..n] + buf[n..] == buf;
  }

  lemma DeliveringRead(t: Traced, room: nat, m: Accounting)
    requires Delivering(t)
    ensures Delivering(Next(t, Read(room), m))
  {
    var t' := Next(t, Read(room), m);
    MovedByRead(t.h.read, t.s.r.ch.buf, |BytesRead(t.s.r, room)|);
    assert t'.h.read + t'.s.r.ch.buf == t.h.read + t.s.r.ch.buf;
  }

  lemma DeliverDownKeepsData(t: Traced)
    requires Delivering(t) && t.s.down != []
    ensures Delivering(Traced(DoDeliverDown(t.s), t.h))
  {
    var s, h := t.s, t.h;
    var f, rest := s.down[0], s.down[1..];
    assert s.open;
    assert EndsOnce(rest) by {
      forall i, j | 0 <= i < j < |rest| && rest[i].flag != CHUNK ensures rest[j].flag != CHUNK {
        assert s.down[i + 1] == rest[i] && s.down[j + 1] == rest[j];
      }
    }
    if f.flag == CHUNK {
      assert s.r.ch.err == None;
      assert h.read + (s.r.ch.buf + f.payload) + Data(rest) == h.read + s.r.ch.buf + (f.payload + Data(rest));
    } else {
      assert NoChunk(rest);
      DataOfNoChunk(rest);
      assert Data(s.down) == [];
    }
  }

  // ---- every run ----

  ghost predicate Sound(t: Traced, m: Accounting) {
    Conserved(t, m) && Granted(t) && Delivering(t)
  }

  lemma SoundStep(t: Traced, a: Action, m: Accounting)
    requires Sound(t, m)
    ensures Sound(Next(t, a, m), m)
  {
    ConservedStep(t, a, m);
    GrantedStep(t, a, m);
    DeliveringStep(t, a, m);
  }

  lemma {:induction false} StepsSound(t: Traced, acts: seq<Action>, m: Accounting)
    requires Sound(t, m)
    ensures Sound(Steps(t, acts, m), m)
    decreases |acts|
  {
    if acts != [] {
      SoundStep(t, acts[0], m);
      StepsSound(Next(t, acts[0], m), acts[1..], m);
    }
  }

  lemma StartGranted()
    ensures Granted(START)
  {
    assert Sum([]) == 0 && QuotaIn([]) == 0;
  }

  lemma StartDelivering()
    ensures Delivering(START)
  {
    assert Data([]) == [];
  }

  lemma StartSound(m: Accounting)
    ensures Sound(START, m)
  {
    StartGranted();
    StartDelivering();
  }

  lemma RunSound(acts: seq<Action>, m: Accounting)
    ensures Sound(Run(acts, m), m)
  {
    StartSound(m);
    StepsSound(START, acts, m);
  }

  /** Credit conservation in every run of the code: the writer is never short of what it has been granted. */
  lemma CreditConservation(acts: seq<Action>)
    ensures var t := Run(acts, AsWritten);
            && t.s.r.quotaRem + |t.h.read| == QUOTA_SIZE + t.h.issued
            && t.s.w.quotaRem + t.h.spent == QUOTA_SIZE + t.h.seen
            && t.s.w.quotaRem + t.h.spent >= QUOTA_SIZE + t.h.lastSeen
            && t.s.w.ch.quota == t.h.delivered <= t.h.issued
  {
    RunSound(acts, AsWritten);
    var t := Run(acts, AsWritten);
    SumPositive(t.s.r.credited);
  }

  /** Byte-exact delivery in every run: while the connection is up, the bytes read, buffered and in flight
      are exactly those written before the first `Close` or `Destroy`; after it is lost, what was read and
      what is buffered is a prefix of them. */
  lemma ByteExactDelivery(acts: seq<Action>, m: Accounting)
    ensures var t := Run(acts, m);
            && (t.s.open ==> t.h.read + t.s.r.ch.buf + Data(t.s.down) == t.h.written)
            && t.h.read + t.s.r.ch.buf <= t.h.written
  {
    RunSound(acts, m);
  }

  /** The end of the stream, by EOF or by the error text of the writer: it means that everything written has
      been read exactly when `Read` had room, or nothing was left in the buffer. */
  lemma EndMeansAllReadIff(acts: seq<Action>, m: Accounting, room: nat)
    requires ReadOutcome(Run(acts, m).s.r, room).Failed? && ReadOutcome(Run(acts, m).s.r, room).err != ConnectionClosed
    ensures var t := Run(acts, m);
            t.h.closed && (t.h.read == t.h.written <==> room > 0 || t.s.r.ch.buf == [])
  {
    RunSound(acts, m);
    var t := Run(acts, m);
    assert t.h.read + t.s.r.ch.buf == t.h.written;
    assert |t.h.read + t.s.r.ch.buf| == |t.h.read| + |t.s.r.ch.buf|;
    assert t.h.read + [] == t.h.read;
  }

  /** With an empty destination the same call can report EOF past unread bytes. */
  lemma EmptyReadSkipsData()
    ensures exists acts :: ReadOutcome(Run(acts, AsWritten).s.r, 0) == Failed(Eof)
                           && Run(acts, AsWritten).h.read != Run(acts, AsWritten).h.written
  {
    var acts := [Write([7]), Close, DeliverDown, DeliverDown];
    assert acts[1..] == [Close, DeliverDown, DeliverDown];
    var t := Next(Next(START, Write([7]), AsWritten), Close, AsWritten);
    assert t.s.down == [Frame(CHUNK, [7]), Frame(FINISH, [])];
    var t' := Next(t, DeliverDown, AsWritten);
    assert t'.s.down == [Frame(FINISH, [])];
    assert Run(acts, AsWritten) == Next(t', DeliverDown, AsWritten) by {
      assert acts[1..][1..] == [DeliverDown, DeliverDown];
      assert acts[1..][1..][1..] == [DeliverDown];
      assert [DeliverDown][1..] == [];
    }
    assert ReadOutcome(Run(acts, AsWritten).s.r, 0) == Failed(Eof);
  }

  // ---- no starvation ----

  /** Both ends still in their initial role on a live connection. */
  ghost predicate ErrorFree(t: Traced) {
    t.s.open && !t.h.closed && t.s.r.flag == QUOTA && t.s.w.ch.err == None
  }

  /** The next attempt of `Write` would wait. */
  predicate WouldBlock(s: Session) {
    AttemptCredit(s.w) <= 0
  }

  /** Something is on its way that can still raise the writer's credit. */
  ghost predicate CreditOnTheWay(s: Session) {
    s.r.ch.buf + Data(s.down) != [] || s.r.launched != [] || s.r.credited != [] || s.up != []
  }

  /** With nothing on the way, the writer holds at least the reader's remaining credit. */
  lemma IdleMeansCredit(t: Traced, m: Accounting)
    requires Sound(t, m) && ErrorFree(t) && !CreditOnTheWay(t.s)
    ensures AttemptCredit(t.s.w) >= t.s.r.quotaRem > 0
  {
    assert t.s.r.ch.buf == [] && Data(t.s.down) == [];
    assert |t.h.read + t.s.r.ch.buf + Data(t.s.down)| == |t.h.read|;
  }

  /** No credit deadlock, for the code as written and for the meant accounting. */
  lemma NoCreditDeadlock(acts: seq<Action>, m: Accounting)
    requires ErrorFree(Run(acts, m)) && WouldBlock(Run(acts, m).s)
    ensures CreditOnTheWay(Run(acts, m).s)
  {
    RunSound(acts, m);
    if !CreditOnTheWay(Run(acts, m).s) {
      IdleMeansCredit(Run(acts, m), m);
    }
  }

  lemma RunSnoc(acts: seq<Action>, a: Action, m: Accounting)
    ensures Run(acts + [a], m) == Next(Run(acts, m), a, m)
  {
    StepsConcat(START, acts, [a], m);
    assert [a][1..] == [];
  }

  /** Steps that need nothing from the writing application. */
  predicate IsDraining(a: Action) {
    a.DeliverDown? || a.Read? || a.Credit? || a.SendGrant? || a.DeliverUp?
  }

  /** The oldest thing that is still on its way to becoming credit. */
  function NextDrain(s: Session): Action {
    if s.down != [] then DeliverDown
    else if s.r.ch.buf != [] then Read(|s.r.ch.buf|)
    else if s.r.launched != [] then Credit(0)
    else if s.r.credited != [] then SendGrant(0)
    else DeliverUp
  }

  predicate Drained(s: Session) {
    s.down == [] && s.r.ch.buf == [] && s.r.launched == [] && s.r.credited == [] && s.up == []
  }

  /** Draining keeps a session free of errors, and something gets shorter with every step. */
  lemma DrainStep(t: Traced, m: Accounting)
    requires Sound(t, m) && ErrorFree(t) && !Drained(t.s)
    ensures var t' := Next(t, NextDrain(t.s), m);
            var r, r' := t.s.r, t'.s.r;
            && Sound(t', m) && ErrorFree(t')
            && (|t'.s.down| < |t.s.down| ||
                (t'.s.down == t.s.down &&
                 (|r'.ch.buf| < |r.ch.buf| ||
                  (r'.ch.buf == r.ch.buf &&
                   (|r'.launched| < |r.launched| ||
                    (r'.launched == r.launched &&
                     (|r'.credited| < |r.credited| ||
                      (r'.credited == r.credited && |t'.s.up| < |t.s.up|))))))))
  {
    SoundStep(t, NextDrain(t.s), m);
    if t.s.down != [] {
      assert t.s.down[0].flag == CHUNK;
    } else if t.s.r.ch.buf != [] {
      assert BytesRead(t.s.r, |t.s.r.ch.buf|) == t.s.r.ch.buf;
    } else if t.s.r.launched == [] && t.s.r.credited == [] {
      assert t.s.up[0].flag == QUOTA;
    }
  }

  /** The discipline of the meant accounting: no `Read` takes data while an earlier grant is still waiting to
      be credited, and no payload is longer than `chunk`. */
  ghost predicate Disciplined(t: Traced, acts: seq<Action>, m: Accounting, chunk: nat)
    decreases |acts|
  {
    acts != [] ==>
      && (acts[0].Read? && BytesRead(t.s.r, acts[0].room) != [] ==> t.s.r.launched == [])
      && (acts[0].Write? ==> |acts[0].p| <= chunk)
      && Disciplined(Next(t, acts[0], m), acts[1..], m, chunk)
  }

  /** Draining all the way. With no grant waiting when data is still to be read, it reads once, so it keeps
      the discipline of the meant accounting. */
  lemma {:induction false} Drain(t: Traced, m: Accounting, chunk: nat) returns (more: seq<Action>)
    requires Sound(t, m) && ErrorFree(t)
    ensures forall a :: a in more ==> IsDraining(a)
    ensures var t' := Steps(t, more, m);
            ErrorFree(t') && WriteGoesOut(t'.s) && t'.s.w.quotaRem == t.s.w.quotaRem
    ensures t.s.r.launched == [] || (t.s.down == [] && t.s.r.ch.buf == []) ==> Disciplined(t, more, m, chunk)
    decreases |t.s.down|, |t.s.r.ch.buf|, |t.s.r.launched|, |t.s.r.credited|, |t.s.up|
  {
    if Drained(t.s) {
      IdleMeansCredit(t, m);
      more := [];
    } else {
      DrainStep(t, m);
      var a := NextDrain(t.s);
      var rest := Drain(Next(t, a, m), m, chunk);
      more := [a] + rest;
      assert more[1..] == rest;
    }
  }

  /** Starvation is never final: from every error-free state, delivering, reading and granting alone lead
      to an error-free state in which an attempt of `Write` goes out. */
  lemma StarvationEnds(acts: seq<Action>, m: Accounting)
    requires ErrorFree(Run(acts, m))
    ensures exists more: seq<Action> :: (forall a :: a in more ==> IsDraining(a))
                                        && ErrorFree(Run(acts + more, m)) && WriteGoesOut(Run(acts + more, m).s)
  {
    RunSound(acts, m);
    var more := Drain(Run(acts, m), m, 0);
    StepsConcat(START, acts, more, m);
  }

  // ---- how large a grant can be ----

  ghost predicate NoneAbove(s: seq<int>, most: int) {
    forall i :: 0 <= i < |s| ==> s[i] <= most
  }

  ghost predicate GrantsWithin(t: Traced) {
    NoneAbove(t.s.r.launched, |t.h.read|) && NoneAbove(t.s.r.credited, |t.h.read|)
  }

  lemma GrantsWithinStep(t: Traced, a: Action, m: Accounting)
    requires Sound(t, m) && GrantsWithin(t)
    ensures GrantsWithin(Next(t, a, m))
  {
    match a
    case Read(room) => ReadGrantsWithin(t, room, m);
    case Credit(i) => if i < |t.s.r.launched| { NoneAboveMoved(t.s.r.launched, i, |t.h.read|, t.s.r.credited); }
    case SendGrant(i) => if i < |t.s.r.credited| { NoneAboveMoved(t.s.r.credited, i, |t.h.read|, []); }
    case _ => SameGrantsWithin(t, Next(t, a, m));
  }

  lemma NoneAboveMoved(s: seq<int>, i: nat, most: int, r: seq<int>)
    requires i < |s| && NoneAbove(s, most) && NoneAbove(r, most)
    ensures NoneAbove(Without(s, i), most) && NoneAbove(r + [s[i]], most)
  {
  }

  lemma SameGrantsWithin(t: Traced, t': Traced)
    requires GrantsWithin(t) && t'.h.read == t.h.read
    requires t'.s.r.launched == t.s.r.launched && t'.s.r.credited == t.s.r.credited
    ensures GrantsWithin(t')
  {
  }

  /** What a read grants is what has been read beyond the grants issued. */
  lemma ReadGrantsWithin(t: Traced, room: nat, m: Accounting)
    requires Sound(t, m) && GrantsWithin(t)
    ensures GrantsWithin(Next(t, Read(room), m))
  {
    SumPositive(t.s.r.credited);
    var n := |BytesRead(t.s.r, room)|;
    assert QUOTA_SIZE - (t.s.r.quotaRem - n) <= |t.h.read| + n;
  }

  lemma {:induction false} GrantsWithinSteps(t: Traced, acts: seq<Action>, m: Accounting)
    requires Sound(t, m) && GrantsWithin(t)
    ensures GrantsWithin(Steps(t, acts, m))
    decreases |acts|
  {
    if acts != [] {
      SoundStep(t, acts[0], m);
      GrantsWithinStep(t, acts[0], m);
      GrantsWithinSteps(Next(t, acts[0], m), acts[1..], m);
    }
  }

  /** In every run the reader's credit and its launched grants stay above 66 hundredths of the quota. */
  lemma CreditFloor(acts: seq<Action>, m: Accounting)
    ensures Run(acts, m).s.r.quotaRem + Sum(Run(acts, m).s.r.launched) >= 10814
  {
    RunSound(acts, m);
  }

  /** And that is where grants begin: after reading down to 10814 none is launched, after one byte more one that
      restores the quota. */
  lemma CreditFloorAttained(p: bytes)
    requires |p| == 5571
    ensures var r := Run([Write(p), DeliverDown, Read(5570)], AsWritten).s.r; r.quotaRem == 10814 && r.launched == []
    ensures var r := Run([Write(p), DeliverDown, Read(5571)], AsWritten).s.r;
            r.quotaRem == 10813 && r.launched == [QUOTA_SIZE - 10813]
  {
    var t := OneDelivered(p);
    StepsOfThree(START, Write(p), DeliverDown, Read(5570), AsWritten);
    StepsOfThree(START, Write(p), DeliverDown, Read(5571), AsWritten);
    assert |BytesRead(t.s.r, 5570)| == 5570 && |BytesRead(t.s.r, 5571)| == 5571;
  }

  lemma OneDelivered(p: bytes) returns (t: Traced)
    ensures t == Next(Next(START, Write(p), AsWritten), DeliverDown, AsWritten)
    ensures t.s.r == Reader(QUOTA, QUOTA_SIZE, Channel(p, None, 0), [], [])
  {
    var t1 := Next(START, Write(p), AsWritten);
    assert t1.s.down == [Frame(CHUNK, p)];
    t := Next(t1, DeliverDown, AsWritten);
    assert [] + p == p;
  }

  lemma StepsOfThree(t: Traced, a: Action, b: Action, c: Action, m: Accounting)
    ensures Steps(t, [a, b, c], m) == Next(Next(Next(t, a, m), b, m), c, m)
  {
    assert [a, b, c][1..] == [b, c] && [b, c][1..] == [c] && [c][1..] == [];
    assert Steps(Next(t, a, m), [b, c], m) == Steps(Next(Next(t, a, m), b, m), [c], m);
  }

  /** In every run a grant is positive and at most the number of bytes read so far, so the number codec is
      exact for it until 2^53 bytes have been read. */
  lemma GrantAtMostRead(acts: seq<Action>, m: Accounting, i: nat)
    requires i < |Run(acts, m).s.r.credited|
    ensures 0 < Run(acts, m).s.r.credited[i] <= |Run(acts, m).h.read|
  {
    RunSound(acts, m);
    StartSound(m);
    GrantsWithinSteps(START, acts, m);
  }
}
