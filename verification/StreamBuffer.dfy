/** How much a stream session can hold unread: the bound of the accounting that was meant, and how the code as
    written passes it. */
module StreamBuffer {
  import opened Numbers
  import opened Frames
  import opened StreamModel
  import opened R = StreamRuns
  import opened Wrappers

  /** Bytes accepted from the writer that `Read` has not returned. */
  function Unread(t: Traced): int {
    |t.h.written| - |t.h.read|
  }

  /** Credit the writer has used beyond the grants that reached it. */
  function Excess(h: History): nat {
    if h.seen > h.delivered then h.seen - h.delivered else 0
  }

  /** The reader has promised no more than a quota, and the writer has overdrawn by less than a chunk. */
  ghost predicate WithinQuota(s: Session, chunk: nat) {
    s.r.quotaRem + Sum(s.r.launched) <= QUOTA_SIZE && s.w.quotaRem + chunk >= 1
  }

  lemma WithinQuotaStep(t: Traced, a: Action, m: Accounting, chunk: nat)
    requires Sound(t, m) && WithinQuota(t.s, chunk)
    requires a.Read? && BytesRead(t.s.r, a.room) != [] ==> t.s.r.launched == []
    requires a.Write? ==> |a.p| <= chunk
    ensures WithinQuota(Next(t, a, m).s, chunk)
  {
    var r := t.s.r;
    match a
    case Read(room) => SumAppend(r.launched, QUOTA_SIZE - (r.quotaRem - |BytesRead(r, room)|));
    case Credit(i) => if i < |r.launched| { SumWithout(r.launched, i); }
    case _ =>
  }

  lemma {:induction false} DisciplinedWithinQuota(t: Traced, acts: seq<Action>, m: Accounting, chunk: nat)
    requires Sound(t, m) && WithinQuota(t.s, chunk) && Disciplined(t, acts, m, chunk)
    ensures WithinQuota(Steps(t, acts, m).s, chunk)
    decreases |acts|
  {
    if acts != [] {
      WithinQuotaStep(t, acts[0], m, chunk);
      SoundStep(t, acts[0], m);
      DisciplinedWithinQuota(Next(t, acts[0], m), acts[1..], m, chunk);
    }
  }

  lemma BufferedIsUnread(t: Traced)
    requires Delivering(t)
    ensures |t.s.r.ch.buf| + |R.Data(t.s.down)| <= Unread(t)
  {
    if t.s.open {
      assert |t.h.read + t.s.r.ch.buf + R.Data(t.s.down)| == |t.h.written|;
    } else {
      assert |t.h.read + t.s.r.ch.buf| <= |t.h.written|;
    }
  }

  /** Writer's credit, reader's credit and everything between them, put together. */
  lemma UnreadWithinQuota(t: Traced, m: Accounting, chunk: nat)
    requires Sound(t, m) && WithinQuota(t.s, chunk)
    ensures Unread(t) <= QUOTA_SIZE + chunk - 1 + Excess(t.h)
  {
    SumPositive(t.s.r.launched);
    SumPositive(t.s.r.credited);
  }

  /** The buffer bound. In a disciplined run the unread bytes, in flight or buffered, stay below one quota
      plus one chunk, plus whatever credit the writer has taken twice. */
  lemma BufferBound(acts: seq<Action>, m: Accounting, chunk: nat)
    requires chunk >= 1 && Disciplined(START, acts, m, chunk)
    ensures var t := Run(acts, m);
            && Unread(t) <= QUOTA_SIZE + chunk - 1 + Excess(t.h)
            && |t.s.r.ch.buf| + |R.Data(t.s.down)| <= Unread(t)
  {
    RunSound(acts, m);
    StartSound(m);
    DisciplinedWithinQuota(START, acts, m, chunk);
    BufferedIsUnread(Run(acts, m));
    UnreadWithinQuota(Run(acts, m), m, chunk);
  }

  /** The bound of the meant accounting: a grant taken once is never taken in excess. */
  lemma MeantBufferBound(acts: seq<Action>, chunk: nat)
    requires chunk >= 1 && Disciplined(START, acts, TakeOnce, chunk)
    ensures |Run(acts, TakeOnce).s.r.ch.buf| <= Unread(Run(acts, TakeOnce)) <= QUOTA_SIZE + chunk - 1
  {
    RunSound(acts, TakeOnce);
    BufferBound(acts, TakeOnce, chunk);
  }

  lemma {:induction false} DisciplinedConcat(t: Traced, acts: seq<Action>, more: seq<Action>, m: Accounting, chunk: nat)
    requires Disciplined(t, acts, m, chunk) && Disciplined(Steps(t, acts, m), more, m, chunk)
    ensures Disciplined(t, acts + more, m, chunk)
    decreases |acts|
  {
    if acts == [] {
      assert acts + more == more;
    } else {
      DisciplinedConcat(Next(t, acts[0], m), acts[1..], more, m, chunk);
      assert (acts + more)[0] == acts[0] && (acts + more)[1..] == acts[1..] + more;
    }
  }

  lemma DisciplinedSnoc(acts: seq<Action>, p: bytes, m: Accounting, chunk: nat)
    requires Disciplined(START, acts, m, chunk) && |p| <= chunk
    ensures Disciplined(START, acts + [Write(p)], m, chunk)
  {
    assert [Write(p)][1..] == [];
    DisciplinedConcat(START, acts, [Write(p)], m, chunk);
  }

  /** Attempts with one byte each. */
  function Bytewise(n: nat): seq<Action> {
    if n == 0 then [] else Bytewise(n - 1) + [Write([0])]
  }

  /** `n` bytes written and nothing delivered. */
  ghost predicate Filled(t: Traced, n: nat) {
    && t.s.open && t.s.up == [] && t.s.r == NEW_SESSION.r && t.s.w == NEW_SESSION.w.(quotaRem := QUOTA_SIZE - n)
    && !t.h.closed && |t.h.written| == n && t.h.read == []
  }

  lemma {:induction false} BytewiseFills(n: nat, m: Accounting, chunk: nat)
    requires n <= QUOTA_SIZE && chunk >= 1
    ensures Disciplined(START, Bytewise(n), m, chunk) && Filled(Run(Bytewise(n), m), n)
  {
    if n > 0 {
      BytewiseFills(n - 1, m, chunk);
      DisciplinedSnoc(Bytewise(n - 1), [0], m, chunk);
      RunSnoc(Bytewise(n - 1), Write([0]), m);
      FilledStep(Run(Bytewise(n - 1), m), n - 1, m);
    }
  }

  lemma FilledStep(t: Traced, n: nat, m: Accounting)
    requires Filled(t, n) && n < QUOTA_SIZE
    ensures Filled(Next(t, Write([0]), m), n + 1)
  {
  }

  /** A payload of a given length. */
  function Filler(n: nat): (p: bytes)
    ensures |p| == n
  {
    if n == 0 then [] else Filler(n - 1) + [0]
  }

  /** The bound is attained for every chunk length: the last byte of credit admits a whole chunk. */
  lemma BoundAttained(chunk: nat, m: Accounting)
    requires chunk >= 1
    ensures exists acts :: Disciplined(START, acts, m, chunk) && Unread(Run(acts, m)) == QUOTA_SIZE + chunk - 1
  {
    var acts, p := Bytewise(QUOTA_SIZE - 1), Filler(chunk);
    BytewiseFills(QUOTA_SIZE - 1, m, chunk);
    DisciplinedSnoc(acts, p, m, chunk);
    RunSnoc(acts, Write(p), m);
    assert Unread(Run(acts + [Write(p)], m)) == QUOTA_SIZE + chunk - 1;
  }

  /** Where the code departs, first: an attempt of `Write` as written stays within the grants delivered
      exactly when no earlier attempt has found a grant. */
  lemma AttemptWithinGrants(acts: seq<Action>, p: bytes)
    requires Run(acts, AsWritten).s.w.ch.err == None
    ensures Excess(Run(acts + [Write(p)], AsWritten).h) == Run(acts, AsWritten).h.seen
    ensures Excess(Run(acts + [Write(p)], AsWritten).h) == 0 <==> Run(acts, AsWritten).h.seen == 0
  {
    RunSnoc(acts, Write(p), AsWritten);
    RunSound(acts, AsWritten);
  }

  /** Second: a `Read` keeps the reader's credit, launched grants included, within the quota exactly when it
      does not launch a grant while another is waiting. */
  lemma ReadWithinQuota(t: Traced, room: nat)
    requires Granted(t) && t.s.r.quotaRem + Sum(t.s.r.launched) <= QUOTA_SIZE && BytesRead(t.s.r, room) != []
    ensures var after := AfterRead(t.s.r, room);
            after.quotaRem + Sum(after.launched) <= QUOTA_SIZE
            <==> !BelowThreshold(t.s.r.quotaRem - |BytesRead(t.s.r, room)|) || t.s.r.launched == []
  {
    SumPositive(t.s.r.launched);
    SumAppend(t.s.r.launched, QUOTA_SIZE - (t.s.r.quotaRem - |BytesRead(t.s.r, room)|));
  }

  // ---- the code as written has no bound ----

  /** No payload is longer than a chunk. */
  ghost predicate ShortWrites(acts: seq<Action>, chunk: nat) {
    forall i :: 0 <= i < |acts| && acts[i].Write? ==> |acts[i].p| <= chunk
  }

  function Writes(ps: seq<bytes>): seq<Action> {
    if ps == [] then [] else [Write(ps[0])] + Writes(ps[1..])
  }

  ghost predicate AllWithin(ps: seq<bytes>, chunk: nat) {
    forall i :: 0 <= i < |ps| ==> |ps[i]| <= chunk
  }

  /** Attempts of the code, and nothing else: each one finds the whole quota of the channel again. */
  lemma {:induction false} EachAttemptGains(t: Traced, ps: seq<bytes>)
    requires t.s.w.ch.err == None
    ensures var t' := Steps(t, Writes(ps), AsWritten);
            && t'.s.w.ch == t.s.w.ch && t'.h.delivered == t.h.delivered
            && t'.s.w.quotaRem + t'.h.spent == t.s.w.quotaRem + t.h.spent + |ps| * t.s.w.ch.quota
    decreases |ps|
  {
    if ps != [] {
      EachAttemptGains(Next(t, Write(ps[0]), AsWritten), ps[1..]);
      assert Writes(ps)[1..] == Writes(ps[1..]);
      Distribute(|ps[1..]|, t.s.w.ch.quota);
    }
  }

  lemma Distribute(n: nat, q: int)
    ensures (n + 1) * q == n * q + q
  {
  }

  lemma {:induction false} WritesDisciplined(t: Traced, ps: seq<bytes>, chunk: nat)
    requires AllWithin(ps, chunk)
    ensures Disciplined(t, Writes(ps), AsWritten, chunk)
    decreases |ps|
  {
    if ps != [] {
      assert Writes(ps)[1..] == Writes(ps[1..]);
      WritesDisciplined(Next(t, Write(ps[0]), AsWritten), ps[1..], chunk);
    }
  }

  /** A grant that has reached the channel lets one-byte attempts pass any target. */
  lemma {:induction false} Overrun(t: Traced, target: int) returns (ps: seq<bytes>)
    requires t.s.open && !t.h.closed && t.s.w.ch.err == None && t.s.w.ch.quota > 0
    ensures AllWithin(ps, 1) && Unread(Steps(t, Writes(ps), AsWritten)) > target
    decreases if target >= Unread(t) then target - Unread(t) + 1 else 0,
              if AttemptCredit(t.s.w) <= 0 then 1 - AttemptCredit(t.s.w) else 0
  {
    if Unread(t) > target {
      ps := [];
    } else {
      var rest := Overrun(Next(t, Write([0]), AsWritten), target);
      ps := [[0]] + rest;
      assert ps[1..] == rest && Writes(ps)[1..] == Writes(rest);
    }
  }

  /** Further attempts alone, none longer than a chunk, can pass the bound of the meant accounting. */
  ghost predicate CanOverrun(acts: seq<Action>, chunk: nat) {
    exists ps :: AllWithin(ps, chunk) && Unread(Run(acts + Writes(ps), AsWritten)) > QUOTA_SIZE + chunk - 1
  }

  /** When the bound fails for the code: after any run without errors whose chunks are no longer, however its
      grants overlap, attempts alone can pass it exactly when a grant has reached the writer's channel. */
  lemma OverrunIff(acts: seq<Action>, chunk: nat)
    requires chunk >= 1 && ShortWrites(acts, chunk) && ErrorFree(Run(acts, AsWritten))
    ensures CanOverrun(acts, chunk) <==> Run(acts, AsWritten).s.w.ch.quota > 0
  {
    ChannelQuota(acts);
    if Run(acts, AsWritten).s.w.ch.quota > 0 {
      GrantOverruns(acts, chunk);
    } else if CanOverrun(acts, chunk) {
      var ps :| AllWithin(ps, chunk) && Unread(Run(acts + Writes(ps), AsWritten)) > QUOTA_SIZE + chunk - 1;
      NoGrantNoOverrun(acts, ps, chunk);
    }
  }

  lemma ChannelQuota(acts: seq<Action>)
    ensures Run(acts, AsWritten).s.w.ch.quota >= 0
  {
    RunSound(acts, AsWritten);
  }

  lemma GrantOverruns(acts: seq<Action>, chunk: nat)
    requires chunk >= 1 && ErrorFree(Run(acts, AsWritten)) && Run(acts, AsWritten).s.w.ch.quota > 0
    ensures CanOverrun(acts, chunk)
  {
    var ps := Overrun(Run(acts, AsWritten), QUOTA_SIZE + chunk - 1);
    StepsConcat(START, acts, Writes(ps), AsWritten);
    assert AllWithin(ps, chunk) && Unread(Run(acts + Writes(ps), AsWritten)) > QUOTA_SIZE + chunk - 1;
  }

  /** A writer overdraws by less than a chunk. */
  lemma {:induction false} OverdrawnByAChunk(t: Traced, acts: seq<Action>, m: Accounting, chunk: nat)
    requires t.s.w.quotaRem + chunk >= 1 && t.s.w.ch.quota >= 0 && ShortWrites(acts, chunk)
    ensures Steps(t, acts, m).s.w.quotaRem + chunk >= 1
    decreases |acts|
  {
    if acts != [] {
      assert acts[0].Write? ==> |acts[0].p| <= chunk;
      assert forall i :: 0 <= i < |acts[1..]| ==> acts[1..][i] == acts[i + 1];
      OverdrawnByAChunk(Next(t, acts[0], m), acts[1..], m, chunk);
    }
  }

  lemma {:induction false} WritesShort(ps: seq<bytes>, chunk: nat)
    requires AllWithin(ps, chunk)
    ensures ShortWrites(Writes(ps), chunk)
  {
    if ps != [] {
      WritesShort(ps[1..], chunk);
    }
  }

  lemma NoGrantNoOverrun(acts: seq<Action>, ps: seq<bytes>, chunk: nat)
    requires chunk >= 1 && ShortWrites(acts, chunk) && AllWithin(ps, chunk)
    requires Run(acts, AsWritten).s.w.ch.err == None && Run(acts, AsWritten).s.w.ch.quota == 0
    ensures Unread(Run(acts + Writes(ps), AsWritten)) <= QUOTA_SIZE + chunk - 1
  {
    RunSound(acts, AsWritten);
    StepsConcat(START, acts, Writes(ps), AsWritten);
    EachAttemptGains(Run(acts, AsWritten), ps);
    WritesShort(ps, chunk);
    OverdrawnByAChunk(START, acts + Writes(ps), AsWritten, chunk);
    RunSound(acts + Writes(ps), AsWritten);
  }

  /** A disciplined run after which a grant is in the channel: a quota written byte by byte, and drained. */
  lemma GrantArrives(chunk: nat) returns (acts: seq<Action>)
    requires chunk >= 1
    ensures Disciplined(START, acts, AsWritten, chunk)
    ensures ErrorFree(Run(acts, AsWritten)) && Run(acts, AsWritten).s.w.ch.quota > 0
  {
    var fill, m := Bytewise(QUOTA_SIZE), AsWritten;
    BytewiseFills(QUOTA_SIZE, m, chunk);
    RunSound(fill, m);
    var more := Drain(Run(fill, m), m, chunk);
    acts := fill + more;
    DisciplinedConcat(START, fill, more, m, chunk);
    StepsConcat(START, fill, more, m);
  }

  /** For the code as written no bound holds, however short the chunks, even when every grant is finished
      before the next `Read`. */
  lemma NoBufferBoundAsWritten(chunk: nat, bound: nat)
    requires chunk >= 1
    ensures exists acts :: Disciplined(START, acts, AsWritten, chunk) && Unread(Run(acts, AsWritten)) > bound
  {
    var acts := GrantArrives(chunk);
    var ps := Overrun(Run(acts, AsWritten), bound);
    WritesDisciplined(Run(acts, AsWritten), ps, chunk);
    DisciplinedConcat(START, acts, Writes(ps), AsWritten, chunk);
    StepsConcat(START, acts, Writes(ps), AsWritten);
    assert Unread(Run(acts + Writes(ps), AsWritten)) > bound;
  }

  // ---- grants taken once, but several pending ----

  /** What the reader has promised: its credit with the grants that are waiting. */
  function Promise(s: Session): int {
    s.r.quotaRem + Sum(s.r.launched)
  }

  /** Everything between writer and reader, put together, while there is no error. */
  lemma CreditEquation(t: Traced)
    requires Sound(t, TakeOnce) && ErrorFree(t)
    ensures Unread(t) + AttemptCredit(t.s.w) + QuotaIn(t.s.up) + Sum(t.s.r.credited) + Sum(t.s.r.launched)
            == Promise(t.s)
  {
  }

  ghost predicate NoReads(acts: seq<Action>) {
    forall i :: 0 <= i < |acts| ==> !acts[i].Read?
  }

  predicate NothingGranted(s: Session) {
    s.r.launched == [] && s.r.credited == [] && s.up == []
  }

  /** The next step of the oldest grant under way. */
  function NextGrant(s: Session): Action {
    if s.r.launched != [] then Credit(0) else if s.r.credited != [] then SendGrant(0) else DeliverUp
  }

  lemma GrantMoves(t: Traced)
    requires Sound(t, TakeOnce) && ErrorFree(t) && !NothingGranted(t.s)
    ensures var t' := Next(t, NextGrant(t.s), TakeOnce);
            && ErrorFree(t') && Promise(t'.s) == Promise(t.s) && Unread(t') == Unread(t)
            && var r, r' := t.s.r, t'.s.r;
               || |r'.launched| < |r.launched|
               || (r'.launched == r.launched && |r'.credited| < |r.credited|)
               || (r'.launched == r.launched && r'.credited == r.credited && |t'.s.up| < |t.s.up|)
  {
    if t.s.r.launched != [] {
      SumWithout(t.s.r.launched, 0);
    } else if t.s.r.credited == [] {
      assert t.s.up[0].flag == QUOTA;
    }
  }

  /** All grants reach the writer; nothing else changes. */
  lemma {:induction false} Flush(t: Traced) returns (more: seq<Action>)
    requires Sound(t, TakeOnce) && ErrorFree(t)
    ensures NoReads(more) && ShortWrites(more, 0)
    ensures var t' := Steps(t, more, TakeOnce);
            && Sound(t', TakeOnce) && ErrorFree(t') && NothingGranted(t'.s)
            && Promise(t'.s) == Promise(t.s) && Unread(t') == Unread(t)
    decreases |t.s.r.launched|, |t.s.r.credited|, |t.s.up|
  {
    if NothingGranted(t.s) {
      more := [];
    } else {
      var a := NextGrant(t.s);
      GrantMoves(t);
      SoundStep(t, a, TakeOnce);
      var rest := Flush(Next(t, a, TakeOnce));
      more := [a] + rest;
      assert more[1..] == rest;
    }
  }

  /** One-byte attempts until one byte of credit is left. */
  lemma {:induction false} UseUp(t: Traced) returns (more: seq<Action>)
    requires Sound(t, TakeOnce) && ErrorFree(t) && NothingGranted(t.s) && Unread(t) < Promise(t.s)
    ensures NoReads(more) && ShortWrites(more, 1)
    ensures var t' := Steps(t, more, TakeOnce);
            && Sound(t', TakeOnce) && ErrorFree(t') && NothingGranted(t'.s)
            && Promise(t'.s) == Promise(t.s) && Unread(t') == Promise(t.s) - 1
    decreases Promise(t.s) - Unread(t)
  {
    CreditEquation(t);
    if Unread(t) == Promise(t.s) - 1 {
      more := [];
    } else {
      SoundStep(t, Write([0]), TakeOnce);
      var rest := UseUp(Next(t, Write([0]), TakeOnce));
      more := [Write([0])] + rest;
      assert more[1..] == rest;
    }
  }

  lemma ContinuationsConcat(a: seq<Action>, b: seq<Action>, chunk: nat)
    requires NoReads(a) && ShortWrites(a, chunk) && NoReads(b) && ShortWrites(b, chunk)
    ensures NoReads(a + b) && ShortWrites(a + b, chunk)
  {
  }

  /** As long as the reader has promised more than is unread, the writer can go on until a chunk less one beyond
      the promise. */
  lemma FillUp(t: Traced, chunk: nat) returns (more: seq<Action>)
    requires Sound(t, TakeOnce) && ErrorFree(t) && Unread(t) < Promise(t.s) && chunk >= 1
    ensures NoReads(more) && ShortWrites(more, chunk)
    ensures Unread(Steps(t, more, TakeOnce)) == Promise(t.s) + chunk - 1
  {
    var flush := Flush(t);
    var t1 := Steps(t, flush, TakeOnce);
    var use := UseUp(t1);
    var t2 := Steps(t1, use, TakeOnce);
    var last := [Write(Filler(chunk))];
    CreditEquation(t2);
    assert last[1..] == [];
    assert Steps(t2, last, TakeOnce) == Next(t2, Write(Filler(chunk)), TakeOnce);
    StepsConcat(t, flush, use, TakeOnce);
    StepsConcat(t, flush + use, last, TakeOnce);
    ContinuationsConcat(flush, use, chunk);
    ContinuationsConcat(flush + use, last, chunk);
    more := (flush + use) + last;
  }

  /** Bytes accepted, late ones included, that have not been read. */
  function Accepted(t: Traced): int {
    t.h.spent - |t.h.read|
  }

  lemma StepWithin(t: Traced, a: Action, chunk: nat)
    requires Sound(t, TakeOnce) && !a.Read? && (a.Write? ==> |a.p| <= chunk)
    ensures var t' := Next(t, a, TakeOnce);
            && Promise(t'.s) == Promise(t.s)
            && (Accepted(t') <= Accepted(t) || Accepted(t') <= Promise(t.s) + chunk - 1)
  {
    SumPositive(t.s.r.launched);
    SumPositive(t.s.r.credited);
    if a.Credit? && a.i < |t.s.r.launched| {
      SumWithout(t.s.r.launched, a.i);
    }
  }

  lemma {:induction false} StaysWithin(t: Traced, more: seq<Action>, chunk: nat, bound: int)
    requires Sound(t, TakeOnce) && NoReads(more) && ShortWrites(more, chunk)
    requires Accepted(t) <= bound && Promise(t.s) + chunk - 1 <= bound
    ensures Unread(Steps(t, more, TakeOnce)) <= bound
    decreases |more|
  {
    if more != [] {
      assert !more[0].Read? && (more[0].Write? ==> |more[0].p| <= chunk);
      assert forall i :: 0 <= i < |more[1..]| ==> more[1..][i] == more[i + 1];
      StepWithin(t, more[0], chunk);
      SoundStep(t, more[0], TakeOnce);
      StaysWithin(Next(t, more[0], TakeOnce), more[1..], chunk, bound);
    }
  }

  /** Without a further `Read`, and with chunks no longer than this, the bound is passed. */
  ghost predicate CanPass(acts: seq<Action>, chunk: nat) {
    exists more :: NoReads(more) && ShortWrites(more, chunk)
                   && Unread(Run(acts + more, TakeOnce)) > QUOTA_SIZE + chunk - 1
  }

  /** Where the code departs second, with each grant taken once: after any run without errors, the writer can
      pass the bound before the next `Read` exactly when it has passed it already, or the reader has promised
      more than a quota and more than is unread. */
  lemma PromiseOverrunIff(acts: seq<Action>, chunk: nat)
    requires chunk >= 1 && ErrorFree(Run(acts, TakeOnce))
    ensures var t := Run(acts, TakeOnce);
            CanPass(acts, chunk)
            <==> Unread(t) > QUOTA_SIZE + chunk - 1 || (Promise(t.s) > QUOTA_SIZE && Unread(t) < Promise(t.s))
  {
    var t := Run(acts, TakeOnce);
    RunSound(acts, TakeOnce);
    if Unread(t) > QUOTA_SIZE + chunk - 1 {
      assert acts + [] == acts;
      assert NoReads([]) && ShortWrites([], chunk) && Unread(Run(acts + [], TakeOnce)) > QUOTA_SIZE + chunk - 1;
    } else if Promise(t.s) > QUOTA_SIZE && Unread(t) < Promise(t.s) {
      PromiseCanPass(acts, chunk);
    } else if CanPass(acts, chunk) {
      var more :| NoReads(more) && ShortWrites(more, chunk)
                  && Unread(Run(acts + more, TakeOnce)) > QUOTA_SIZE + chunk - 1;
      PromiseHolds(acts, more, chunk);
    }
  }

  lemma PromiseCanPass(acts: seq<Action>, chunk: nat)
    requires chunk >= 1 && ErrorFree(Run(acts, TakeOnce))
    requires var t := Run(acts, TakeOnce); Promise(t.s) > QUOTA_SIZE && Unread(t) < Promise(t.s)
    ensures CanPass(acts, chunk)
  {
    RunSound(acts, TakeOnce);
    var more := FillUp(Run(acts, TakeOnce), chunk);
    StepsConcat(START, acts, more, TakeOnce);
    assert NoReads(more) && ShortWrites(more, chunk) && Unread(Run(acts + more, TakeOnce)) > QUOTA_SIZE + chunk - 1;
  }

  lemma PromiseHolds(acts: seq<Action>, more: seq<Action>, chunk: nat)
    requires chunk >= 1 && ErrorFree(Run(acts, TakeOnce)) && NoReads(more) && ShortWrites(more, chunk)
    requires var t := Run(acts, TakeOnce);
             Unread(t) <= QUOTA_SIZE + chunk - 1 && (Promise(t.s) <= QUOTA_SIZE || Unread(t) >= Promise(t.s))
    ensures Unread(Run(acts + more, TakeOnce)) <= QUOTA_SIZE + chunk - 1
  {
    var t := Run(acts, TakeOnce);
    RunSound(acts, TakeOnce);
    StepsConcat(START, acts, more, TakeOnce);
    if Promise(t.s) <= QUOTA_SIZE {
      StaysWithin(t, more, chunk, QUOTA_SIZE + chunk - 1);
    } else {
      NothingGoesOut(t, more);
    }
  }

  /** A writer without credit, and without a grant on its way, gets nothing out. */
  lemma {:induction false} NothingGoesOut(t: Traced, more: seq<Action>)
    requires Sound(t, TakeOnce) && NoReads(more) && Accepted(t) >= Promise(t.s)
    ensures Unread(Steps(t, more, TakeOnce)) <= Accepted(t)
    decreases |more|
  {
    if more != [] {
      assert !more[0].Read?;
      assert forall i :: 0 <= i < |more[1..]| ==> more[1..][i] == more[i + 1];
      NoCreditNoWrite(t, more[0]);
      SoundStep(t, more[0], TakeOnce);
      NothingGoesOut(Next(t, more[0], TakeOnce), more[1..]);
    }
  }

  lemma NoCreditNoWrite(t: Traced, a: Action)
    requires Sound(t, TakeOnce) && !a.Read? && Accepted(t) >= Promise(t.s)
    ensures var t' := Next(t, a, TakeOnce); Promise(t'.s) == Promise(t.s) && Accepted(t') == Accepted(t)
  {
    SumPositive(t.s.r.launched);
    SumPositive(t.s.r.credited);
    if a.Credit? && a.i < |t.s.r.launched| {
      SumWithout(t.s.r.launched, a.i);
    }
  }

  // ---- promises can grow without bound ----

  /** One-byte attempts, each delivered at once. */
  function Pump(n: nat): seq<Action> {
    if n == 0 then [] else [Write([0]), DeliverDown] + Pump(n - 1)
  }

  /** The session `t` with `n` more bytes in the buffer, and as much less credit at the writer. */
  ghost predicate Pumped(t: Traced, t': Traced, n: nat) {
    && Sound(t', TakeOnce) && ErrorFree(t') && t'.s.down == [] && t'.s.up == t.s.up
    && |t'.s.r.ch.buf| == |t.s.r.ch.buf| + n && t'.s.r == t.s.r.(ch := t.s.r.ch.(buf := t'.s.r.ch.buf))
    && AttemptCredit(t'.s.w) == AttemptCredit(t.s.w) - n
  }

  lemma PumpOnce(t: Traced)
    requires Sound(t, TakeOnce) && ErrorFree(t) && t.s.down == [] && AttemptCredit(t.s.w) >= 1
    ensures Pumped(t, Next(Next(t, Write([0]), TakeOnce), DeliverDown, TakeOnce), 1)
  {
    var t1 := Next(t, Write([0]), TakeOnce);
    SoundStep(t, Write([0]), TakeOnce);
    SoundStep(t1, DeliverDown, TakeOnce);
    assert t1.s.down == [Frame(CHUNK, [0])];
  }

  lemma PumpedOn(t: Traced, t1: Traced, t2: Traced, n: nat)
    requires Pumped(t, t1, 1) && Pumped(t1, t2, n)
    ensures Pumped(t, t2, n + 1)
  {
  }

  lemma StepsOfPump(t: Traced, n: nat)
    requires n > 0
    ensures Steps(t, Pump(n), TakeOnce)
            == Steps(Next(Next(t, Write([0]), TakeOnce), DeliverDown, TakeOnce), Pump(n - 1), TakeOnce)
  {
    assert Pump(n)[1..] == [DeliverDown] + Pump(n - 1) && Pump(n)[1..][1..] == Pump(n - 1);
    assert Steps(t, Pump(n), TakeOnce) == Steps(Next(t, Write([0]), TakeOnce), Pump(n)[1..], TakeOnce);
  }

  lemma {:induction false} PumpIsShort(n: nat)
    ensures ShortWrites(Pump(n), 1)
  {
    if n > 0 {
      PumpIsShort(n - 1);
    }
  }

  lemma {:induction false} PumpFills(t: Traced, n: nat)
    requires Sound(t, TakeOnce) && ErrorFree(t) && t.s.down == [] && AttemptCredit(t.s.w) >= n
    ensures Pumped(t, Steps(t, Pump(n), TakeOnce), n)
    decreases n
  {
    if n > 0 {
      PumpOnce(t);
      var t2 := Next(Next(t, Write([0]), TakeOnce), DeliverDown, TakeOnce);
      PumpFills(t2, n - 1);
      StepsOfPump(t, n);
      PumpedOn(t, t2, Steps(t2, Pump(n - 1), TakeOnce), n - 1);
    }
  }

  function Copies(n: nat): (s: seq<int>)
    ensures |s| == n && AllPositive(s)
  {
    if n == 0 then [] else Copies(n - 1) + [QUOTA_SIZE - 1]
  }

  /** Everything is read, the reader has its quota, and `n` grants are waiting. */
  ghost predicate Ready(t: Traced, n: nat) {
    && Sound(t, TakeOnce) && ErrorFree(t) && t.s.down == [] && t.s.up == []
    && t.s.r == Reader(QUOTA, QUOTA_SIZE, t.s.r.ch.(buf := []), Copies(n), [])
  }

  lemma ReadyHasCredit(t: Traced, n: nat)
    requires Ready(t, n)
    ensures AttemptCredit(t.s.w) == QUOTA_SIZE && Unread(t) == 0
  {
    assert |t.h.read + t.s.r.ch.buf + R.Data(t.s.down)| == |t.h.written|;
    CreditEquation(t);
  }

  /** A full buffer is read in two calls, which launches two grants: the second makes up for the whole quota. */
  function TwoReads(n: nat): seq<Action> {
    [Read(QUOTA_SIZE - 1), Read(1), Credit(n + 1), SendGrant(0), DeliverUp]
  }

  /** What the round does not touch. */
  ghost predicate Undisturbed(t: Traced, t': Traced) {
    ErrorFree(t') && t'.s.down == t.s.down
  }

  lemma ReadTwice(t: Traced, n: nat)
    requires ErrorFree(t) && |t.s.r.ch.buf| == QUOTA_SIZE && t.s.r == Reader(QUOTA, QUOTA_SIZE, t.s.r.ch, Copies(n), [])
    ensures var t' := Next(Next(t, Read(QUOTA_SIZE - 1), TakeOnce), Read(1), TakeOnce);
            && Undisturbed(t, t') && t'.s.up == t.s.up
            && t'.s.r == Reader(QUOTA, 0, t.s.r.ch.(buf := []), Copies(n + 1) + [QUOTA_SIZE], [])
  {
    var t1 := Next(t, Read(QUOTA_SIZE - 1), TakeOnce);
    assert t1.s.r == Reader(QUOTA, 1, t.s.r.ch.(buf := t.s.r.ch.buf[QUOTA_SIZE - 1..]), Copies(n + 1), []);
    assert |t1.s.r.ch.buf| == 1;
  }

  lemma CreditLast(t: Traced, n: nat)
    requires ErrorFree(t) && t.s.r == Reader(QUOTA, 0, t.s.r.ch, Copies(n) + [QUOTA_SIZE], [])
    ensures var t' := Next(t, Credit(n), TakeOnce);
            && Undisturbed(t, t') && t'.s.up == t.s.up
            && t'.s.r == Reader(QUOTA, QUOTA_SIZE, t.s.r.ch, Copies(n), [QUOTA_SIZE])
  {
    assert Without(Copies(n) + [QUOTA_SIZE], n) == Copies(n);
  }

  lemma PassOn(t: Traced, grants: seq<int>)
    requires ErrorFree(t) && t.s.up == [] && t.s.r == Reader(QUOTA, QUOTA_SIZE, t.s.r.ch, grants, [QUOTA_SIZE])
    ensures var t' := Next(Next(t, SendGrant(0), TakeOnce), DeliverUp, TakeOnce);
            && Undisturbed(t, t') && t'.s.up == [] && t'.s.r == t.s.r.(credited := [])
  {
    var t1 := Next(t, SendGrant(0), TakeOnce);
    assert |t1.s.up| == 1 && t1.s.up[0].flag == QUOTA && t1.s.up[1..] == [];
  }

  lemma TwoReadsReady(t: Traced, n: nat)
    requires Sound(t, TakeOnce) && ErrorFree(t) && t.s.down == [] && t.s.up == []
    requires |t.s.r.ch.buf| == QUOTA_SIZE && t.s.r == Reader(QUOTA, QUOTA_SIZE, t.s.r.ch, Copies(n), [])
    ensures Ready(Steps(t, TwoReads(n), TakeOnce), n + 1)
  {
    ReadTwice(t, n);
    var t2 := Next(Next(t, Read(QUOTA_SIZE - 1), TakeOnce), Read(1), TakeOnce);
    CreditLast(t2, n + 1);
    PassOn(Next(t2, Credit(n + 1), TakeOnce), Copies(n + 1));
    StepsOfFive(t, Read(QUOTA_SIZE - 1), Read(1), Credit(n + 1), SendGrant(0), DeliverUp);
    StepsSound(t, TwoReads(n), TakeOnce);
  }

  lemma StepsOfFive(t: Traced, a: Action, b: Action, c: Action, d: Action, e: Action)
    ensures Steps(t, [a, b, c, d, e], TakeOnce)
            == Next(Next(Next(Next(Next(t, a, TakeOnce), b, TakeOnce), c, TakeOnce), d, TakeOnce), e, TakeOnce)
  {
    var m, acts := TakeOnce, [a, b, c, d, e];
    assert acts[1..] == [b, c, d, e] && [b, c, d, e][1..] == [c, d, e];
    assert [c, d, e][1..] == [d, e] && [d, e][1..] == [e];
    assert [e][1..] == [];
    var t3 := Next(Next(Next(t, a, m), b, m), c, m);
    assert Steps(t3, [d, e], m) == Steps(Next(t3, d, m), [e], m) == Next(Next(t3, d, m), e, m);
    assert Steps(Next(Next(t, a, m), b, m), [c, d, e], m) == Steps(t3, [d, e], m);
    assert Steps(Next(t, a, m), [b, c, d, e], m) == Steps(Next(Next(t, a, m), b, m), [c, d, e], m);
  }

  lemma RoundPumps(t: Traced, n: nat) returns (pump: seq<Action>)
    requires Ready(t, n)
    ensures var t' := Steps(t, pump, TakeOnce);
            && Sound(t', TakeOnce) && ErrorFree(t') && t'.s.down == [] && t'.s.up == []
            && |t'.s.r.ch.buf| == QUOTA_SIZE && t'.s.r == Reader(QUOTA, QUOTA_SIZE, t'.s.r.ch, Copies(n), [])
    ensures ShortWrites(pump, 1)
  {
    ReadyHasCredit(t, n);
    PumpFills(t, QUOTA_SIZE);
    PumpIsShort(QUOTA_SIZE);
    pump := Pump(QUOTA_SIZE);
  }

  /** One round leaves one more grant waiting. */
  lemma Round(t: Traced, n: nat) returns (round: seq<Action>)
    requires Ready(t, n)
    ensures ShortWrites(round, 1) && Ready(Steps(t, round, TakeOnce), n + 1)
  {
    var pump := RoundPumps(t, n);
    TwoReadsReady(Steps(t, pump, TakeOnce), n);
    StepsConcat(t, pump, TwoReads(n), TakeOnce);
    round := pump + TwoReads(n);
  }

  lemma StartReady()
    ensures Ready(START, 0)
  {
    StartSound(TakeOnce);
  }

  lemma {:induction false} Rounds(n: nat) returns (acts: seq<Action>)
    ensures ShortWrites(acts, 1) && Ready(Run(acts, TakeOnce), n)
    decreases n
  {
    if n == 0 {
      StartReady();
      acts := [];
    } else {
      var before := Rounds(n - 1);
      var round := Round(Run(before, TakeOnce), n - 1);
      StepsConcat(START, before, round, TakeOnce);
      acts := before + round;
    }
  }

  /** With several grants pending no bound holds either, even with each grant taken once, however short the
      chunks. */
  lemma NoBufferBoundWithGrantsPending(chunk: nat, bound: nat)
    requires chunk >= 1
    ensures exists acts :: ShortWrites(acts, chunk) && Unread(Run(acts, TakeOnce)) > bound
  {
    var acts := Rounds(bound);
    var t := Run(acts, TakeOnce);
    ReadyHasCredit(t, bound);
    SumPositive(Copies(bound));
    var more := FillUp(t, chunk);
    StepsConcat(START, acts, more, TakeOnce);
    assert ShortWrites(acts + more, chunk) && Unread(Run(acts + more, TakeOnce)) > bound;
  }
}
