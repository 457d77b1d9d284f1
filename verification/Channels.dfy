/** Stream channels are numbered by each unit on its own: the requester takes the next number of its
    controller when it asks, the responder takes the next number of its own when it replies, and neither
    looks at the number the other one sent. Here is when the two agree. */
module Channels {
  import opened Numbers
  import opened Correlations
  import opened Wrappers
  import StreamObjects

  datatype Side = Left | Right

  function Other(x: Side): Side {
    if x == Left then Right else Left
  }

  /** `requested` and `answered` are the counts of numbers taken at the two ends when this session took its own. */
  datatype Session = Session(opener: Side, sent: bool, requested: nat, answered: Option<nat>)

  /** One unit: how many numbers it has taken, and the session it finds under each channel. */
  datatype Unit = Unit(taken: nat, route: map<nat, nat>)

  datatype State = State(left: Unit, right: Unit, sessions: seq<Session>)

  function At(st: State, x: Side): Unit {
    if x == Left then st.left else st.right
  }

  datatype Event =
    | Open(opener: Side, sent: bool)   // `newReader`/`newWriter`; `sent` is false when the request cannot be written
    | Reply(s: nat)                // `Reply` of either request context, also when it reports an error
    | LoseReply(s: nat)            // `Reply` whose response cannot be written: the new channel is deleted again
    | Reject(s: nat)               // `RequestContext.Reject`: no stream is created

  const FRESH := State(Unit(0, map[]), Unit(0, map[]), [])

  /** `createStream` for session `s`. */
  function Take(u: Unit, s: nat): Unit {
    Unit(u.taken + 1, u.route[Nth(u.taken + 1) := s])
  }

  function TakeAt(st: State, x: Side, s: nat): State {
    if x == Left then st.(left := Take(st.left, s)) else st.(right := Take(st.right, s))
  }

  /** `createStream` and `delete`: the number is used up. */
  function Waste(u: Unit): Unit {
    Unit(u.taken + 1, u.route - {Nth(u.taken + 1)})
  }

  function WasteAt(st: State, x: Side): State {
    if x == Left then st.(left := Waste(st.left)) else st.(right := Waste(st.right))
  }

  /** A session can be answered once, and only when its request arrived. */
  predicate Answerable(st: State, s: nat) {
    s < |st.sessions| && st.sessions[s].sent && st.sessions[s].answered == None
  }

  function Step(st: State, e: Event): State {
    match e
    case Open(opener, sent) =>
      TakeAt(st, opener, |st.sessions|)
        .(sessions := st.sessions + [Session(opener, sent, At(st, opener).taken + 1, None)])
    case Reply(s) =>
      if !Answerable(st, s) then st else
      var x := Other(st.sessions[s].opener);
      TakeAt(st, x, s).(sessions := st.sessions[s := st.sessions[s].(answered := Some(At(st, x).taken + 1))])
    case LoseReply(s) =>
      if !Answerable(st, s) then st else WasteAt(st, Other(st.sessions[s].opener))
    case Reject(s) =>
      if !Answerable(st, s) then st else st.(sessions := st.sessions[s := st.sessions[s].(sent := false)])
  }

  function Steps(st: State, es: seq<Event>): State
    decreases |es|
  {
    if es == [] then st else Steps(Step(st, es[0]), es[1..])
  }

  function Run(es: seq<Event>): State {
    Steps(FRESH, es)
  }

  /** The rank of a session among the numbers taken at `x`, if it took one there. */
  function Rank(n: Session, x: Side): Option<nat> {
    if n.opener == x then Some(n.requested) else n.answered
  }

  /** A routing table is exactly the ranks of the sessions at its unit. */
  ghost predicate RouteMatches(u: Unit, ss: seq<Session>, x: Side) {
    && (forall s :: 0 <= s < |ss| && Rank(ss[s], x).Some? ==>
          var k := Rank(ss[s], x).value;
          1 <= k <= u.taken && k in u.route && u.route[k] == s)
    && (forall c :: c in u.route ==>
          c <= u.taken && u.route[c] < |ss| && Rank(ss[u.route[c]], x) == Some(c))
  }

  ghost predicate Routing(st: State, x: Side) {
    RouteMatches(At(st, x), st.sessions, x)
  }

  /** Taking the next number for a session without one keeps the table exact while numbers do not repeat. */
  lemma TakeMatches(u: Unit, ss: seq<Session>, ss': seq<Session>, x: Side, s: nat)
    requires RouteMatches(u, ss, x) && u.taken + 1 < MODULUS
    requires s < |ss'| && Rank(ss'[s], x) == Some(u.taken + 1)
    requires s < |ss| ==> Rank(ss[s], x) == None
    requires |ss| <= |ss'| && forall j :: 0 <= j < |ss'| && j != s ==> j < |ss| && Rank(ss'[j], x) == Rank(ss[j], x)
    ensures RouteMatches(Take(u, s), ss', x)
  {
    NthSmall(u.taken + 1);
  }

  /** While numbers do not repeat, a wasted one was nobody's. */
  lemma WasteMatches(u: Unit, ss: seq<Session>, x: Side)
    requires RouteMatches(u, ss, x) && u.taken + 1 < MODULUS
    ensures RouteMatches(Waste(u), ss, x)
  {
    NthSmall(u.taken + 1);
  }

  lemma KeepMatches(u: Unit, ss: seq<Session>, ss': seq<Session>, x: Side)
    requires RouteMatches(u, ss, x) && |ss| <= |ss'|
    requires forall j :: 0 <= j < |ss'| ==> Rank(ss'[j], x) == if j < |ss| then Rank(ss[j], x) else None
    ensures RouteMatches(u, ss', x)
  {
  }

  lemma RoutingStep(st: State, e: Event, x: Side)
    requires Routing(st, x) && At(Step(st, e), x).taken < MODULUS
    ensures Routing(Step(st, e), x)
  {
    var u, ss, ss' := At(st, x), st.sessions, Step(st, e).sessions;
    match e
    case Open(opener, _) =>
      if opener == x {
        TakeMatches(u, ss, ss', x, |ss|);
      } else {
        KeepMatches(u, ss, ss', x);
      }
    case Reply(s) =>
      if Answerable(st, s) && Other(ss[s].opener) == x {
        TakeMatches(u, ss, ss', x, s);
      } else {
        KeepMatches(u, ss, ss', x);
      }
    case LoseReply(s) =>
      if Answerable(st, s) && Other(ss[s].opener) == x {
        WasteMatches(u, ss, x);
      }
    case Reject(_) =>
      KeepMatches(u, ss, ss', x);
  }

  lemma NthSmall(k: nat)
    requires k < MODULUS
    ensures Nth(k) == k
  {
  }

  lemma {:induction false} TakenGrows(st: State, es: seq<Event>, x: Side)
    ensures At(st, x).taken <= At(Steps(st, es), x).taken
    decreases |es|
  {
    if es != [] {
      TakenGrows(Step(st, es[0]), es[1..], x);
    }
  }

  lemma {:induction false} RoutingSteps(st: State, es: seq<Event>, x: Side)
    requires Routing(st, x) && At(Steps(st, es), x).taken < MODULUS
    ensures Routing(Steps(st, es), x)
    decreases |es|
  {
    if es != [] {
      TakenGrows(Step(st, es[0]), es[1..], x);
      RoutingStep(st, es[0], x);
      RoutingSteps(Step(st, es[0]), es[1..], x);
    }
  }

  /** A stream frame sent by the end of session `s` at `x` is looked up at the other unit under the number
      its sender took. */
  ghost predicate ReachesOwnEnd(st: State, s: nat, x: Side)
    requires s < |st.sessions| && Rank(st.sessions[s], x).Some?
  {
    var c, far := Nth(Rank(st.sessions[s], x).value), At(st, Other(x));
    c in far.route && far.route[c] == s
  }

  lemma ReachesIff(st: State, s: nat, x: Side)
    requires st.left.taken < MODULUS && st.right.taken < MODULUS
    requires Routing(st, Left) && Routing(st, Right)
    requires s < |st.sessions| && st.sessions[s].answered.Some?
    ensures ReachesOwnEnd(st, s, x) <==> st.sessions[s].requested == st.sessions[s].answered.value
  {
    var near, far := Rank(st.sessions[s], x).value, Rank(st.sessions[s], Other(x)).value;
    NthSmall(near);
  }

  /** For every interleaving of openings and answers by both units: an answered session has the same channel
      at both ends, and the frames of either end reach the other end of the same session, exactly when the
      answering unit had taken as many numbers on answering as the opening unit had on opening. */
  lemma ReachesOwnEndIff(es: seq<Event>, s: nat)
    requires var st := Run(es);
             && st.left.taken < MODULUS && st.right.taken < MODULUS
             && s < |st.sessions| && st.sessions[s].answered.Some?
    ensures var st := Run(es);
            var n := st.sessions[s];
            && (Nth(n.requested) == Nth(n.answered.value) <==> n.requested == n.answered.value)
            && (ReachesOwnEnd(st, s, n.opener) <==> n.requested == n.answered.value)
            && (ReachesOwnEnd(st, s, Other(n.opener)) <==> n.requested == n.answered.value)
  {
    var st := Run(es);
    RoutingSteps(FRESH, es, Left);
    RoutingSteps(FRESH, es, Right);
    ReachesIff(st, s, Left);
    ReachesIff(st, s, Right);
    var n := st.sessions[s];
    assert Rank(n, n.opener) == Some(n.requested) && Rank(n, Other(n.opener)) == n.answered;
    NthSmall(n.requested);
    NthSmall(n.answered.value);
  }

  // ---- one session at a time ----

  datatype Outcome = Replied | Lost | Refused | Unsent

  /** Both units have taken a number. */
  predicate TookBoth(out: Outcome) {
    out == Replied || out == Lost
  }

  /** One session from opening to answer, with nothing in between. */
  datatype Opening = Opening(opener: Side, out: Outcome)

  /** How session `k` is answered. */
  function AnswerAs(out: Outcome, k: nat): seq<Event> {
    match out
    case Replied => [Reply(k)]
    case Lost => [LoseReply(k)]
    case Refused => [Reject(k)]
    case Unsent => []
  }

  function Events(os: seq<Opening>): seq<Event> {
    if os == [] then [] else
    var k := |os| - 1;
    Events(os[..k]) + [Open(os[k].opener, os[k].out != Unsent)] + AnswerAs(os[k].out, k)
  }

  /** Sessions of `x` for which only `x` took a number. */
  function OneSided(os: seq<Opening>, x: Side): nat {
    if os == [] then 0 else
    var k := |os| - 1;
    OneSided(os[..k], x) + (if os[k].opener == x && !TookBoth(os[k].out) then 1 else 0)
  }

  function Both(os: seq<Opening>): nat {
    if os == [] then 0 else Both(os[..|os| - 1]) + (if TookBoth(os[|os| - 1].out) then 1 else 0)
  }

  lemma {:induction false} StepsConcat(st: State, es: seq<Event>, more: seq<Event>)
    ensures Steps(st, es + more) == Steps(Steps(st, es), more)
    decreases |es|
  {
    if es == [] {
      assert [] + more == more;
    } else {
      StepsConcat(Step(st, es[0]), es[1..], more);
      assert (es + more)[1..] == es[1..] + more;
    }
  }

  /** The `k`-th of a series of sequential sessions takes the next number at each unit that counts it. */
  ghost predicate Fits(n: Session, os: seq<Opening>, k: nat)
    requires k < |os|
  {
    var before := os[..k];
    && n.opener == os[k].opener
    && n.requested == Both(before) + OneSided(before, n.opener) + 1
    && n.answered == if os[k].out == Replied then Some(Both(before) + OneSided(before, Other(n.opener)) + 1) else None
  }

  /** What sequential sessions leave behind. */
  ghost predicate Sequential(st: State, os: seq<Opening>) {
    && st.left.taken == Both(os) + OneSided(os, Left)
    && st.right.taken == Both(os) + OneSided(os, Right)
    && |st.sessions| == |os|
    && (forall k :: 0 <= k < |os| ==> Fits(st.sessions[k], os, k))
  }

  lemma {:induction false} SequentialRun(os: seq<Opening>)
    ensures Sequential(Run(Events(os)), os)
  {
    if os != [] {
      var k := |os| - 1;
      SequentialRun(os[..k]);
      SequentialStep(Run(Events(os[..k])), os);
      var open, answer := [Open(os[k].opener, os[k].out != Unsent)], AnswerAs(os[k].out, k);
      StepsConcat(FRESH, Events(os[..k]) + open, answer);
      StepsConcat(FRESH, Events(os[..k]), open);
      assert open[1..] == [];
    }
  }

  /** One more sequential session, in one step. */
  ghost function Opened(st: State, o: Opening): State {
    var n := Session(o.opener, TookBoth(o.out), At(st, o.opener).taken + 1,
                     if o.out == Replied then Some(At(st, Other(o.opener)).taken + 1) else None);
    var s := |st.sessions|;
    var near := TakeAt(st, o.opener, s);
    (match o.out
     case Replied => TakeAt(near, Other(o.opener), s)
     case Lost => WasteAt(near, Other(o.opener))
     case _ => near).(sessions := st.sessions + [n])
  }

  lemma OpenedIsRun(st: State, o: Opening)
    ensures Steps(Step(st, Open(o.opener, o.out != Unsent)), AnswerAs(o.out, |st.sessions|)) == Opened(st, o)
  {
    var asked, answer := Step(st, Open(o.opener, o.out != Unsent)), AnswerAs(o.out, |st.sessions|);
    if o.out != Unsent {
      assert answer[1..] == [];
      assert Steps(asked, answer) == Step(asked, answer[0]);
    }
    assert Steps(asked, answer).sessions == Opened(st, o).sessions;
  }

  lemma SequentialStep(st: State, os: seq<Opening>)
    requires os != [] && Sequential(st, os[..|os| - 1])
    ensures var o := os[|os| - 1];
            Sequential(Steps(Step(st, Open(o.opener, o.out != Unsent)), AnswerAs(o.out, |os| - 1)), os)
  {
    var k := |os| - 1;
    var before, o := os[..k], os[k];
    OpenedIsRun(st, o);
    SequentialCounts(before, o, os);
    OpenedFits(st, os);
    forall j | 0 <= j < k ensures Fits(Opened(st, o).sessions[j], os, j) {
      FitsStays(st.sessions[j], before, os, j);
    }
  }

  lemma FitsStays(n: Session, before: seq<Opening>, os: seq<Opening>, j: nat)
    requires before <= os && j < |before| && Fits(n, before, j)
    ensures Fits(n, os, j)
  {
    assert before[..j] == os[..j];
  }

  lemma OpenedFits(st: State, os: seq<Opening>)
    requires os != [] && Sequential(st, os[..|os| - 1])
    ensures var k := |os| - 1; Fits(Opened(st, os[k]).sessions[k], os, k)
  {
  }

  lemma SequentialCounts(before: seq<Opening>, o: Opening, os: seq<Opening>)
    requires os == before + [o]
    ensures Both(os) == Both(before) + (if TookBoth(o.out) then 1 else 0)
    ensures forall x :: OneSided(os, x) == OneSided(before, x) + (if o.opener == x && !TookBoth(o.out) then 1 else 0)
  {
    assert os[..|os| - 1] == before;
  }

  /** One session at a time: an answered session agrees on its channel exactly when, before it, the sessions
      for which only the left unit took a number balance those for which only the right unit did. */
  lemma SequentialAgreement(os: seq<Opening>, k: nat)
    requires k < |os| && os[k].out == Replied
    ensures k < |Run(Events(os)).sessions|
    ensures var n := Run(Events(os)).sessions[k];
            && n.answered.Some?
            && (Nth(n.requested) == Nth(n.answered.value)
                <==> (OneSided(os[..k], Left) - OneSided(os[..k], Right)) % MODULUS == 0)
  {
    SequentialRun(os);
    var n := Run(Events(os)).sessions[k];
    CongruentIff(n.requested, n.answered.value);
  }

  lemma {:induction false} NothingOneSided(os: seq<Opening>, x: Side)
    requires forall k :: 0 <= k < |os| ==> TookBoth(os[k].out)
    ensures OneSided(os, x) == 0 && Both(os) == |os|
  {
    if os != [] {
      NothingOneSided(os[..|os| - 1], x);
    }
  }

  /** Lock step: when every session is answered with `Reply` before the next one is opened, by whichever unit, even
      if some of these replies cannot be written, both units number the sessions alike, and every frame of either end
      reaches the other end. */
  lemma LockStep(os: seq<Opening>, k: nat)
    requires forall j :: 0 <= j < |os| ==> TookBoth(os[j].out)
    requires k < |os| < MODULUS && os[k].out == Replied
    ensures k < |Run(Events(os)).sessions|
    ensures var st := Run(Events(os));
            var n := st.sessions[k];
            && n.requested == k + 1 && n.answered == Some(k + 1)
            && ReachesOwnEnd(st, k, Left) && ReachesOwnEnd(st, k, Right)
  {
    SequentialRun(os);
    NothingOneSided(os, Left);
    NothingOneSided(os, Right);
    NothingOneSided(os[..k], Left);
    NothingOneSided(os[..k], Right);
    ReachesOwnEndIff(Events(os), k);
  }

  /** Two openings that cross on the wire: each unit answers the other, and the channels are swapped, so the
      frames of one session are filed under the other. */
  lemma CrossedOpenings()
    ensures var st := Run([Open(Left, true), Open(Right, true), Reply(1), Reply(0)]);
            && st.sessions == [Session(Left, true, 1, Some(2)), Session(Right, true, 1, Some(2))]
            && st.right.route[Nth(st.sessions[0].requested)] == 1
            && st.left.route[Nth(st.sessions[1].requested)] == 0
  {
    var es := [Open(Left, true), Open(Right, true), Reply(1), Reply(0)];
    var s1 := Step(FRESH, es[0]);
    var s2 := Step(s1, es[1]);
    var s3 := Step(s2, es[2]);
    assert es[1..] == [es[1], es[2], es[3]] && es[1..][1..] == [es[2], es[3]];
    assert es[1..][1..][1..] == [es[3]] && [es[3]][1..] == [];
    assert Steps(s2, [es[2], es[3]]) == Steps(s3, [es[3]]) == Step(s3, es[3]);
    assert Run(es) == Steps(s1, es[1..]) == Steps(s2, es[1..][1..]);
  }

  // ---- the controllers themselves ----

  /** A session requested at one controller and answered at the other. */
  method Establish(requester: StreamObjects.StreamController, responder: StreamObjects.StreamController)
    returns (requested: nat, answered: nat)
    requires requester != responder && requester.ch != responder.ch
    requires requester.ch.Valid() && responder.ch.Valid()
    modifies requester, responder, requester.ch, responder.ch
    ensures requester.ch.Valid() && responder.ch.Valid()
    ensures requester.ch.produced == old(requester.ch.produced) + 1
    ensures responder.ch.produced == old(responder.ch.produced) + 1
    ensures requested in requester.m && answered in responder.m
    ensures requested == answered
            <==> (old(requester.ch.produced) - old(responder.ch.produced)) % MODULUS == 0
  {
    var near, far;
    requested, near := requester.CreateStream();
    answered, far := responder.CreateStream();
    CongruentIff(requester.ch.produced, responder.ch.produced);
  }
}
