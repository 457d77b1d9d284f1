/** The life of outgoing requests: numbers, waiters, timers, replies and the closing of the unit, in any
    interleaving. A request is known by its rank, the count of numbers taken when it took its own. */
module CallbackModel {
  import opened Numbers
  import opened Correlations
  import opened Orders

  datatype Callback = FromReply | FromTimer | FromClose

  /** `early`: the timer fired before the waiter was registered. `late`: it fired afterwards. */
  datatype Request =
    Request(ignUnitClose: bool, registered: bool, early: bool, late: bool, stopped: bool, got: seq<Callback>)

  /** `m`: the waiter map, from correlation to the rank of the request waiting under it. */
  datatype State = State(taken: nat, reqs: map<nat, Request>, m: map<nat, nat>)

  datatype Event =
    | Begin(ignUnitClose: bool)      // `prepare` up to the start of the timer
    | Register(k: nat)               // `prepare` after that
    | Fire(k: nat)                   // the timer of a request runs out
    | Answer(k: nat)                 // a response, or a failed write, carrying the number of request `k`
    | Shut(order: seq<nat>)          // `onClose`, visiting the map in this order

  const FRESH := State(0, map[], map[])

  /** The locked part of `respond`: send, close, stop the timer, delete. */
  function Respond(st: State, corr: nat, cb: Callback): State
  {
    if corr !in st.m || st.m[corr] !in st.reqs then st else
    var k := st.m[corr];
    var r := st.reqs[k];
    st.(reqs := st.reqs[k := r.(got := r.got + [cb], stopped := true)], m := st.m - {corr})
  }

  /** `onClose`: it stops at the first waiter that ignores the closing. */
  function ShutAll(st: State, order: seq<nat>): State
    decreases |order|
  {
    if order == [] then st
    else if order[0] !in st.m || st.m[order[0]] !in st.reqs then ShutAll(st, order[1..])
    else if st.reqs[st.m[order[0]]].ignUnitClose then st
    else ShutAll(Respond(st, order[0], FromClose), order[1..])
  }

  lemma ShutStops(st: State, order: seq<nat>)
    requires order != [] && order[0] in st.m && st.m[order[0]] in st.reqs && st.reqs[st.m[order[0]]].ignUnitClose
    ensures ShutAll(st, order) == st
  {
  }

  /** Which events can happen. `stopped` only says that `Stop` was called: the timer's function may have started
      before and be waiting for the lock, so it can still run, though not 2^53 requests later. */
  ghost predicate Enabled(st: State, e: Event) {
    match e
    case Begin(_) => true
    case Register(k) => k in st.reqs && !st.reqs[k].registered
    case Fire(k) =>
      && k in st.reqs && !st.reqs[k].early && !st.reqs[k].late
      && (st.reqs[k].stopped ==> st.taken - k < MODULUS)
    case Answer(k) => k in st.reqs
    case Shut(order) => Enumerates(order, st.m.Keys)
  }

  function Step(st: State, e: Event): State {
    match e
    case Begin(ign) =>
      State(st.taken + 1, st.reqs[st.taken + 1 := Request(ign, false, false, false, false, [])], st.m)
    case Register(k) =>
      if k !in st.reqs then st else
      st.(reqs := st.reqs[k := st.reqs[k].(registered := true)], m := st.m[Nth(k) := k])
    case Fire(k) =>
      if k !in st.reqs then st else
      var r := st.reqs[k];
      var fired := if r.registered then r.(late := true) else r.(early := true);
      Respond(st.(reqs := st.reqs[k := fired]), Nth(k), FromTimer)
    case Answer(k) => Respond(st, Nth(k), FromReply)
    case Shut(order) => ShutAll(st, order)
  }

  /** Unfinished requests are fewer than 2^53 takes old. */
  ghost predicate InWindow(st: State) {
    forall k :: k in st.reqs && st.reqs[k].got == [] ==> st.taken - k < MODULUS
  }

  /** A waiter is registered, unanswered, under its own number, with a running timer or one that fired too
      early; and every registered unanswered request has its waiter. */
  ghost predicate Sound(st: State) {
    && (forall k :: k in st.reqs ==> 1 <= k <= st.taken)
    && (forall c :: c in st.m ==>
          st.m[c] in st.reqs && Nth(st.m[c]) == c
          && var r := st.reqs[st.m[c]]; r.registered && r.got == [] && !r.stopped && !r.late)
    && (forall k :: k in st.reqs ==>
          var r := st.reqs[k];
          && |r.got| <= 1
          && (r.registered && r.got == [] ==> Nth(k) in st.m && st.m[Nth(k)] == k)
          && (!r.registered ==> r.got == [] && !r.late && !r.stopped)
          && (r.late ==> r.got != []) && (r.got != [] ==> r.stopped))
  }

  lemma DistinctInWindow(st: State, j: nat, k: nat)
    requires j in st.reqs && k in st.reqs && 1 <= j <= st.taken && 1 <= k <= st.taken && j != k
    requires st.taken - j < MODULUS && st.taken - k < MODULUS
    ensures Nth(j) != Nth(k)
  {
    NthInjective(if j < k then j else k, if j < k then k else j);
  }

  lemma SoundRespond(st: State, corr: nat, cb: Callback)
    requires Sound(st) && InWindow(st)
    ensures Sound(Respond(st, corr, cb)) && InWindow(Respond(st, corr, cb))
    ensures Respond(st, corr, cb).taken == st.taken && Respond(st, corr, cb).reqs.Keys == st.reqs.Keys
    ensures forall k :: k in st.reqs ==> st.reqs[k].got <= Respond(st, corr, cb).reqs[k].got
    ensures forall k :: k in st.reqs && !(corr in st.m && st.m[corr] == k) ==>
              Respond(st, corr, cb).reqs[k] == st.reqs[k]
  {
  }

  lemma {:induction false} SoundShutAll(st: State, order: seq<nat>)
    requires Sound(st) && InWindow(st)
    ensures Sound(ShutAll(st, order)) && InWindow(ShutAll(st, order))
    decreases |order|
  {
    if order != [] && order[0] in st.m {
      SoundRespond(st, order[0], FromClose);
      if !st.reqs[st.m[order[0]]].ignUnitClose {
        SoundShutAll(Respond(st, order[0], FromClose), order[1..]);
      }
    } else if order != [] {
      SoundShutAll(st, order[1..]);
    }
  }

  lemma SoundStep(st: State, e: Event)
    requires Sound(st) && InWindow(st) && Enabled(st, e)
    ensures InWindow(Step(st, e)) ==> Sound(Step(st, e))
  {
    match e
    case Begin(_) =>
    case Register(k) =>
      forall j | j in st.reqs && j != k && st.reqs[j].got == [] ensures Nth(j) != Nth(k) {
        DistinctInWindow(st, j, k);
      }
    case Fire(k) => SoundFire(st, k);
    case Answer(k) => SoundRespond(st, Nth(k), FromReply);
    case Shut(order) => SoundShutAll(st, order);
  }

  lemma SoundFire(st: State, k: nat)
    requires Sound(st) && InWindow(st) && Enabled(st, Fire(k))
    ensures Sound(Step(st, Fire(k)))
  {
    var r := st.reqs[k];
    if r.registered && r.got == [] {
      assert st.m[Nth(k)] == k;
    } else if Nth(k) in st.m {
      DistinctInWindow(st, st.m[Nth(k)], k);
    }
  }

  // ---- runs ----

  function Steps(st: State, es: seq<Event>): State
    decreases |es|
  {
    if es == [] then st else Steps(Step(st, es[0]), es[1..])
  }

  /** Every event is enabled when it happens, and no request stays unfinished for 2^53 further ones. */
  ghost predicate Legal(st: State, es: seq<Event>)
    decreases |es|
  {
    es != [] ==> Enabled(st, es[0]) && InWindow(Step(st, es[0])) && Legal(Step(st, es[0]), es[1..])
  }

  lemma {:induction false} SoundSteps(st: State, es: seq<Event>)
    requires Sound(st) && InWindow(st) && Legal(st, es)
    ensures Sound(Steps(st, es)) && InWindow(Steps(st, es))
    decreases |es|
  {
    if es != [] {
      SoundStep(st, es[0]);
      SoundSteps(Step(st, es[0]), es[1..]);
    }
  }

  /** Exactly-once completion, for every interleaving: at most one callback per request, exactly one once its
      timer has fired after registration; a request in the waiter map has none yet, and a registered request
      that has none is in the map, where its timer can still end it exactly when it did not fire too early. */
  lemma ExactlyOnce(es: seq<Event>, k: nat)
    requires Legal(FRESH, es) && k in Steps(FRESH, es).reqs
    ensures var st := Steps(FRESH, es);
            var r := st.reqs[k];
            && |r.got| <= 1
            && (r.late ==> |r.got| == 1)
            && (r.registered ==> (r.got == [] <==> Nth(k) in st.m && st.m[Nth(k)] == k))
            && (r.registered && r.got == [] ==> (Enabled(st, Fire(k)) <==> !r.early))
  {
    SoundSteps(FRESH, es);
  }

  /** A callback, once received, is never replaced. */
  lemma CallbackIsFinal(es: seq<Event>, e: Event, k: nat)
    requires Legal(FRESH, es) && k in Steps(FRESH, es).reqs
    requires Enabled(Steps(FRESH, es), e) && InWindow(Step(Steps(FRESH, es), e))
    requires Steps(FRESH, es).reqs[k].got != []
    ensures k in Step(Steps(FRESH, es), e).reqs
    ensures Step(Steps(FRESH, es), e).reqs[k].got == Steps(FRESH, es).reqs[k].got
  {
    SoundSteps(FRESH, es);
    KeepsCallback(Steps(FRESH, es), e, k);
  }

  lemma KeepsCallback(st: State, e: Event, k: nat)
    requires Sound(st) && InWindow(st) && k in st.reqs && st.reqs[k].got != [] && Enabled(st, e)
    ensures k in Step(st, e).reqs && Step(st, e).reqs[k].got == st.reqs[k].got
  {
    match e
    case Shut(order) => ShutKeeps(st, order, k);
    case _ =>
  }

  lemma {:induction false} ShutKeeps(st: State, order: seq<nat>, k: nat)
    requires Sound(st) && InWindow(st) && k in st.reqs && (st.reqs[k].got != [] || st.reqs[k].ignUnitClose)
    ensures k in ShutAll(st, order).reqs && ShutAll(st, order).reqs[k] == st.reqs[k]
    decreases |order|
  {
    if order != [] && order[0] in st.m {
      SoundRespond(st, order[0], FromClose);
      if !st.reqs[st.m[order[0]]].ignUnitClose {
        ShutKeeps(Respond(st, order[0], FromClose), order[1..], k);
      }
    } else if order != [] {
      ShutKeeps(st, order[1..], k);
    }
  }

  /** A timer that fires between the start of the timer and the registration is lost: the request is left
      waiting with no timer that could still end it. */
  lemma EarlyTimerIsLost()
    ensures var es := [Begin(false), Fire(1), Register(1)];
            && Legal(FRESH, es)
            && 1 in Steps(FRESH, es).reqs
            && Steps(FRESH, es).reqs[1] == Request(false, true, true, false, false, [])
            && !Enabled(Steps(FRESH, es), Fire(1))
  {
    var es := [Begin(false), Fire(1), Register(1)];
    assert es[1..] == [Fire(1), Register(1)] && es[1..][1..] == [Register(1)] && [Register(1)][1..] == [];
    var s1 := Step(FRESH, es[0]);
    var s2 := Step(s1, Fire(1));
    assert Steps(s2, [Register(1)]) == Step(s2, Register(1));
    assert Legal(s2, [Register(1)]);
    assert Legal(s1, es[1..]) && Steps(s1, es[1..]) == Steps(s2, es[1..][1..]);
  }

  // ---- which request a response reaches ----

  lemma RespondReaches(st: State, corr: nat, j: nat)
    requires Sound(st) && InWindow(st) && j in st.reqs
    ensures var after := Respond(st, corr, FromReply).reqs[j];
            && (after != st.reqs[j] <==> st.reqs[j].registered && st.reqs[j].got == [] && Nth(j) == corr)
            && (after != st.reqs[j] ==> after.got == [FromReply])
  {
    if corr in st.m && st.m[corr] == j {
      assert st.reqs[j].got + [FromReply] == [FromReply];
    }
  }

  /** A response completes the waiting request whose number is congruent to the one it carries, and nothing else. */
  lemma ResponseReaches(st: State, k: nat, j: nat)
    requires Sound(st) && InWindow(st) && k in st.reqs && j in st.reqs
    ensures Step(st, Answer(k)).reqs[j] != st.reqs[j]
            <==> st.reqs[j].registered && st.reqs[j].got == [] && (j - k) % MODULUS == 0
    ensures Step(st, Answer(k)).reqs[j] != st.reqs[j] ==> Step(st, Answer(k)).reqs[j].got == [FromReply]
  {
    CongruentIff(j, k);
    RespondReaches(st, Nth(k), j);
  }

  /** No misdelivery: a response to one of the last 2^53 - 1 requests completes that very request or nothing. */
  lemma NoMisdelivery(es: seq<Event>, k: nat, j: nat)
    requires Legal(FRESH, es)
    requires var st := Steps(FRESH, es); k in st.reqs && j in st.reqs && st.taken - k < MODULUS && j != k
    ensures Step(Steps(FRESH, es), Answer(k)).reqs[j] == Steps(FRESH, es).reqs[j]
  {
    var st := Steps(FRESH, es);
    SoundSteps(FRESH, es);
    ResponseReaches(st, k, j);
    if st.reqs[j].got == [] {
      DistinctInWindow(st, j, k);
      CongruentIff(j, k);
    }
  }

  /** Registration never overwrites a waiter. */
  lemma RegistrationIsFree(es: seq<Event>, k: nat)
    requires Legal(FRESH, es) && Enabled(Steps(FRESH, es), Register(k))
    ensures Nth(k) !in Steps(FRESH, es).m
  {
    SoundSteps(FRESH, es);
    RegistrationFree(Steps(FRESH, es), k);
  }

  lemma RegistrationFree(st: State, k: nat)
    requires Sound(st) && InWindow(st) && Enabled(st, Register(k))
    ensures Nth(k) !in st.m
  {
    if Nth(k) in st.m {
      DistinctInWindow(st, st.m[Nth(k)], k);
    }
  }

  // ---- closing the unit ----

  /** A waiter that closing the unit is meant to complete. */
  predicate Interrupted(st: State, c: nat) {
    c in st.m && st.m[c] in st.reqs && !st.reqs[st.m[c]].ignUnitClose
  }

  predicate Ignoring(st: State, c: nat) {
    c in st.m && st.m[c] in st.reqs && st.reqs[st.m[c]].ignUnitClose
  }

  /** Requests that ignore the closing are never completed by it. */
  lemma ShutSparesIgnoring(es: seq<Event>, order: seq<nat>, k: nat)
    requires Legal(FRESH, es) && k in Steps(FRESH, es).reqs && Steps(FRESH, es).reqs[k].ignUnitClose
    ensures var st := Steps(FRESH, es);
            k in ShutAll(st, order).reqs && ShutAll(st, order).reqs[k] == st.reqs[k]
  {
    SoundSteps(FRESH, es);
    ShutKeeps(Steps(FRESH, es), order, k);
  }

  /** The visit gets to `c`: no ignoring waiter comes at or before one of its places in the order. */
  predicate Passed(st: State, order: seq<nat>, c: nat) {
    exists i :: 0 <= i < |order| && order[i] == c && forall j :: 0 <= j <= i ==> !Ignoring(st, order[j])
  }

  lemma PassedRest(st: State, st1: State, order: seq<nat>, c: nat)
    requires order != [] && !Ignoring(st, order[0])
    requires forall j :: 0 <= j < |order| ==> (Ignoring(st1, order[j]) <==> Ignoring(st, order[j]))
    ensures Passed(st, order, c) <==> c == order[0] || Passed(st1, order[1..], c)
  {
    var rest := order[1..];
    if Passed(st, order, c) && c != order[0] {
      var i :| 0 <= i < |order| && order[i] == c && forall j :: 0 <= j <= i ==> !Ignoring(st, order[j]);
      assert rest[i - 1] == c && forall j :: 0 <= j <= i - 1 ==> rest[j] == order[j + 1];
    }
    if Passed(st1, rest, c) {
      var i :| 0 <= i < |rest| && rest[i] == c && forall j :: 0 <= j <= i ==> !Ignoring(st1, rest[j]);
      assert order[i + 1] == c && forall j :: 0 < j <= i + 1 ==> order[j] == rest[j - 1];
    }
  }

  /** What is left of one waiter after the visit, said without the loop. */
  ghost predicate ShutFate(st: State, after: State, order: seq<nat>, c: nat)
    requires c in st.m && st.m[c] in st.reqs
  {
    var k := st.m[c];
    && k in after.reqs
    && (if Passed(st, order, c) then c !in after.m && after.reqs[k].got == [FromClose]
        else c in after.m && after.m[c] == k && after.reqs[k] == st.reqs[k])
  }

  /** Closing a unit, with waiters of both kinds and in any order: the waiters it gets to before the first ignoring
      one get the closing error and leave the map; everything else stays as it is. */
  lemma {:induction false} ShutIs(st: State, order: seq<nat>)
    requires Sound(st) && InWindow(st)
    ensures var after := ShutAll(st, order);
            && (forall c :: c in st.m ==> ShutFate(st, after, order, c))
            && after.m.Keys <= st.m.Keys && after.taken == st.taken && after.reqs.Keys == st.reqs.Keys
            && (forall k :: k in st.reqs && !(Nth(k) in st.m && st.m[Nth(k)] == k) ==> after.reqs[k] == st.reqs[k])
    decreases |order|, 1
  {
    if order == [] || Ignoring(st, order[0]) {
      assert forall c :: !Passed(st, order, c);
    } else if order[0] !in st.m {
      ShutIs(st, order[1..]);
      forall c | c in st.m ensures Passed(st, order, c) <==> Passed(st, order[1..], c) {
        PassedRest(st, st, order, c);
      }
    } else {
      ShutIsFirst(st, order);
    }
  }

  lemma {:induction false} ShutIsFirst(st: State, order: seq<nat>)
    requires Sound(st) && InWindow(st) && order != [] && Interrupted(st, order[0])
    ensures var after := ShutAll(st, order);
            && (forall c :: c in st.m ==> ShutFate(st, after, order, c))
            && after.m.Keys <= st.m.Keys && after.taken == st.taken && after.reqs.Keys == st.reqs.Keys
            && (forall k :: k in st.reqs && !(Nth(k) in st.m && st.m[Nth(k)] == k) ==> after.reqs[k] == st.reqs[k])
    decreases |order|, 0
  {
    var c0, rest := order[0], order[1..];
    var st1 := Respond(st, c0, FromClose);
    SoundRespond(st, c0, FromClose);
    ShutIs(st1, rest);
    forall c | c in st.m ensures ShutFate(st, ShutAll(st, order), order, c) {
      PassedRest(st, st1, order, c);
      if c == c0 {
        ShutKeeps(st1, rest, st.m[c0]);
      } else {
        assert ShutFate(st1, ShutAll(st1, rest), rest, c);
      }
    }
  }

  /** A request that is registered and has no callback yet. */
  predicate Waits(st: State, j: nat)
    requires j in st.reqs
  {
    st.reqs[j].registered && st.reqs[j].got == []
  }

  /** What an event adds to what a request has received. */
  function Gains(st: State, e: Event, j: nat): seq<Callback>
    requires j in st.reqs
  {
    if !Waits(st, j) then [] else
    match e
    case Fire(k) => if j == k then [FromTimer] else []
    case Answer(k) => if (j - k) % MODULUS == 0 then [FromReply] else []
    case Shut(order) => if Passed(st, order, Nth(j)) then [FromClose] else []
    case _ => []
  }

  /** Every event and every request: which callback it receives, if any. */
  lemma GainsStep(st: State, e: Event, j: nat)
    requires Sound(st) && InWindow(st) && Enabled(st, e) && j in st.reqs
    ensures var after := Step(st, e);
            && j in after.reqs && after.reqs[j].got == st.reqs[j].got + Gains(st, e, j)
            && after.reqs[j].registered == (st.reqs[j].registered || e == Register(j))
            && after.reqs[j].ignUnitClose == st.reqs[j].ignUnitClose
  {
    match e
    case Fire(k) =>
      if k != j && Waits(st, j) && Nth(j) == Nth(k) {
        DistinctInWindow(st, j, k);
      }
    case Answer(k) => CongruentIff(j, k);
    case Shut(order) =>
      ShutIs(st, order);
      if Waits(st, j) {
        assert ShutFate(st, ShutAll(st, order), order, Nth(j));
      } else {
        assert !(Nth(j) in st.m && st.m[Nth(j)] == j);
      }
      ShutKeepsFlags(st, order, j);
    case _ =>
  }

  lemma {:induction false} ShutKeepsFlags(st: State, order: seq<nat>, j: nat)
    requires j in st.reqs
    ensures var after := ShutAll(st, order).reqs;
            && j in after && after[j].registered == st.reqs[j].registered
            && after[j].ignUnitClose == st.reqs[j].ignUnitClose
    decreases |order|
  {
    if order != [] && order[0] in st.m && st.m[order[0]] in st.reqs {
      if !st.reqs[st.m[order[0]]].ignUnitClose {
        ShutKeepsFlags(Respond(st, order[0], FromClose), order[1..], j);
      }
    } else if order != [] {
      ShutKeepsFlags(st, order[1..], j);
    }
  }

  /** Without an ignoring waiter everything visited is completed with the closing error. */
  lemma ShutCompletes(st: State, order: seq<nat>)
    requires Sound(st) && InWindow(st)
    requires forall c :: c in st.m ==> !Ignoring(st, c)
    ensures var st' := ShutAll(st, order);
            && (forall c :: c in st'.m <==> c in st.m && c !in order)
            && (forall c :: c in st.m && c in order ==> st.m[c] in st'.reqs && st'.reqs[st.m[c]].got == [FromClose])
            && (forall c :: c in st'.m ==> st'.m[c] == st.m[c])
  {
    ShutIs(st, order);
    forall c | c in st.m
      ensures ShutFate(st, ShutAll(st, order), order, c) && (Passed(st, order, c) <==> c in order)
    {
      if c in order {
        var i :| 0 <= i < |order| && order[i] == c;
      }
    }
  }

  /** One waiter of each kind: an order that starts with the ignoring one leaves everything as it is. */
  lemma ShutLeavesBehind(st: State, c: nat, d: nat) returns (order: seq<nat>)
    requires Ignoring(st, c) && Interrupted(st, d)
    ensures Enumerates(order, st.m.Keys) && ShutAll(st, order) == st
  {
    order := OrderStartingWith(c, st.m.Keys);
  }

  /** Whatever the visiting order, closing completes every waiter it should exactly when the waiters are all
      of one kind: none ignores the closing, or all do. One of each, and some order leaves a waiter behind. */
  lemma ShutCompletesIff(st: State)
    requires Sound(st) && InWindow(st)
    ensures (forall order :: Enumerates(order, st.m.Keys) ==>
               forall c :: Interrupted(st, c) ==> c !in ShutAll(st, order).m)
            <==> (forall c :: c in st.m ==> !Ignoring(st, c)) || (forall c :: c in st.m ==> Ignoring(st, c))
  {
    if forall c :: c in st.m ==> !Ignoring(st, c) {
      forall order | Enumerates(order, st.m.Keys)
        ensures forall c :: Interrupted(st, c) ==> c !in ShutAll(st, order).m
      {
        ShutCompletes(st, order);
      }
    } else if !(forall c :: c in st.m ==> Ignoring(st, c)) {
      var c :| c in st.m && Ignoring(st, c);
      var d :| d in st.m && !Ignoring(st, d);
      var order := ShutLeavesBehind(st, c, d);
      assert Interrupted(st, d) && d in ShutAll(st, order).m;
    }
  }
}
