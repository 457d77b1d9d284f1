/** The index of destinations kept by one peer: which units serve which role. `U` stands for the identity of
    a unit object; a unit that reconnects under the same id is a different one. */
module IndexModel {
  import opened Orders

  /** `Destination`: the units serving one role. */
  datatype Dest<U> = Dest(units: set<U>, ready: bool)

  /** What a unit object holds. */
  datatype UnitRec = UnitRec(id: string, roles: set<string>)

  /** `live`: the units of the peer by id. `recs`: every unit object ever created. `pending`: calls of
      `onNewUnitRoles` that are under way. `closed`: units closed by hand. */
  datatype Index<U(==)> =
    Index(live: map<string, U>, recs: map<U, UnitRec>, dests: map<string, Dest<U>>, pending: seq<U>, closed: set<U>)

  function Empty<U>(): Index<U> {
    Index(map[], map[], map[], [], {})
  }

  // ---- one destination ----

  function AddUnit<U(==)>(d: Dest<U>, u: U): Dest<U> {
    if u in d.units then d else Dest(d.units + {u}, true)
  }

  function DeleteUnit<U(==)>(d: Dest<U>, u: U): Dest<U> {
    if u !in d.units then d else
    var rest := d.units - {u};
    Dest(rest, if rest == {} then false else d.ready)
  }

  // ---- the whole index ----

  /** `onNewUnitRoles`: every destination takes the unit in or throws it out. */
  function Reconcile<U(==)>(dests: map<string, Dest<U>>, u: U, roles: set<string>): map<string, Dest<U>> {
    map n | n in dests :: if n in roles then AddUnit(dests[n], u) else DeleteUnit(dests[n], u)
  }

  /** `closeWithCode`: out of every destination. */
  function Expel<U(==)>(dests: map<string, Dest<U>>, u: U): map<string, Dest<U>> {
    map n | n in dests :: DeleteUnit(dests[n], u)
  }

  /** The loop of `Peer.deleteUnit`, visiting the roles in this order: the first role without a destination
      ends it. */
  function Withdraw<U(==)>(dests: map<string, Dest<U>>, u: U, order: seq<string>): map<string, Dest<U>>
    decreases |order|
  {
    if order == [] || order[0] !in dests then dests
    else Withdraw(dests[order[0] := DeleteUnit(dests[order[0]], u)], u, order[1..])
  }

  datatype Event<U> =
    | Connect(id: string, u: U, roles: set<string>)  // `addConn` up to its call of `onNewUnitRoles`
    | Update(u: U, roles: set<string>)               // a roles message that is not stale
    | Run(i: nat)                                    // a pending `onNewUnitRoles`
    | Lookup(name: string)                           // `Peer.Destination`
    | Delete(u: U, order: seq<string>)               // `Peer.deleteUnit`
    | CloseByHand(u: U)                              // `Unit.Close`

  function Served<U(==)>(ix: Index<U>, name: string): set<U> {
    set id | id in ix.live && ix.live[id] in ix.recs && name in ix.recs[ix.live[id]].roles :: ix.live[id]
  }

  function Step<U(==)>(ix: Index<U>, e: Event<U>): Index<U> {
    match e
    case Connect(id, u, roles) =>
      if id in ix.live then ix.(pending := ix.pending + [ix.live[id]])
      else ix.(live := ix.live[id := u], recs := ix.recs[u := UnitRec(id, roles)], pending := ix.pending + [u])
    case Update(u, roles) =>
      if u !in ix.recs then ix
      else ix.(recs := ix.recs[u := ix.recs[u].(roles := roles)], pending := ix.pending + [u])
    case Run(i) =>
      if i >= |ix.pending| || ix.pending[i] !in ix.recs then ix
      else ix.(dests := Reconcile(ix.dests, ix.pending[i], ix.recs[ix.pending[i]].roles),
               pending := ix.pending[..i] + ix.pending[i + 1..])
    case Lookup(name) =>
      if name in ix.dests then ix
      else ix.(dests := ix.dests[name := Dest(Served(ix, name), Served(ix, name) != {})])
    case Delete(u, order) =>
      if u !in ix.recs then ix
      else ix.(live := ix.live - {ix.recs[u].id}, dests := Withdraw(ix.dests, u, order))
    case CloseByHand(u) =>
      ix.(dests := Expel(ix.dests, u), closed := ix.closed + {u})
  }

  predicate Live<U(==)>(ix: Index<U>, u: U) {
    u in ix.recs && ix.recs[u].id in ix.live && ix.live[ix.recs[u].id] == u
  }

  /** A new unit object is new. */
  predicate Enabled<U(==)>(ix: Index<U>, e: Event<U>) {
    e.Connect? && e.id !in ix.live ==> e.u !in ix.recs
  }

  // ---- what every run keeps ----

  /** A destination is ready exactly when it has units. */
  ghost predicate ReadyMeansUnits<U>(dests: map<string, Dest<U>>) {
    forall n :: n in dests ==> (dests[n].ready <==> dests[n].units != {})
  }

  ghost predicate WellFormed<U>(ix: Index<U>) {
    && (forall id :: id in ix.live ==> ix.live[id] in ix.recs && ix.recs[ix.live[id]].id == id)
    && (forall i :: 0 <= i < |ix.pending| ==> ix.pending[i] in ix.recs)
    && ReadyMeansUnits(ix.dests)
  }

  /** A live unit with no reconciliation under way, not closed by hand, is in exactly the destinations of
      its roles. */
  ghost predicate Indexed<U>(ix: Index<U>) {
    forall u, n :: u in ix.recs && n in ix.dests && Live(ix, u) && u !in ix.pending && u !in ix.closed ==>
                     (u in ix.dests[n].units <==> n in ix.recs[u].roles)
  }

  lemma {:induction false} WithdrawTouchesOne<U>(dests: map<string, Dest<U>>, u: U, order: seq<string>)
    requires ReadyMeansUnits(dests)
    ensures var after := Withdraw(dests, u, order);
            && after.Keys == dests.Keys && ReadyMeansUnits(after)
            && forall n, v :: n in dests && v != u ==> (v in after[n].units <==> v in dests[n].units)
    decreases |order|
  {
    if order != [] && order[0] in dests {
      WithdrawTouchesOne(dests[order[0] := DeleteUnit(dests[order[0]], u)], u, order[1..]);
    }
  }

  lemma StepKeeps<U>(ix: Index<U>, e: Event<U>)
    requires WellFormed(ix) && Indexed(ix) && Enabled(ix, e)
    ensures WellFormed(Step(ix, e)) && Indexed(Step(ix, e))
  {
    match e
    case Delete(u, order) => WithdrawTouchesOne(ix.dests, u, order);
    case Run(i) => RunKeeps(ix, i);
    case _ =>
  }

  lemma RunKeeps<U>(ix: Index<U>, i: nat)
    requires WellFormed(ix) && Indexed(ix)
    ensures WellFormed(Step(ix, Run(i))) && Indexed(Step(ix, Run(i)))
  {
    if i < |ix.pending| {
      var after := Step(ix, Run(i));
      forall v | v in ix.pending && v !in after.pending ensures v == ix.pending[i] {
      }
    }
  }

  ghost predicate AllEnabled<U>(ix: Index<U>, es: seq<Event<U>>)
    decreases |es|
  {
    es != [] ==> Enabled(ix, es[0]) && AllEnabled(Step(ix, es[0]), es[1..])
  }

  function Steps<U(==)>(ix: Index<U>, es: seq<Event<U>>): Index<U>
    decreases |es|
  {
    if es == [] then ix else Steps(Step(ix, es[0]), es[1..])
  }

  lemma {:induction false} StepsKeep<U>(ix: Index<U>, es: seq<Event<U>>)
    requires WellFormed(ix) && Indexed(ix) && AllEnabled(ix, es)
    ensures WellFormed(Steps(ix, es)) && Indexed(Steps(ix, es))
    decreases |es|
  {
    if es != [] {
      StepKeeps(ix, es[0]);
      StepsKeep(Step(ix, es[0]), es[1..]);
    }
  }

  /** The index invariant over every run of connections, role updates, reconciliations, lookups, deletions
      and closings by hand. */
  lemma IndexInvariant<U>(es: seq<Event<U>>, u: U, name: string)
    requires AllEnabled(Empty(), es)
    requires var ix := Steps(Empty(), es);
             Live(ix, u) && u !in ix.pending && u !in ix.closed && name in ix.dests
    ensures var ix := Steps(Empty(), es);
            && (u in ix.dests[name].units <==> name in ix.recs[u].roles)
            && (ix.dests[name].ready <==> ix.dests[name].units != {})
  {
    StepsKeep(Empty(), es);
  }

  // ---- deleting a unit ----

  ghost predicate Nowhere<U>(dests: map<string, Dest<U>>, u: U) {
    forall n :: n in dests ==> u !in dests[n].units
  }

  lemma {:induction false} WithdrawVisited<U>(dests: map<string, Dest<U>>, u: U, order: seq<string>)
    requires forall i :: 0 <= i < |order| ==> order[i] in dests
    ensures var after := Withdraw(dests, u, order);
            && after.Keys == dests.Keys
            && forall n :: n in dests ==> (u in after[n].units <==> u in dests[n].units && n !in order)
    decreases |order|
  {
    if order != [] {
      WithdrawVisited(dests[order[0] := DeleteUnit(dests[order[0]], u)], u, order[1..]);
    }
  }

  lemma {:induction false} WithdrawOnlyVisited<U>(dests: map<string, Dest<U>>, u: U, order: seq<string>, n: string)
    requires n in dests && n !in order
    ensures n in Withdraw(dests, u, order) && Withdraw(dests, u, order)[n] == dests[n]
    decreases |order|
  {
    if order != [] && order[0] in dests {
      WithdrawOnlyVisited(dests[order[0] := DeleteUnit(dests[order[0]], u)], u, order[1..], n);
    }
  }

  /** `deleteUnit` removes a unit from every destination, whatever order its roles are visited in, exactly
      when it is in none, or when all its roles have a destination and it is only in destinations of its
      roles. One role without a destination is enough to leave it behind. */
  lemma WithdrawsEverywhereIff<U>(dests: map<string, Dest<U>>, u: U, roles: set<string>)
    ensures (forall order :: Enumerates(order, roles) ==> Nowhere(Withdraw(dests, u, order), u))
            <==> Nowhere(dests, u)
                 || (roles <= dests.Keys && forall n :: n in dests && u in dests[n].units ==> n in roles)
  {
    if roles <= dests.Keys && forall n :: n in dests && u in dests[n].units ==> n in roles {
      forall order | Enumerates(order, roles) ensures Nowhere(Withdraw(dests, u, order), u) {
        WithdrawVisited(dests, u, order);
      }
    } else if Nowhere(dests, u) {
      forall order | Enumerates(order, roles) ensures Nowhere(Withdraw(dests, u, order), u) {
        WithdrawNowhere(dests, u, order);
      }
    } else {
      var order := WithdrawLeavesBehind(dests, u, roles);
    }
  }

  lemma {:induction false} WithdrawNowhere<U>(dests: map<string, Dest<U>>, u: U, order: seq<string>)
    requires Nowhere(dests, u)
    ensures Withdraw(dests, u, order) == dests
    decreases |order|
  {
    if order != [] && order[0] in dests {
      assert dests[order[0] := dests[order[0]]] == dests;
      WithdrawNowhere(dests, u, order[1..]);
    }
  }

  lemma WithdrawLeavesBehind<U>(dests: map<string, Dest<U>>, u: U, roles: set<string>) returns (order: seq<string>)
    requires !Nowhere(dests, u)
    requires !(roles <= dests.Keys) || exists n :: n in dests && u in dests[n].units && n !in roles
    ensures Enumerates(order, roles) && !Nowhere(Withdraw(dests, u, order), u)
  {
    if !(roles <= dests.Keys) {
      var r :| r in roles && r !in dests;
      order := OrderStartingWith(r, roles);
      assert Withdraw(dests, u, order) == dests;
    } else {
      var n :| n in dests && u in dests[n].units && n !in roles;
      order := AnyOrder(roles);
      WithdrawOnlyVisited(dests, u, order, n);
    }
  }

  /** The roles the loop of `deleteUnit` gets to: those before the first one without a destination. */
  function Visited(names: set<string>, order: seq<string>): set<string>
    decreases |order|
  {
    if order == [] || order[0] !in names then {} else {order[0]} + Visited(names, order[1..])
  }

  /** What the loop leaves, said without it: the unit is out of the destinations visited, and that is all. */
  lemma {:induction false} WithdrawIs<U>(dests: map<string, Dest<U>>, u: U, order: seq<string>)
    ensures var after := Withdraw(dests, u, order);
            && after.Keys == dests.Keys
            && forall n, v :: n in dests ==>
                 (v in after[n].units <==> v in dests[n].units && !(v == u && n in Visited(dests.Keys, order)))
    decreases |order|
  {
    if order != [] && order[0] in dests {
      var next := dests[order[0] := DeleteUnit(dests[order[0]], u)];
      assert next.Keys == dests.Keys;
      WithdrawIs(next, u, order[1..]);
    }
  }

  /** A settled live unit is removed from every destination, in every order, exactly when all of its roles have a
      destination, or none has. */
  lemma SettledDeletionIff<U>(ix: Index<U>, u: U)
    requires WellFormed(ix) && Indexed(ix) && Live(ix, u) && u !in ix.pending && u !in ix.closed
    ensures var roles := ix.recs[u].roles;
            (forall order :: Enumerates(order, roles) ==> Nowhere(Withdraw(ix.dests, u, order), u))
            <==> roles <= ix.dests.Keys || roles !! ix.dests.Keys
  {
    WithdrawsEverywhereIff(ix.dests, u, ix.recs[u].roles);
    if Nowhere(ix.dests, u) {
      forall n | n in ix.recs[u].roles ensures n !in ix.dests {
      }
    }
  }

  // ---- who is where after an event ----

  /** What an event does to the membership of `v` in a destination there is, said without its steps. */
  ghost predicate Holds<U>(ix: Index<U>, e: Event<U>, n: string, v: U)
    requires n in ix.dests
  {
    match e
    case Run(i) =>
      if i < |ix.pending| && ix.pending[i] == v && v in ix.recs then n in ix.recs[v].roles else v in ix.dests[n].units
    case Delete(u, order) =>
      v in ix.dests[n].units && !(v == u && u in ix.recs && n in Visited(ix.dests.Keys, order))
    case CloseByHand(u) => v in ix.dests[n].units && v != u
    case _ => v in ix.dests[n].units
  }

  /** Every event: who is in each destination afterwards, which destinations there are, and that they are ready
      exactly with units. */
  lemma MembershipStep<U>(ix: Index<U>, e: Event<U>)
    requires WellFormed(ix) && Indexed(ix) && Enabled(ix, e)
    ensures var after := Step(ix, e);
            && after.dests.Keys == ix.dests.Keys + (if e.Lookup? then {e.name} else {})
            && (forall n, v :: n in ix.dests ==> (v in after.dests[n].units <==> Holds(ix, e, n, v)))
            && (e.Lookup? && e.name !in ix.dests ==>
                  forall v :: v in after.dests[e.name].units <==> Live(ix, v) && e.name in ix.recs[v].roles)
            && ReadyMeansUnits(after.dests)
  {
    StepKeeps(ix, e);
    match e
    case Delete(u, order) => WithdrawIs(ix.dests, u, order);
    case Lookup(name) => forall v ensures v in Served(ix, name) <==> Live(ix, v) && name in ix.recs[v].roles {
        LiveServes(ix, name, v);
      }
    case _ =>
  }

  /** The unit whose reconciliation an event starts, if it starts one. */
  function Starts<U(==)>(ix: Index<U>, e: Event<U>): seq<U> {
    match e
    case Connect(id, u, _) => [if id in ix.live then ix.live[id] else u]
    case Update(u, _) => if u in ix.recs then [u] else []
    case _ => []
  }

  /** Every event: what it does to the units themselves. Only an update changes roles, also when a unit connects
      again; only a connection under a new id brings a unit, and only a deletion takes one; a reconciliation is owed
      for every connection and update. */
  lemma UnitsStep<U>(ix: Index<U>, e: Event<U>)
    requires WellFormed(ix) && Enabled(ix, e)
    ensures var after := Step(ix, e);
            && (forall u :: u in ix.recs ==>
                  && u in after.recs && after.recs[u].id == ix.recs[u].id
                  && after.recs[u].roles == if e.Update? && e.u == u then e.roles else ix.recs[u].roles)
            && (forall u :: u in after.recs && u !in ix.recs ==>
                  e.Connect? && e.u == u && e.id !in ix.live && after.recs[u] == UnitRec(e.id, e.roles))
            && (forall id :: id in ix.live && !(e.Delete? && e.u in ix.recs && ix.recs[e.u].id == id) ==>
                  id in after.live && after.live[id] == ix.live[id])
            && (forall id :: id in after.live && id !in ix.live ==> e.Connect? && e.id == id && after.live[id] == e.u)
            && (e.Connect? ==> e.id in after.live)
            && (e.Delete? && e.u in ix.recs ==> ix.recs[e.u].id !in after.live)
    ensures !e.Run? ==> Step(ix, e).pending == ix.pending + Starts(ix, e)
    ensures e.Run? && e.i < |ix.pending| ==>
              multiset(ix.pending) == multiset(Step(ix, e).pending) + multiset{ix.pending[e.i]}
  {
    if e.Run? && e.i < |ix.pending| {
      var p, i := ix.pending, e.i;
      assert p == p[..i] + [p[i]] + p[i + 1..];
    }
  }

  // ---- closing a unit by hand ----

  /** The unit leaves every destination, nobody else does, and a destination it leaves empty is no longer ready. */
  lemma CloseTakesOut<U>(ix: Index<U>, u: U)
    requires WellFormed(ix)
    ensures var after := Step(ix, CloseByHand(u));
            && after.dests.Keys == ix.dests.Keys && Nowhere(after.dests, u)
            && (forall n, v :: n in ix.dests && v != u ==> (v in after.dests[n].units <==> v in ix.dests[n].units))
            && (forall n :: n in ix.dests ==> (after.dests[n].ready <==> exists v :: v != u && v in ix.dests[n].units))
            && after.live == ix.live && after.recs == ix.recs && after.pending == ix.pending
  {
    var after := Step(ix, CloseByHand(u));
    forall n | n in ix.dests
      ensures after.dests[n].ready <==> exists v :: v != u && v in ix.dests[n].units
    {
      assert forall v :: v in after.dests[n].units <==> v != u && v in ix.dests[n].units;
      if after.dests[n].units != {} {
        var v :| v in after.dests[n].units;
      }
    }
  }

  /** The two ways a unit gets into a destination: a reconciliation of it, or the first lookup of one of its roles
      while it is live. */
  ghost predicate BringsIn<U>(ix: Index<U>, e: Event<U>, u: U) {
    match e
    case Run(i) => i < |ix.pending| && ix.pending[i] == u && u in ix.recs && !(ix.recs[u].roles !! ix.dests.Keys)
    case Lookup(name) => name !in ix.dests && Live(ix, u) && name in ix.recs[u].roles
    case _ => false
  }

  lemma StaysOutIff<U>(ix: Index<U>, e: Event<U>, u: U)
    requires WellFormed(ix) && Indexed(ix) && Enabled(ix, e) && Nowhere(ix.dests, u)
    ensures Nowhere(Step(ix, e).dests, u) <==> !BringsIn(ix, e, u)
  {
    MembershipStep(ix, e);
    var after := Step(ix, e);
    if BringsIn(ix, e, u) {
      if e.Run? {
        var n :| n in ix.recs[u].roles && n in ix.dests;
        assert Holds(ix, e, n, u) && u in after.dests[n].units;
      } else {
        assert u in after.dests[e.name].units;
      }
    } else {
      forall n | n in after.dests ensures u !in after.dests[n].units {
        if n in ix.dests { assert !Holds(ix, e, n, u); }
      }
    }
  }

  /** Some event of a run brings the unit in. */
  ghost predicate BroughtIn<U>(ix: Index<U>, es: seq<Event<U>>, u: U)
    decreases |es|
  {
    es != [] && (BringsIn(ix, es[0], u) || BroughtIn(Step(ix, es[0]), es[1..], u))
  }

  lemma {:induction false} StaysOut<U>(ix: Index<U>, es: seq<Event<U>>, u: U)
    requires WellFormed(ix) && Indexed(ix) && AllEnabled(ix, es) && Nowhere(ix.dests, u) && !BroughtIn(ix, es, u)
    ensures Nowhere(Steps(ix, es).dests, u)
    decreases |es|
  {
    if es != [] {
      StaysOutIff(ix, es[0], u);
      StepKeeps(ix, es[0]);
      StaysOut(Step(ix, es[0]), es[1..], u);
    }
  }

  /** In every run a unit closed by hand is in no destination, and stays out until a reconciliation of it, or the
      first lookup of one of its roles while it is live, brings it in. */
  lemma ClosedStaysOut<U>(es: seq<Event<U>>, u: U, more: seq<Event<U>>)
    requires AllEnabled(Empty(), es)
    requires var closed := Step(Steps(Empty(), es), CloseByHand(u));
             AllEnabled(closed, more) && !BroughtIn(closed, more, u)
    ensures Nowhere(Steps(Step(Steps(Empty(), es), CloseByHand(u)), more).dests, u)
  {
    var ix := Steps(Empty(), es);
    StepsKeep(Empty(), es);
    StepKeeps(ix, CloseByHand(u));
    CloseTakesOut(ix, u);
    StaysOut(Step(ix, CloseByHand(u)), more, u);
  }

  // ---- only live units ----

  /** What an index of destinations is for: it offers live units only. */
  ghost predicate OnlyLive<U>(ix: Index<U>) {
    forall n, u :: n in ix.dests && u in ix.dests[n].units ==> Live(ix, u)
  }

  /** The unit that deleting `u` takes out of `live`: whichever holds its id. */
  predicate Replaced<U(==)>(ix: Index<U>, u: U) {
    u in ix.recs && ix.recs[u].id in ix.live && ix.live[ix.recs[u].id] != u
  }

  /** What must hold before an event for no dead unit to be in a destination after it. For a reconciliation: its
      unit is live, or none of its roles has a destination. For a deletion: the live unit is only in destinations
      the loop gets to, or the successor that goes in its place is in none. For everything else: nothing. */
  ghost predicate Tidy<U>(ix: Index<U>, e: Event<U>) {
    match e
    case Run(i) =>
      i < |ix.pending| && ix.pending[i] in ix.recs ==>
        Live(ix, ix.pending[i]) || ix.recs[ix.pending[i]].roles !! ix.dests.Keys
    case Delete(u, order) =>
      && (Live(ix, u) ==> forall n :: n in ix.dests && u in ix.dests[n].units ==> n in Visited(ix.dests.Keys, order))
      && (Replaced(ix, u) ==> Nowhere(ix.dests, ix.live[ix.recs[u].id]))
    case _ => true
  }

  lemma RunKeepsOnlyLiveIff<U>(ix: Index<U>, i: nat)
    requires WellFormed(ix) && OnlyLive(ix) && i < |ix.pending|
    ensures OnlyLive(Step(ix, Run(i))) <==> Tidy(ix, Run(i))
  {
    var u, after := ix.pending[i], Step(ix, Run(i));
    if !Tidy(ix, Run(i)) {
      var n :| n in ix.recs[u].roles && n in ix.dests;
      assert u in after.dests[n].units && !Live(after, u);
    } else {
      forall n, v | n in after.dests && v in after.dests[n].units ensures Live(after, v) {
        assert v in ix.dests[n].units || (v == u && n in ix.recs[u].roles);
        assert Live(ix, v);
      }
    }
  }

  lemma DeleteKeepsOnlyLiveIff<U>(ix: Index<U>, u: U, order: seq<string>)
    requires WellFormed(ix) && OnlyLive(ix) && u in ix.recs
    ensures OnlyLive(Step(ix, Delete(u, order))) <==> Tidy(ix, Delete(u, order))
  {
    var after := Step(ix, Delete(u, order));
    WithdrawIs(ix.dests, u, order);
    if Tidy(ix, Delete(u, order)) {
      forall n, v | n in after.dests && v in after.dests[n].units ensures Live(after, v) {
        assert v in Withdraw(ix.dests, u, order)[n].units;
        assert Live(ix, v);
      }
    } else if Live(ix, u) {
      var n :| n in ix.dests && u in ix.dests[n].units && n !in Visited(ix.dests.Keys, order);
      assert u in after.dests[n].units && !Live(after, u);
    } else {
      var w := ix.live[ix.recs[u].id];
      var n :| n in ix.dests && w in ix.dests[n].units;
      assert w in after.dests[n].units && !Live(after, w);
    }
  }

  lemma OthersKeepOnlyLive<U>(ix: Index<U>, e: Event<U>)
    requires WellFormed(ix) && OnlyLive(ix) && Enabled(ix, e) && !e.Run? && !e.Delete?
    ensures OnlyLive(Step(ix, e))
  {
    var after := Step(ix, e);
    forall n, v | n in after.dests && v in after.dests[n].units ensures Live(after, v) {
      if n in ix.dests {
        assert v in ix.dests[n].units;
        assert Live(ix, v);
      } else {
        LiveServes(ix, n, v);
      }
    }
  }

  /** Every event keeps destinations free of dead units exactly when it is tidy. */
  lemma OnlyLiveStepIff<U>(ix: Index<U>, e: Event<U>)
    requires WellFormed(ix) && OnlyLive(ix) && Enabled(ix, e)
    ensures OnlyLive(Step(ix, e)) <==> Tidy(ix, e)
  {
    match e
    case Run(i) => if i < |ix.pending| { RunKeepsOnlyLiveIff(ix, i); }
    case Delete(u, order) => if u in ix.recs { DeleteKeepsOnlyLiveIff(ix, u, order); }
    case _ => OthersKeepOnlyLive(ix, e);
  }

  ghost predicate AlwaysOnlyLive<U>(ix: Index<U>, es: seq<Event<U>>)
    decreases |es|
  {
    OnlyLive(ix) && (es != [] ==> AlwaysOnlyLive(Step(ix, es[0]), es[1..]))
  }

  ghost predicate AllTidy<U>(ix: Index<U>, es: seq<Event<U>>)
    decreases |es|
  {
    es != [] ==> Tidy(ix, es[0]) && AllTidy(Step(ix, es[0]), es[1..])
  }

  lemma {:induction false} AlwaysOnlyLiveFrom<U>(ix: Index<U>, es: seq<Event<U>>)
    requires WellFormed(ix) && Indexed(ix) && OnlyLive(ix) && AllEnabled(ix, es)
    ensures AlwaysOnlyLive(ix, es) <==> AllTidy(ix, es)
    ensures AllTidy(ix, es) ==> OnlyLive(Steps(ix, es))
    decreases |es|
  {
    if es != [] {
      StepKeeps(ix, es[0]);
      OnlyLiveStepIff(ix, es[0]);
      if Tidy(ix, es[0]) {
        AlwaysOnlyLiveFrom(Step(ix, es[0]), es[1..]);
      }
    }
  }

  /** A run never shows a dead unit in a destination exactly when each of its events is tidy. */
  lemma AlwaysOnlyLiveIff<U>(es: seq<Event<U>>)
    requires AllEnabled(Empty(), es)
    ensures AlwaysOnlyLive(Empty(), es) <==> AllTidy(Empty(), es)
  {
    AlwaysOnlyLiveFrom(Empty(), es);
  }

  lemma LiveServes<U>(ix: Index<U>, name: string, u: U)
    requires WellFormed(ix)
    ensures u in Served(ix, name) <==> Live(ix, u) && name in ix.recs[u].roles
  {
    if Live(ix, u) && name in ix.recs[u].roles {
      assert ix.recs[u].id in ix.live && ix.live[ix.recs[u].id] == u;
    }
  }

  lemma SettledServes<U>(ix: Index<U>, name: string)
    requires WellFormed(ix) && Indexed(ix) && OnlyLive(ix)
    requires ix.pending == [] && name in ix.dests
    ensures ix.dests[name].units - ix.closed == Served(ix, name) - ix.closed
  {
    forall u | u !in ix.closed ensures u in ix.dests[name].units <==> u in Served(ix, name) {
      LiveServes(ix, name, u);
      if u in ix.dests[name].units || u in Served(ix, name) {
        assert Live(ix, u) && u !in ix.pending;
      }
    }
  }

  /** The index agrees with its simple definition over every tidy run: when it has settled, a destination holds, of
      the units not closed by hand, exactly the live ones with its role; when none was closed, it is ready exactly
      when there is one. */
  lemma ReadyMeansServed<U>(es: seq<Event<U>>, name: string)
    requires AllEnabled(Empty(), es) && AllTidy(Empty(), es)
    requires var ix := Steps(Empty(), es); ix.pending == [] && name in ix.dests
    ensures var ix := Steps(Empty(), es);
            && ix.dests[name].units - ix.closed == Served(ix, name) - ix.closed
            && (ix.closed == {} ==>
                  ix.dests[name].units == Served(ix, name) && (ix.dests[name].ready <==> Served(ix, name) != {}))
  {
    var ix := Steps(Empty(), es);
    StepsKeep(Empty(), es);
    AlwaysOnlyLiveFrom(Empty(), es);
    SettledServes(ix, name);
    if ix.closed == {} {
      assert ix.dests[name].units - ix.closed == ix.dests[name].units;
      assert Served(ix, name) - ix.closed == Served(ix, name);
    }
  }

  lemma StepsOf<U>(ix: Index<U>, a: Event<U>, b: Event<U>, c: Event<U>, d: Event<U>)
    ensures Steps(ix, [a, b, c, d]) == Step(Step(Step(Step(ix, a), b), c), d)
    ensures AllEnabled(ix, [a, b, c, d]) <==>
              Enabled(ix, a) && Enabled(Step(ix, a), b) && Enabled(Step(Step(ix, a), b), c)
              && Enabled(Step(Step(Step(ix, a), b), c), d)
  {
    var es := [a, b, c, d];
    assert es[1..] == [b, c, d] && es[1..][1..] == [c, d] && es[1..][1..][1..] == [d] && [d][1..] == [];
    assert Steps(Step(Step(Step(ix, a), b), c), [d]) == Step(Step(Step(Step(ix, a), b), c), d);
    assert Steps(Step(Step(ix, a), b), [c, d]) == Steps(Step(Step(Step(ix, a), b), c), [d]);
    assert AllEnabled(Step(Step(Step(ix, a), b), c), [d]) == Enabled(Step(Step(Step(ix, a), b), c), d);
    assert AllEnabled(Step(Step(ix, a), b), [c, d])
      == (Enabled(Step(Step(ix, a), b), c) && AllEnabled(Step(Step(Step(ix, a), b), c), [d]));
  }

  lemma ConnectAndLookup<U>(id: string, u: U, role: string) returns (looked: Index<U>)
    ensures looked == Step(Step(Empty(), Connect(id, u, {role})), Lookup(role))
    ensures looked == Index(map[id := u], map[u := UnitRec(id, {role})], map[role := Dest({u}, true)], [u], {})
  {
    var connected: Index<U> := Step(Empty(), Connect(id, u, {role}));
    assert connected == Index(map[id := u], map[u := UnitRec(id, {role})], map[], [u], {});
    assert Served(connected, role) == {u} by {
      assert id in connected.live && connected.live[id] == u && role in connected.recs[u].roles;
    }
    looked := Step(connected, Lookup(role));
  }

  /** A run that is not: a unit connects, its role is looked up, the unit is deleted, and only then the
      reconciliation of its connection runs. Nothing is pending, no unit is live, and the destination is
      ready. */
  lemma LateReconcileRevives<U>(id: string, u: U, role: string)
    ensures var es := [Connect(id, u, {role}), Lookup(role), Delete(u, [role]), Run(0)];
            var ix := Steps(Empty(), es);
            && AllEnabled(Empty(), es) && ix.pending == [] && ix.live == map[]
            && role in ix.dests && ix.dests[role] == Dest({u}, true) && Served(ix, role) == {}
  {
    var e: Index<U> := Empty();
    StepsOf(e, Connect(id, u, {role}), Lookup(role), Delete(u, [role]), Run(0));
    var looked := ConnectAndLookup(id, u, role);
    var deleted := Step(looked, Delete(u, [role]));
    assert [role][1..] == [] && Withdraw(looked.dests, u, [role]) == map[role := Dest({}, false)];
    assert deleted.live == map[] && deleted.dests == map[role := Dest({}, false)];
    var after := Step(deleted, Run(0));
    assert after.dests[role] == AddUnit(Dest({}, false), u);
  }

  /** Deleting a unit leaves every other unit live exactly when no successor has taken its id. */
  lemma DeleteTakesOnlyIff<U>(ix: Index<U>, u: U, order: seq<string>)
    requires WellFormed(ix) && u in ix.recs
    ensures (forall v :: v != u && Live(ix, v) ==> Live(Step(ix, Delete(u, order)), v)) <==> !Replaced(ix, u)
  {
    var after := Step(ix, Delete(u, order));
    if Replaced(ix, u) {
      var v := ix.live[ix.recs[u].id];
      assert v != u && Live(ix, v) && !Live(after, v);
    }
  }

  /** A unit can be deleted twice, once by the write that failed and once by the read loop. When its peer has
      come back in between, the second deletion takes the successor, which nobody closed. */
  lemma SecondDeleteTakesSuccessor<U>(id: string, u: U, v: U)
    requires u != v
    ensures var es := [Connect(id, u, {}), Delete(u, []), Connect(id, v, {}), Delete(u, [])];
            AllEnabled(Empty(), es) && Live(Steps(Empty(), es[..3]), v) && !Live(Steps(Empty(), es), v)
  {
    var e: Index<U> := Empty();
    var a, b, c := Connect(id, u, {}), Delete(u, []), Connect(id, v, {});
    StepsOf(e, a, b, c, b);
    assert [a, b, c, b][..3] == [a, b, c];
    assert [a, b, c][1..] == [b, c] && [b, c][1..] == [c] && [c][1..] == [];
    assert Steps(Step(Step(e, a), b), [c]) == Step(Step(Step(e, a), b), c);
    assert Steps(Step(e, a), [b, c]) == Steps(Step(Step(e, a), b), [c]);
    var s2 := Step(Step(e, a), b);
    assert s2.live == map[] && s2.recs == map[u := UnitRec(id, {})];
    var s3 := Step(s2, c);
    assert s3.live == map[id := v] && Live(s3, v);
  }
}
