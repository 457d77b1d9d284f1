/** How the roles of many peers reach the destination index of one receiving peer. The receiver is any peer;
    what a sender writes to its other units only uses up session numbers. Messages to the receiver may be
    delivered in any order, and more than once. */
module RoleConvergence {
  import M = IndexModel

  /** One run of `broadcastRoles`: the roles listed at its start, and whether the receiver, a unit when the
      units were listed, is still to be written to. */
  datatype Cast = Cast(roles: set<string>, due: bool)

  /** `session` is `lastRolesChange`; `waiting` counts `go broadcastRoles()` calls that have not started. */
  datatype Sender = Sender(active: set<string>, session: nat, waiting: nat, casts: seq<Cast>)

  /** From one sender to the receiver. `hello`: the roles told in the handshake. `sent`: every roles message
      by session number. `last` is `lastRoleSession` of the unit at the receiver. `top`: highest number sent. */
  datatype Link = Link(hello: set<string>, sent: map<nat, set<string>>, top: nat, delivered: set<nat>, last: nat)

  datatype Net = Net(senders: map<string, Sender>, links: map<string, Link>, ix: M.Index<string>)

  datatype Event =
    | Appear(p: string)                       // a peer starts, without roles
    | Join(p: string)                         // its handshake with the receiver
    | Switch(p: string, role: string, on: bool) // `Enable`, `Disable`, or the creation of a role, active at once
    | BeginCast(p: string)
    | SendElsewhere(p: string)                // the next number goes to another unit
    | SendHere(p: string, k: nat)             // cast `k` writes to the receiver
    | EndCast(p: string, k: nat)
    | Deliver(p: string, i: nat)
    | Reconcile(k: nat)
    | Lookup(name: string)

  const FRESH := Net(map[], map[], M.Index(map[], map[], map[], [], {}))

  predicate Enabled(n: Net, e: Event) {
    match e
    case Appear(p) => p !in n.senders
    case Join(p) => p in n.senders && p !in n.links
    case Switch(p, _, _) => p in n.senders
    case BeginCast(p) => p in n.senders && n.senders[p].waiting > 0
    case SendElsewhere(p) => p in n.senders && n.senders[p].casts != []
    case SendHere(p, k) => p in n.links && p in n.senders && k < |n.senders[p].casts| && n.senders[p].casts[k].due
    case EndCast(p, k) => p in n.senders && k < |n.senders[p].casts| && !n.senders[p].casts[k].due
    case Deliver(p, i) => p in n.links && i in n.links[p].sent
    case Reconcile(k) => k < |n.ix.pending|
    case Lookup(_) => true
  }

  function SwitchRole(s: Sender, role: string, on: bool): Sender {
    if (role in s.active) == on then s
    else s.(active := if on then s.active + {role} else s.active - {role}, waiting := s.waiting + 1)
  }

  /** Switching a role on makes it active and switching it off inactive, whatever it was; no other role changes, and
      a broadcast is launched exactly when something has changed. */
  lemma SwitchSets(s: Sender, role: string, on: bool)
    ensures var s' := SwitchRole(s, role, on);
            && (role in s'.active <==> on)
            && (forall r :: r != role ==> (r in s'.active <==> r in s.active))
            && s'.waiting == s.waiting + (if s'.active == s.active then 0 else 1)
            && s'.session == s.session && s'.casts == s.casts
  {
    var s' := SwitchRole(s, role, on);
    assert (role in s.active) != on ==> (role in s.active) != (role in s'.active);
  }

  /** What an event changes at the sender alone. */
  function SenderStep(s: Sender, e: Event, joined: bool): Sender
    requires e.BeginCast? ==> s.waiting > 0
    requires e.EndCast? ==> e.k < |s.casts|
  {
    match e
    case Switch(_, role, on) => SwitchRole(s, role, on)
    case BeginCast(_) => s.(waiting := s.waiting - 1, casts := s.casts + [Cast(s.active, joined)])
    case SendElsewhere(_) => s.(session := s.session + 1)
    case EndCast(_, k) => s.(casts := s.casts[..k] + s.casts[k + 1..])
    case _ => s
  }

  /** The `typeRoles` case of `serveIncMsg`: a number not above the last one is stale. */
  function DoDeliver(n: Net, p: string, i: nat): Net
    requires p in n.links && i in n.links[p].sent
  {
    var l := n.links[p];
    var l1 := l.(delivered := l.delivered + {i});
    if i <= l.last then n.(links := n.links[p := l1])
    else n.(links := n.links[p := l1.(last := i)], ix := M.Step(n.ix, M.Update(p, l.sent[i])))
  }

  function Step(n: Net, e: Event): Net
    requires Enabled(n, e)
  {
    match e
    case Appear(p) => n.(senders := n.senders[p := Sender({}, 0, 0, [])])
    case Join(p) =>
      n.(links := n.links[p := Link(n.senders[p].active, map[], 0, {}, 0)],
         ix := M.Step(n.ix, M.Connect(p, p, n.senders[p].active)))
    case SendHere(p, k) =>
      var s, l := n.senders[p], n.links[p];
      var i := s.session + 1;
      n.(senders := n.senders[p := s.(session := i, casts := s.casts[k := s.casts[k].(due := false)])],
         links := n.links[p := l.(sent := l.sent[i := s.casts[k].roles], top := i)])
    case Deliver(p, i) => DoDeliver(n, p, i)
    case Reconcile(k) => n.(ix := M.Step(n.ix, M.Run(k)))
    case Lookup(name) => n.(ix := M.Step(n.ix, M.Lookup(name)))
    case _ => n.(senders := n.senders[e.p := SenderStep(n.senders[e.p], e, e.p in n.links)])
  }

  /** Broadcasts of one peer may overlap, but they write to the receiver in the order in which they began. */
  predicate Orderly(n: Net, e: Event) {
    e.SendHere? && e.p in n.senders && e.k < |n.senders[e.p].casts| ==>
      forall j :: 0 <= j < e.k ==> !n.senders[e.p].casts[j].due
  }

  // ---- invariant ----

  /** The newest roles a sender has told, or is telling, the receiver. */
  function Newest(l: Link): set<string> {
    if l.top in l.sent then l.sent[l.top] else l.hello
  }

  /** What the unit at the receiver holds. */
  function Told(l: Link): set<string> {
    if l.last in l.sent then l.sent[l.last] else l.hello
  }

  ghost predicate LinkOk(l: Link, s: Sender) {
    && (forall i :: i in l.sent ==> 1 <= i <= l.top)
    && l.top <= s.session && (l.top == 0 || l.top in l.sent)
    && l.delivered <= l.sent.Keys
    && (forall i :: i in l.delivered ==> i <= l.last)
    && (l.last == 0 || l.last in l.delivered)
  }

  /** One sender with its link to the receiver, if it has joined; until then it owes the receiver nothing. */
  ghost predicate LinkedOk(n: Net, p: string)
    requires p in n.senders
  {
    if p in n.links then LinkOk(n.links[p], n.senders[p])
    else forall k :: 0 <= k < |n.senders[p].casts| ==> !n.senders[p].casts[k].due
  }

  ghost predicate LinksOk(n: Net) {
    n.links.Keys <= n.senders.Keys && forall p :: p in n.senders ==> LinkedOk(n, p)
  }

  /** The roles the receiver will have been told last when the broadcasts under way have written to it in order. */
  function FinallyTold(casts: seq<Cast>, newest: set<string>): set<string> {
    if casts == [] then newest
    else if casts[|casts| - 1].due then casts[|casts| - 1].roles
    else FinallyTold(casts[..|casts| - 1], newest)
  }

  /** When broadcasts write in order: unless another one is waiting, they end up telling the receiver the roles
      that are active now. */
  ghost predicate OrderedOk(n: Net, p: string)
    requires p in n.senders
  {
    var s := n.senders[p];
    p in n.links && s.waiting == 0 ==> FinallyTold(s.casts, Newest(n.links[p])) == s.active
  }

  ghost predicate Ordered(n: Net) {
    forall p :: p in n.senders ==> OrderedOk(n, p)
  }

  ghost predicate UnitOk(n: Net, p: string)
    requires p in n.links
  {
    p in n.ix.live && n.ix.live[p] == p && p in n.ix.recs && n.ix.recs[p] == M.UnitRec(p, Told(n.links[p]))
  }

  ghost predicate IxOk(ix: M.Index<string>) {
    M.WellFormed(ix) && M.Indexed(ix) && forall d, u :: d in ix.dests && u in ix.dests[d].units ==> u in ix.recs
  }

  /** The receiver knows exactly the joined peers, with the roles it was last told. */
  ghost predicate IndexOk(n: Net) {
    && n.ix.recs.Keys == n.links.Keys && n.ix.closed == {}
    && (forall p :: p in n.links ==> UnitOk(n, p))
    && IxOk(n.ix)
  }

  /** What every run keeps, broadcasts that overlap included. */
  ghost predicate Consistent(n: Net) {
    LinksOk(n) && IndexOk(n)
  }

  // ---- every step keeps it: senders and links ----

  /** From `n` to `n'` only peer `p` moves. */
  ghost predicate OnlyMoves(n: Net, n': Net, p: string) {
    && p in n'.senders && n'.senders.Keys == n.senders.Keys + {p}
    && n.links.Keys <= n'.links.Keys <= n.links.Keys + {p}
    && (forall q :: q in n.senders && q != p ==> n'.senders[q] == n.senders[q])
    && (forall q :: q in n.links && q != p ==> n'.links[q] == n.links[q])
  }

  lemma Moves(n: Net, e: Event)
    requires n.links.Keys <= n.senders.Keys && Enabled(n, e) && !e.Reconcile? && !e.Lookup?
    ensures OnlyMoves(n, Step(n, e), e.p)
  {
  }

  lemma OnlyPeerLinked(n: Net, n': Net, p: string)
    requires LinksOk(n) && OnlyMoves(n, n', p) && LinkedOk(n', p)
    ensures LinksOk(n')
  {
    forall q | q in n'.senders ensures LinkedOk(n', q) {
      if q != p {
        assert LinkedOk(n, q);
      }
    }
  }

  lemma SenderLinked(n: Net, e: Event)
    requires LinksOk(n) && Enabled(n, e)
    requires e.Appear? || e.Switch? || e.BeginCast? || e.EndCast? || e.SendElsewhere?
    ensures LinkedOk(Step(n, e), e.p)
  {
    assert e.p in n.senders ==> LinkedOk(n, e.p);
  }

  lemma SendLinked(n: Net, p: string, k: nat)
    requires LinksOk(n) && Enabled(n, SendHere(p, k))
    ensures LinkedOk(Step(n, SendHere(p, k)), p)
  {
    assert LinkedOk(n, p);
  }

  lemma DeliverLinked(n: Net, p: string, i: nat)
    requires LinksOk(n) && Enabled(n, Deliver(p, i))
    ensures LinkedOk(Step(n, Deliver(p, i)), p)
  {
    assert LinkedOk(n, p);
  }

  lemma LinksStep(n: Net, e: Event)
    requires LinksOk(n) && Enabled(n, e)
    ensures LinksOk(Step(n, e))
  {
    if e.Reconcile? || e.Lookup? {
      forall p | p in n.senders ensures LinkedOk(Step(n, e), p) { assert LinkedOk(n, p); }
    } else {
      match e {
        case SendHere(p, k) => SendLinked(n, p, k);
        case Deliver(p, i) => DeliverLinked(n, p, i);
        case Join(p) => assert LinkOk(Step(n, e).links[p], n.senders[p]);
        case _ => SenderLinked(n, e);
      }
      Moves(n, e);
      OnlyPeerLinked(n, Step(n, e), e.p);
    }
  }

  lemma OnlyPeerOrdered(n: Net, n': Net, p: string)
    requires Ordered(n) && OnlyMoves(n, n', p) && OrderedOk(n', p)
    ensures Ordered(n')
  {
    forall q | q in n'.senders ensures OrderedOk(n', q) {
      if q != p {
        assert OrderedOk(n, q);
      }
    }
  }

  lemma {:induction false} NothingDue(casts: seq<Cast>, newest: set<string>)
    requires forall k :: 0 <= k < |casts| ==> !casts[k].due
    ensures FinallyTold(casts, newest) == newest
  {
    if casts != [] {
      NothingDue(casts[..|casts| - 1], newest);
    }
  }

  /** The first broadcast that is due writes. */
  lemma {:induction false} FinallyToldSend(casts: seq<Cast>, k: nat, newest: set<string>)
    requires k < |casts| && casts[k].due && forall j :: 0 <= j < k ==> !casts[j].due
    ensures FinallyTold(casts[k := Cast(casts[k].roles, false)], casts[k].roles) == FinallyTold(casts, newest)
  {
    var last, after := |casts| - 1, casts[k := Cast(casts[k].roles, false)];
    if k == last {
      assert after[..last] == casts[..last];
      NothingDue(casts[..last], casts[k].roles);
    } else if !casts[last].due {
      assert after[..last] == casts[..last][k := Cast(casts[k].roles, false)];
      FinallyToldSend(casts[..last], k, newest);
    }
  }

  /** A broadcast that owes nothing ends. */
  lemma {:induction false} FinallyToldEnd(casts: seq<Cast>, k: nat, newest: set<string>)
    requires k < |casts| && !casts[k].due
    ensures FinallyTold(casts[..k] + casts[k + 1..], newest) == FinallyTold(casts, newest)
  {
    var last, after := |casts| - 1, casts[..k] + casts[k + 1..];
    if k == last {
      assert after == casts[..last];
    } else {
      assert after[|after| - 1] == casts[last];
      if !casts[last].due {
        assert after[..|after| - 1] == casts[..last][..k] + casts[..last][k + 1..];
        FinallyToldEnd(casts[..last], k, newest);
      }
    }
  }

  lemma JoinOrdered(n: Net, p: string)
    requires LinksOk(n) && Enabled(n, Join(p))
    ensures OrderedOk(Step(n, Join(p)), p)
  {
    assert LinkedOk(n, p);
    NothingDue(n.senders[p].casts, n.senders[p].active);
  }

  lemma BeginOrdered(n: Net, p: string)
    requires n.links.Keys <= n.senders.Keys && Enabled(n, BeginCast(p))
    ensures OrderedOk(Step(n, BeginCast(p)), p)
  {
  }

  lemma SendOrdered(n: Net, p: string, k: nat)
    requires n.links.Keys <= n.senders.Keys && p in n.senders && OrderedOk(n, p)
    requires Enabled(n, SendHere(p, k)) && Orderly(n, SendHere(p, k))
    ensures OrderedOk(Step(n, SendHere(p, k)), p)
  {
    FinallyToldSend(n.senders[p].casts, k, Newest(n.links[p]));
  }

  lemma EndOrdered(n: Net, p: string, k: nat)
    requires n.links.Keys <= n.senders.Keys && p in n.senders && OrderedOk(n, p) && Enabled(n, EndCast(p, k))
    ensures OrderedOk(Step(n, EndCast(p, k)), p)
  {
    if p in n.links {
      FinallyToldEnd(n.senders[p].casts, k, Newest(n.links[p]));
    }
  }

  lemma PeerOrdered(n: Net, e: Event)
    requires LinksOk(n) && Ordered(n) && Enabled(n, e) && Orderly(n, e)
    requires !e.Reconcile? && !e.Lookup?
    ensures OrderedOk(Step(n, e), e.p)
  {
    assert e.p in n.senders ==> OrderedOk(n, e.p);
    match e
    case Join(p) => JoinOrdered(n, p);
    case BeginCast(p) => BeginOrdered(n, p);
    case SendHere(p, k) => SendOrdered(n, p, k);
    case EndCast(p, k) => EndOrdered(n, p, k);
    case _ =>
  }

  /** The only step that needs broadcasts to write in order. */
  lemma OrderedStep(n: Net, e: Event)
    requires LinksOk(n) && Ordered(n) && Enabled(n, e) && Orderly(n, e)
    ensures Ordered(Step(n, e))
  {
    if e.Reconcile? || e.Lookup? {
      forall p | p in n.senders ensures OrderedOk(Step(n, e), p) { assert OrderedOk(n, p); }
    } else {
      PeerOrdered(n, e);
      Moves(n, e);
      OnlyPeerOrdered(n, Step(n, e), e.p);
    }
  }

  // ---- every step keeps it: the receiver ----

  lemma IndexStep(n: Net, e: Event)
    requires Consistent(n) && Enabled(n, e)
    ensures IndexOk(Step(n, e))
  {
    match e
    case Join(p) => IndexJoin(n, p);
    case SendHere(p, k) => IndexSend(n, p, k);
    case Deliver(p, i) => IndexDeliver(n, p, i);
    case Reconcile(k) => IndexReconcile(n, k);
    case Lookup(name) => IndexLookup(n, name);
    case _ => forall q | q in n.links ensures UnitOk(Step(n, e), q) { assert UnitOk(n, q); }
  }

  lemma LiveIsLinked(n: Net, id: string)
    requires IndexOk(n) && id in n.ix.live
    ensures id in n.links
  {
    assert UnitOk(n, n.ix.live[id]);
  }

  lemma IxStep(ix: M.Index<string>, e: M.Event<string>)
    requires IxOk(ix) && M.Enabled(ix, e) && (e.Connect? || e.Update? || e.Run? || e.Lookup?)
    ensures IxOk(M.Step(ix, e))
  {
    M.StepKeeps(ix, e);
  }

  lemma IndexJoin(n: Net, p: string)
    requires Consistent(n) && Enabled(n, Join(p))
    ensures IndexOk(Step(n, Join(p)))
  {
    if p in n.ix.live {
      LiveIsLinked(n, p);
    }
    IxStep(n.ix, M.Connect(p, p, n.senders[p].active));
    var n' := Step(n, Join(p));
    forall q | q in n'.links ensures UnitOk(n', q) {
      if q != p {
        assert UnitOk(n, q);
      }
    }
  }

  lemma IndexSend(n: Net, p: string, k: nat)
    requires Consistent(n) && Enabled(n, SendHere(p, k))
    ensures IndexOk(Step(n, SendHere(p, k)))
  {
    assert LinkedOk(n, p);
    forall q | q in n.links ensures UnitOk(Step(n, SendHere(p, k)), q) {
      assert UnitOk(n, q);
    }
  }

  lemma IndexDeliver(n: Net, p: string, i: nat)
    requires Consistent(n) && Enabled(n, Deliver(p, i))
    ensures IndexOk(Step(n, Deliver(p, i)))
  {
    if i <= n.links[p].last {
      StaleDelivery(n, p, i);
    } else {
      FreshDelivery(n, p, i);
    }
  }

  lemma StaleDelivery(n: Net, p: string, i: nat)
    requires Consistent(n) && Enabled(n, Deliver(p, i)) && i <= n.links[p].last
    ensures IndexOk(Step(n, Deliver(p, i)))
  {
    forall q | q in n.links ensures UnitOk(Step(n, Deliver(p, i)), q) {
      assert UnitOk(n, q);
    }
  }

  lemma FreshDelivery(n: Net, p: string, i: nat)
    requires Consistent(n) && Enabled(n, Deliver(p, i)) && i > n.links[p].last
    ensures IndexOk(Step(n, Deliver(p, i)))
  {
    IxStep(n.ix, M.Update(p, n.links[p].sent[i]));
    forall q | q in n.links ensures UnitOk(Step(n, Deliver(p, i)), q) {
      assert UnitOk(n, q);
    }
  }

  /** A step of the index that touches no unit. */
  lemma SameUnits(n: Net, n': Net)
    requires IndexOk(n) && IxOk(n'.ix) && n'.links == n.links
    requires n'.ix.live == n.ix.live && n'.ix.recs == n.ix.recs && n'.ix.closed == n.ix.closed
    ensures IndexOk(n')
  {
    forall q | q in n.links ensures UnitOk(n', q) {
      assert UnitOk(n, q);
    }
  }

  lemma IndexReconcile(n: Net, k: nat)
    requires IndexOk(n) && k < |n.ix.pending|
    ensures IndexOk(Step(n, Reconcile(k)))
  {
    IxStep(n.ix, M.Run(k));
    SameUnits(n, Step(n, Reconcile(k)));
  }

  lemma IndexLookup(n: Net, name: string)
    requires IndexOk(n)
    ensures IndexOk(Step(n, Lookup(name)))
  {
    IxStep(n.ix, M.Lookup(name));
    SameUnits(n, Step(n, Lookup(name)));
  }

  // ---- runs ----

  predicate Legal(n: Net, es: seq<Event>)
    decreases |es|
  {
    es != [] ==> Enabled(n, es[0]) && Legal(Step(n, es[0]), es[1..])
  }

  predicate InOrder(n: Net, es: seq<Event>)
    requires Legal(n, es)
    decreases |es|
  {
    es != [] ==> Orderly(n, es[0]) && InOrder(Step(n, es[0]), es[1..])
  }

  function Steps(n: Net, es: seq<Event>): Net
    requires Legal(n, es)
    decreases |es|
  {
    if es == [] then n else Steps(Step(n, es[0]), es[1..])
  }

  lemma ConsistentStep(n: Net, e: Event)
    requires Consistent(n) && Enabled(n, e)
    ensures Consistent(Step(n, e))
  {
    LinksStep(n, e);
    IndexStep(n, e);
  }

  lemma {:induction false} StepsConsistent(n: Net, es: seq<Event>)
    requires Consistent(n) && Legal(n, es)
    ensures Consistent(Steps(n, es))
    decreases |es|
  {
    if es != [] {
      ConsistentStep(n, es[0]);
      StepsConsistent(Step(n, es[0]), es[1..]);
    }
  }

  lemma {:induction false} StepsOrdered(n: Net, es: seq<Event>)
    requires Consistent(n) && Ordered(n) && Legal(n, es) && InOrder(n, es)
    ensures Ordered(Steps(n, es))
    decreases |es|
  {
    if es != [] {
      ConsistentStep(n, es[0]);
      OrderedStep(n, es[0]);
      StepsOrdered(Step(n, es[0]), es[1..]);
    }
  }

  // ---- convergence ----

  predicate Idle(s: Sender) {
    s.waiting == 0 && s.casts == []
  }

  predicate Delivered(l: Link) {
    l.top == 0 || l.top in l.delivered
  }

  /** Nothing left to do: no broadcast waiting or under way, the newest message of every sender delivered
      (older ones may be lost), no reconciliation pending. */
  predicate Quiet(n: Net) {
    && (forall p :: p in n.senders ==> Idle(n.senders[p]))
    && (forall p :: p in n.links ==> Delivered(n.links[p]))
    && n.ix.pending == []
  }

  lemma ToldIsNewest(n: Net, p: string)
    requires Consistent(n) && Quiet(n) && p in n.links
    ensures Told(n.links[p]) == Newest(n.links[p])
  {
    assert LinkedOk(n, p) && Delivered(n.links[p]);
  }

  lemma HoldsNewest(n: Net, name: string)
    requires Consistent(n) && Quiet(n) && name in n.ix.dests
    ensures n.ix.dests[name].units == set p | p in n.links && name in Newest(n.links[p])
    ensures n.ix.dests[name].ready <==> exists p :: p in n.links && name in Newest(n.links[p])
  {
    forall p | p in n.links ensures p in n.ix.dests[name].units <==> name in Newest(n.links[p]) {
      ToldIsNewest(n, p);
      assert UnitOk(n, p) && M.Live(n.ix, p);
    }
  }

  /** What `Destination(name)` of the receiver returns. */
  function Dest(n: Net, name: string): M.Dest<string> {
    Step(n, Lookup(name)).ix.dests[name]
  }

  /** The joined peers with a role active. */
  function Serving(n: Net, name: string): set<string>
    requires n.links.Keys <= n.senders.Keys
  {
    set p | p in n.links && name in n.senders[p].active
  }

  lemma DestHoldsNewest(n: Net, name: string)
    requires Consistent(n) && Quiet(n)
    ensures Dest(n, name).units == set p | p in n.links && name in Newest(n.links[p])
    ensures Dest(n, name).ready <==> Dest(n, name).units != {}
  {
    ConsistentStep(n, Lookup(name));
    HoldsNewest(Step(n, Lookup(name)), name);
  }

  /** Every run, overlapping broadcasts included: once it is quiet, a destination holds exactly the joined peers
      whose message with the highest number lists its name. So it agrees with the active roles exactly when
      those messages do. */
  lemma NewestWins(es: seq<Event>, name: string)
    requires Legal(FRESH, es) && Quiet(Steps(FRESH, es))
    ensures var n := Steps(FRESH, es);
            && n.links.Keys <= n.senders.Keys
            && Dest(n, name).units == (set p | p in n.links && name in Newest(n.links[p]))
            && (Dest(n, name).units == Serving(n, name)
                <==> forall p :: p in n.links ==> (name in Newest(n.links[p]) <==> name in n.senders[p].active))
  {
    StepsConsistent(FRESH, es);
    DestHoldsNewest(Steps(FRESH, es), name);
    NewestAgreesIff(Steps(FRESH, es), name);
  }

  lemma NewestAgreesIff(n: Net, name: string)
    requires n.links.Keys <= n.senders.Keys
    ensures (set p | p in n.links && name in Newest(n.links[p])) == Serving(n, name)
            <==> forall p :: p in n.links ==> (name in Newest(n.links[p]) <==> name in n.senders[p].active)
  {
    var told := set p | p in n.links && name in Newest(n.links[p]);
    if told == Serving(n, name) {
      forall p | p in n.links ensures name in Newest(n.links[p]) <==> name in n.senders[p].active {
        assert p in told <==> p in Serving(n, name);
      }
    }
  }

  lemma QuietConverges(n: Net, name: string)
    requires Consistent(n) && Ordered(n) && Quiet(n)
    ensures Dest(n, name).units == Serving(n, name) && (Dest(n, name).ready <==> Serving(n, name) != {})
  {
    DestHoldsNewest(n, name);
    forall p | p in n.links ensures Newest(n.links[p]) == n.senders[p].active {
      assert OrderedOk(n, p) && Idle(n.senders[p]);
    }
  }

  /** Convergence: with broadcasts that write in the order they began, once everything is quiet, `Destination(name)`
      of the receiver holds exactly the joined peers with that role active, and is ready exactly when there is one,
      whatever the overlap of the broadcasts and the order, the duplication and the loss of older messages. */
  lemma Convergence(es: seq<Event>, name: string)
    requires Legal(FRESH, es) && InOrder(FRESH, es) && Quiet(Steps(FRESH, es))
    ensures var n := Steps(FRESH, es);
            && n.links.Keys <= n.senders.Keys
            && Dest(n, name).units == Serving(n, name) && (Dest(n, name).ready <==> Serving(n, name) != {})
  {
    StepsConsistent(FRESH, es);
    StepsOrdered(FRESH, es);
    QuietConverges(Steps(FRESH, es), name);
  }

  /** The last `Switch` of a role of a peer, or `was` when there is none. */
  function LastSwitch(es: seq<Event>, p: string, role: string, was: bool): bool
    decreases |es|
  {
    if es == [] then was
    else if es[0].Switch? && es[0].p == p && es[0].role == role then LastSwitch(es[1..], p, role, es[0].on)
    else LastSwitch(es[1..], p, role, was)
  }

  predicate HasRole(n: Net, p: string, role: string) {
    p in n.senders && role in n.senders[p].active
  }

  lemma SwitchedStep(n: Net, e: Event, p: string, role: string)
    requires n.links.Keys <= n.senders.Keys && Enabled(n, e)
    ensures HasRole(Step(n, e), p, role) <==>
            if e.Switch? && e.p == p && e.role == role then e.on else HasRole(n, p, role)
  {
    if e.Switch? && e.p == p {
      SwitchSets(n.senders[p], e.role, e.on);
    }
  }

  lemma {:induction false} ActiveIsLastSwitch(n: Net, es: seq<Event>, p: string, role: string)
    requires Consistent(n) && Legal(n, es)
    ensures HasRole(Steps(n, es), p, role) <==> LastSwitch(es, p, role, HasRole(n, p, role))
    decreases |es|
  {
    if es != [] {
      SwitchedStep(n, es[0], p, role);
      ConsistentStep(n, es[0]);
      ActiveIsLastSwitch(Step(n, es[0]), es[1..], p, role);
    }
  }

  lemma {:induction false} JoinedIsLinked(n: Net, es: seq<Event>, p: string)
    requires Consistent(n) && Legal(n, es)
    ensures p in Steps(n, es).links <==> p in n.links || Join(p) in es
    decreases |es|
  {
    if es != [] {
      ConsistentStep(n, es[0]);
      JoinedIsLinked(Step(n, es[0]), es[1..], p);
      assert es == [es[0]] + es[1..];
      assert Join(p) in es <==> es[0] == Join(p) || Join(p) in es[1..];
    }
  }

  /** Convergence, told by the events alone: a quiet destination holds a peer exactly when it has joined and its last
      switch of that role was on, and is ready exactly when there is one. */
  lemma LastSwitchDecides(es: seq<Event>, name: string, p: string)
    requires Legal(FRESH, es) && InOrder(FRESH, es) && Quiet(Steps(FRESH, es))
    ensures var d := Dest(Steps(FRESH, es), name);
            && (p in d.units <==> Join(p) in es && LastSwitch(es, p, name, false))
            && (Join(p) in es && LastSwitch(es, p, name, false) ==> d.ready)
            && (d.ready ==> exists q :: Join(q) in es && LastSwitch(es, q, name, false))
  {
    var n := Steps(FRESH, es);
    Convergence(es, name);
    JoinedIsLinked(FRESH, es, p);
    ActiveIsLastSwitch(FRESH, es, p, name);
    if Dest(n, name).ready {
      var q :| q in Serving(n, name);
      JoinedIsLinked(FRESH, es, q);
      ActiveIsLastSwitch(FRESH, es, q, name);
    }
  }

  // ---- quiet is always within reach ----

  /** Steps that neither bring a peer nor change a role: broadcasts, deliveries and reconciliations go on. */
  predicate IsSettling(e: Event) {
    e.BeginCast? || e.SendHere? || e.EndCast? || e.Deliver? || e.Reconcile?
  }

  ghost predicate Settles(n: Net, es: seq<Event>, n': Net) {
    Legal(n, es) && InOrder(n, es) && Steps(n, es) == n' && forall i :: 0 <= i < |es| ==> IsSettling(es[i])
  }

  lemma SettlesCons(n: Net, e: Event, es: seq<Event>, n': Net)
    requires Enabled(n, e) && Orderly(n, e) && IsSettling(e) && Settles(Step(n, e), es, n')
    ensures Settles(n, [e] + es, n')
  {
    assert ([e] + es)[1..] == es;
  }

  lemma {:induction false} SettlesConcat(n: Net, es: seq<Event>, m: Net, more: seq<Event>, n': Net)
    requires Settles(n, es, m) && Settles(m, more, n')
    ensures Settles(n, es + more, n')
    decreases |es|
  {
    if es == [] {
      assert es + more == more;
    } else {
      forall i | 0 <= i < |es[1..]| ensures IsSettling(es[1..][i]) { assert es[1..][i] == es[i + 1]; }
      SettlesConcat(Step(n, es[0]), es[1..], m, more, n');
      SettlesCons(n, es[0], es[1..] + more, n');
      assert [es[0]] + (es[1..] + more) == es + more;
    }
  }

  lemma {:induction false} RunConcat(n: Net, es: seq<Event>, more: seq<Event>)
    requires Legal(n, es) && InOrder(n, es) && Legal(Steps(n, es), more) && InOrder(Steps(n, es), more)
    ensures Legal(n, es + more) && InOrder(n, es + more) && Steps(n, es + more) == Steps(Steps(n, es), more)
    decreases |es|
  {
    if es == [] {
      assert es + more == more;
    } else {
      RunConcat(Step(n, es[0]), es[1..], more);
      assert (es + more)[1..] == es[1..] + more && (es + more)[0] == es[0];
    }
  }

  /** The end of a run in which broadcasts write in order. */
  ghost predicate Reached(n: Net) {
    exists es :: Legal(FRESH, es) && InOrder(FRESH, es) && Steps(FRESH, es) == n
  }

  lemma ReachedInvariant(n: Net)
    requires Reached(n)
    ensures Consistent(n) && Ordered(n)
  {
    var es :| Legal(FRESH, es) && InOrder(FRESH, es) && Steps(FRESH, es) == n;
    StepsConsistent(FRESH, es);
    StepsOrdered(FRESH, es);
  }

  lemma ReachedStep(n: Net, e: Event)
    requires Reached(n) && Enabled(n, e) && Orderly(n, e)
    ensures Reached(Step(n, e))
  {
    var es :| Legal(FRESH, es) && InOrder(FRESH, es) && Steps(FRESH, es) == n;
    assert [e][1..] == [];
    RunConcat(FRESH, es, [e]);
  }

  /** The next thing a sender has to do. */
  function NextMove(p: string, s: Sender): Event {
    if s.casts == [] then BeginCast(p) else if s.casts[0].due then SendHere(p, 0) else EndCast(p, 0)
  }

  function Dues(s: Sender): nat {
    if s.casts != [] && s.casts[0].due then 1 else 0
  }

  lemma MoveEnabled(n: Net, p: string)
    requires Reached(n) && p in n.senders && !Idle(n.senders[p])
    ensures var e := NextMove(p, n.senders[p]); Enabled(n, e) && Orderly(n, e) && IsSettling(e)
  {
    ReachedInvariant(n);
    assert LinkedOk(n, p);
  }

  lemma MoveHelps(n: Net, p: string)
    requires p in n.senders && !Idle(n.senders[p]) && Enabled(n, NextMove(p, n.senders[p]))
    ensures var n' := Step(n, NextMove(p, n.senders[p]));
            && n'.senders.Keys == n.senders.Keys
            && (forall q :: q in n.senders && q != p ==> n'.senders[q] == n.senders[q])
            && var s, s' := n.senders[p], n'.senders[p];
               s'.waiting < s.waiting
               || (s'.waiting == s.waiting
                   && (|s'.casts| < |s.casts| || (|s'.casts| == |s.casts| && Dues(s') < Dues(s))))
  {
  }

  /** One sender finishes its broadcasts: fewer are waiting, or under way, or still to be sent, at every step. */
  lemma {:induction false} SettleSender(n: Net, p: string) returns (es: seq<Event>, n': Net)
    requires Reached(n) && p in n.senders
    ensures Settles(n, es, n') && Reached(n')
    ensures n'.senders.Keys == n.senders.Keys && Idle(n'.senders[p])
    ensures forall q :: q in n.senders && q != p ==> n'.senders[q] == n.senders[q]
    decreases n.senders[p].waiting, |n.senders[p].casts|, Dues(n.senders[p])
  {
    if Idle(n.senders[p]) {
      es, n' := [], n;
    } else {
      var e := NextMove(p, n.senders[p]);
      MoveEnabled(n, p);
      MoveHelps(n, p);
      ReachedStep(n, e);
      es, n' := SettleSender(Step(n, e), p);
      SettlesCons(n, e, es, n');
      es := [e] + es;
    }
  }

  lemma {:induction false} SettleSenders(n: Net, todo: set<string>) returns (es: seq<Event>, n': Net)
    requires Reached(n) && todo <= n.senders.Keys
    requires forall p :: p in n.senders && p !in todo ==> Idle(n.senders[p])
    ensures Settles(n, es, n') && Reached(n')
    ensures forall p :: p in n'.senders ==> Idle(n'.senders[p])
    decreases |todo|
  {
    if todo == {} {
      es, n' := [], n;
    } else {
      var p :| p in todo;
      var first, m := SettleSender(n, p);
      var rest;
      rest, n' := SettleSenders(m, todo - {p});
      SettlesConcat(n, first, m, rest, n');
      es := first + rest;
    }
  }

  lemma DeliveryEnabled(n: Net, p: string)
    requires Reached(n) && p in n.links && !Delivered(n.links[p])
    ensures Enabled(n, Deliver(p, n.links[p].top))
  {
    ReachedInvariant(n);
    assert LinkedOk(n, p);
  }

  lemma DeliveryHelps(n: Net, p: string)
    requires p in n.links && Enabled(n, Deliver(p, n.links[p].top))
    ensures var n' := Step(n, Deliver(p, n.links[p].top));
            && n'.senders == n.senders && n'.links.Keys == n.links.Keys && Delivered(n'.links[p])
            && forall q :: q in n.links && q != p ==> n'.links[q] == n.links[q]
  {
  }

  /** The newest message of one link is delivered. */
  lemma SettleLink(n: Net, p: string) returns (es: seq<Event>, n': Net)
    requires Reached(n) && p in n.links
    ensures Settles(n, es, n') && Reached(n')
    ensures n'.senders == n.senders && n'.links.Keys == n.links.Keys && Delivered(n'.links[p])
    ensures forall q :: q in n.links && q != p ==> n'.links[q] == n.links[q]
  {
    if Delivered(n.links[p]) {
      es, n' := [], n;
    } else {
      var e := Deliver(p, n.links[p].top);
      DeliveryEnabled(n, p);
      DeliveryHelps(n, p);
      ReachedStep(n, e);
      es, n' := [e], Step(n, e);
      assert [e] + [] == [e];
      SettlesCons(n, e, [], n');
    }
  }

  lemma {:induction false} SettleLinks(n: Net, todo: set<string>) returns (es: seq<Event>, n': Net)
    requires Reached(n) && todo <= n.links.Keys
    requires forall p :: p in n.links && p !in todo ==> Delivered(n.links[p])
    ensures Settles(n, es, n') && Reached(n')
    ensures n'.senders == n.senders && forall p :: p in n'.links ==> Delivered(n'.links[p])
    decreases |todo|
  {
    if todo == {} {
      es, n' := [], n;
    } else {
      var p :| p in todo;
      var first, m := SettleLink(n, p);
      var rest;
      rest, n' := SettleLinks(m, todo - {p});
      SettlesConcat(n, first, m, rest, n');
      es := first + rest;
    }
  }

  lemma ReconcileHelps(n: Net)
    requires Reached(n) && n.ix.pending != []
    ensures |Step(n, Reconcile(0)).ix.pending| < |n.ix.pending|
  {
    ReachedInvariant(n);
    assert n.ix.pending[0] in n.ix.recs;
  }

  lemma {:induction false} SettleIndex(n: Net) returns (es: seq<Event>, n': Net)
    requires Reached(n)
    ensures Settles(n, es, n') && Reached(n')
    ensures n'.senders == n.senders && n'.links == n.links && n'.ix.pending == []
    decreases |n.ix.pending|
  {
    if n.ix.pending == [] {
      es, n' := [], n;
    } else {
      ReconcileHelps(n);
      ReachedStep(n, Reconcile(0));
      es, n' := SettleIndex(Step(n, Reconcile(0)));
      SettlesCons(n, Reconcile(0), es, n');
      es := [Reconcile(0)] + es;
    }
  }

  /** Settling changes neither who has joined nor what is active. */
  ghost predicate SameRoles(n: Net, n': Net) {
    && n'.senders.Keys == n.senders.Keys && n'.links.Keys == n.links.Keys
    && forall p :: p in n.senders ==> n'.senders[p].active == n.senders[p].active
  }

  lemma {:induction false} SettlingKeepsRoles(n: Net, es: seq<Event>, n': Net)
    requires Settles(n, es, n')
    ensures SameRoles(n, n')
    decreases |es|
  {
    if es != [] {
      assert IsSettling(es[0]);
      forall i | 0 <= i < |es[1..]| ensures IsSettling(es[1..][i]) { assert es[1..][i] == es[i + 1]; }
      assert SameRoles(n, Step(n, es[0]));
      SettlingKeepsRoles(Step(n, es[0]), es[1..], n');
    }
  }

  lemma SettleAll(n: Net) returns (es: seq<Event>, n': Net)
    requires Reached(n)
    ensures Settles(n, es, n') && Reached(n') && Quiet(n') && SameRoles(n, n')
  {
    var e1, m1 := SettleSenders(n, n.senders.Keys);
    var e2, m2 := SettleLinks(m1, m1.links.Keys);
    var e3, m3 := SettleIndex(m2);
    SettlesConcat(n, e1, m1, e2, m2);
    SettlesConcat(n, e1 + e2, m2, e3, m3);
    es, n' := (e1 + e2) + e3, m3;
    SettlingKeepsRoles(n, es, n');
  }

  /** From every run in which broadcasts write in order, going on with broadcasts, deliveries and reconciliations
      alone leads to a quiet state, where every destination holds exactly the peers that were serving. */
  lemma Settling(es: seq<Event>) returns (more: seq<Event>)
    requires Legal(FRESH, es) && InOrder(FRESH, es)
    ensures forall i :: 0 <= i < |more| ==> IsSettling(more[i])
    ensures Legal(FRESH, es + more) && InOrder(FRESH, es + more) && Quiet(Steps(FRESH, es + more))
    ensures Steps(FRESH, es).links.Keys <= Steps(FRESH, es).senders.Keys
    ensures forall name :: Dest(Steps(FRESH, es + more), name).units == Serving(Steps(FRESH, es), name)
  {
    var n, n' := Steps(FRESH, es), FRESH;
    more, n' := SettleAll(n);
    RunConcat(FRESH, es, more);
    ReachedInvariant(n);
    forall name ensures Dest(n', name).units == Serving(n, name) {
      SettledDest(n, n', name);
    }
  }

  lemma SettledDest(n: Net, n': Net, name: string)
    requires n.links.Keys <= n.senders.Keys && Reached(n') && Quiet(n') && SameRoles(n, n')
    ensures Dest(n', name).units == Serving(n, name)
  {
    ReachedInvariant(n');
    QuietConverges(n', name);
    assert Serving(n', name) == Serving(n, name);
  }

  // ---- two broadcasts at once ----

  /** The one peer `p`, with its link. */
  function Lone(p: string, s: Sender, l: Link, ix: M.Index<string>): Net {
    Net(map[p := s], map[p := l], ix)
  }

  function Known(p: string, roles: set<string>, pending: seq<string>): M.Index<string> {
    M.Index(map[p := p], map[p := M.UnitRec(p, roles)], map[], pending, {})
  }

  ghost predicate Leads(n: Net, es: seq<Event>, n': Net) {
    Legal(n, es) && Steps(n, es) == n'
  }

  lemma {:induction false} Then(n: Net, es: seq<Event>, m: Net, e: Event)
    requires Leads(n, es, m) && Enabled(m, e)
    ensures Leads(n, es + [e], Step(m, e))
    decreases |es|
  {
    if es == [] {
      assert es + [e] == [e];
    } else {
      Then(Step(n, es[0]), es[1..], m, e);
      assert (es + [e])[1..] == es[1..] + [e];
    }
  }

  lemma LoneSender(p: string, s: Sender, l: Link, ix: M.Index<string>, e: Event)
    requires Enabled(Lone(p, s, l, ix), e) && (e.Switch? || e.BeginCast? || e.EndCast?) && e.p == p
    ensures Step(Lone(p, s, l, ix), e) ==
            Lone(p, SenderStep(s, e, true), l, ix)
  {
  }

  lemma LoneSends(p: string, s: Sender, l: Link, ix: M.Index<string>, k: nat)
    requires k < |s.casts| && s.casts[k].due
    ensures var i := s.session + 1;
            Step(Lone(p, s, l, ix), SendHere(p, k)) ==
            Lone(p, s.(session := i, casts := s.casts[k := Cast(s.casts[k].roles, false)]),
                 l.(sent := l.sent[i := s.casts[k].roles], top := i), ix)
  {
  }

  lemma Joins(p: string) returns (es: seq<Event>)
    ensures Leads(FRESH, es, Lone(p, Sender({}, 0, 0, []), Link({}, map[], 0, {}, 0), Known(p, {}, [p])))
  {
    Then(FRESH, [], FRESH, Appear(p));
    var m := Step(FRESH, Appear(p));
    assert [] + [Appear(p)] == [Appear(p)];
    Then(FRESH, [Appear(p)], m, Join(p));
    es := [Appear(p)] + [Join(p)];
    assert Step(m, Join(p)) == Lone(p, Sender({}, 0, 0, []), Link({}, map[], 0, {}, 0), Known(p, {}, [p]));
  }

  /** The peer joins, creates a role and disables it, and both broadcasts have begun. */
  lemma OverlapBegins(p: string, role: string) returns (es: seq<Event>)
    ensures Leads(FRESH, es, Lone(p, Sender({}, 0, 0, [Cast({role}, true), Cast({}, true)]),
                                  Link({}, map[], 0, {}, 0), Known(p, {}, [p])))
  {
    var l, ix := Link({}, map[], 0, {}, 0), Known(p, {}, [p]);
    var a, b := Cast({role}, true), Cast({}, true);
    es := Joins(p);
    es := Extend(p, es, Sender({}, 0, 0, []), l, ix, Switch(p, role, true));
    assert {} + {role} == {role};
    es := Extend(p, es, Sender({role}, 0, 1, []), l, ix, BeginCast(p));
    assert [] + [a] == [a];
    es := Extend(p, es, Sender({role}, 0, 0, [a]), l, ix, Switch(p, role, false));
    assert {role} - {role} == {};
    es := Extend(p, es, Sender({}, 0, 1, [a]), l, ix, BeginCast(p));
    assert [a] + [b] == [a, b];
  }

  lemma Extend(p: string, es: seq<Event>, s: Sender, l: Link, ix: M.Index<string>, e: Event) returns (es': seq<Event>)
    requires Leads(FRESH, es, Lone(p, s, l, ix)) && Enabled(Lone(p, s, l, ix), e)
    requires (e.Switch? || e.BeginCast? || e.EndCast?) && e.p == p
    ensures Leads(FRESH, es',
                  Lone(p, SenderStep(s, e, true), l, ix))
  {
    Then(FRESH, es, Lone(p, s, l, ix), e);
    LoneSender(p, s, l, ix, e);
    es' := es + [e];
  }

  /** The second broadcast writes first. */
  lemma OverlapSends(p: string, role: string) returns (es: seq<Event>)
    ensures Leads(FRESH, es, Lone(p, Sender({}, 2, 0, []),
                                  Link({}, map[1 := {}, 2 := {role}], 2, {}, 0), Known(p, {}, [p])))
  {
    es := OverlapBegins(p, role);
    var ix, a, b := Known(p, {}, [p]), Cast({role}, false), Cast({}, false);
    var s0, l0 := Sender({}, 0, 0, [Cast({role}, true), Cast({}, true)]), Link({}, map[], 0, {}, 0);
    var s1, l1 := Sender({}, 1, 0, [Cast({role}, true), b]), Link({}, map[1 := {}], 1, {}, 0);
    var l2 := Link({}, map[1 := {}, 2 := {role}], 2, {}, 0);
    Then(FRESH, es, Lone(p, s0, l0, ix), SendHere(p, 1)); es := es + [SendHere(p, 1)];
    LoneSends(p, s0, l0, ix, 1);
    assert s0.casts[1 := b] == s1.casts;
    Then(FRESH, es, Lone(p, s1, l1, ix), SendHere(p, 0)); es := es + [SendHere(p, 0)];
    LoneSends(p, s1, l1, ix, 0);
    assert s1.casts[0 := a] == [a, b] && l1.sent[2 := {role}] == l2.sent;
    es := Extend(p, es, Sender({}, 2, 0, [a, b]), l2, ix, EndCast(p, 1));
    assert [a, b][..1] + [a, b][2..] == [a];
    es := Extend(p, es, Sender({}, 2, 0, [a]), l2, ix, EndCast(p, 0));
    assert [a][..0] + [a][1..] == [];
  }

  lemma OverlapArrives(p: string, role: string) returns (es: seq<Event>)
    ensures Leads(FRESH, es, Lone(p, Sender({}, 2, 0, []),
                                  Link({}, map[1 := {}, 2 := {role}], 2, {2}, 2), Known(p, {role}, [])))
  {
    es := OverlapSends(p, role);
    var s, sent := Sender({}, 2, 0, []), map[1 := {}, 2 := {role}];
    var m, e := Lone(p, s, Link({}, sent, 2, {}, 0), Known(p, {}, [p])), Reconcile(0);
    Then(FRESH, es, m, e); m, es, e := Step(m, e), es + [e], Deliver(p, 2);
    assert m == Lone(p, s, Link({}, sent, 2, {}, 0), Known(p, {}, []));
    Then(FRESH, es, m, e); m, es, e := Step(m, e), es + [e], Reconcile(0);
    assert m.ix.recs == map[p := M.UnitRec(p, {role})];
    assert m.links[p].delivered == {2} && m.links[p].sent == sent;
    assert m == Lone(p, s, Link({}, sent, 2, {2}, 2), Known(p, {role}, [p]));
    Then(FRESH, es, m, e); m, es := Step(m, e), es + [e];
    assert m == Lone(p, s, Link({}, sent, 2, {2}, 2), Known(p, {role}, []));
  }

  /** Convergence needs broadcasts that write in order. Creating a role and disabling it starts two of them;
      when the second takes its number first, everything can be delivered and reconciled, and still the
      receiver is ready for a role nobody serves. */
  lemma OverlapMisleads(p: string, role: string) returns (es: seq<Event>)
    ensures Legal(FRESH, es) && Quiet(Steps(FRESH, es))
    ensures var n := Steps(FRESH, es);
            && (forall q :: q in n.senders ==> n.senders[q].active == {})
            && Dest(n, role) == M.Dest({p}, true)
  {
    es := OverlapArrives(p, role);
    var ix := Known(p, {role}, []);
    assert p in ix.live && ix.live[p] == p && p in ix.recs && role in ix.recs[p].roles;
    assert M.Served(ix, role) == {p};
  }
}
