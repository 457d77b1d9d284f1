/** `addressScheme`: which unit and connection stand behind an address the peer keeps connected to. */
module Addresses {
  import opened Wrappers

  /** `unitConn`: both pointers nil, or both set. */
  datatype Entry<U, C> = Unbound | Bound(unit: U, conn: C)

  datatype Scheme<U, C(==)> = Scheme(addresses: map<string, Entry<U, C>>, conns: map<C, string>)

  function Empty<U, C>(): Scheme<U, C> {
    Scheme(map[], map[])
  }

  /** `store`: nothing when exactly one of the two is nil, where the code panics. */
  function Store<U, C>(s: Scheme<U, C>, address: string, conn: Option<C>, u: Option<U>): Option<Scheme<U, C>> {
    match (conn, u)
    case (Some(c), Some(v)) => Some(Scheme(s.addresses[address := Bound(v, c)], s.conns[c := address]))
    case (None, None) => Some(s.(addresses := s.addresses[address := Unbound]))
    case _ => None
  }

  function UnbindAddr<U, C>(s: Scheme<U, C>, address: string): Scheme<U, C> {
    if address !in s.addresses then s else
    Scheme(s.addresses[address := Unbound],
           if s.addresses[address].Bound? then s.conns - {s.addresses[address].conn} else s.conns)
  }

  predicate Has<U(==), C>(s: Scheme<U, C>, address: string, u: U) {
    address in s.addresses && s.addresses[address].Bound? && s.addresses[address].unit == u
  }

  function DeleteUnit<U(==), C>(s: Scheme<U, C>, u: U): Scheme<U, C> {
    Scheme(map a | a in s.addresses && !Has(s, a, u) :: s.addresses[a],
           s.conns - set a | a in s.addresses && Has(s, a, u) :: s.addresses[a].conn)
  }

  /** `startReconnCycle` connects to an address it knows that is not bound. */
  predicate Reconnects<U, C>(s: Scheme<U, C>, address: string) {
    address in s.addresses && s.addresses[address].Unbound?
  }

  /** What the end of a connection does here: its address, if any, is unbound and reconnected. */
  function EndOf<U, C>(s: Scheme<U, C>, c: C): Scheme<U, C> {
    if c in s.conns then UnbindAddr(s, s.conns[c]) else s
  }

  // ---- agreement of the two maps ----

  /** A connection bound to an address leads back to it. */
  ghost predicate BoundLeadsBack<U, C>(s: Scheme<U, C>) {
    forall a :: a in s.addresses && s.addresses[a].Bound? ==>
                  s.addresses[a].conn in s.conns && s.conns[s.addresses[a].conn] == a
  }

  /** A connection that leads to an address is the one bound to it. */
  ghost predicate NoStale<U, C>(s: Scheme<U, C>) {
    forall c :: c in s.conns ==>
                  s.conns[c] in s.addresses && s.addresses[s.conns[c]].Bound? && s.addresses[s.conns[c]].conn == c
  }

  /** `conn` is not the connection of another address. */
  ghost predicate NotElsewhere<U, C>(s: Scheme<U, C>, address: string, conn: C) {
    forall a :: a in s.addresses && a != address && s.addresses[a].Bound? ==> s.addresses[a].conn != conn
  }

  /** `address` is free, or bound to this connection already. */
  predicate Vacant<U, C(==)>(s: Scheme<U, C>, address: string, conn: Option<C>) {
    address in s.addresses && s.addresses[address].Bound? ==> conn == Some(s.addresses[address].conn)
  }

  lemma StoreLeadsBackIff<U, C>(s: Scheme<U, C>, address: string, conn: Option<C>, u: Option<U>)
    requires BoundLeadsBack(s) && conn.Some? == u.Some?
    ensures BoundLeadsBack(Store(s, address, conn, u).value)
            <==> (conn == None || NotElsewhere(s, address, conn.value))
  {
    var after := Store(s, address, conn, u).value;
    if BoundLeadsBack(after) && conn.Some? {
      forall a | a in s.addresses && a != address && s.addresses[a].Bound? ensures s.addresses[a].conn != conn.value {
        assert after.addresses[a] == s.addresses[a];
      }
    }
  }

  /** Storing at an address that is bound to another connection leaves that connection behind, leading to an
      address that is no longer its own. */
  lemma StoreNoStaleIff<U, C>(s: Scheme<U, C>, address: string, conn: Option<C>, u: Option<U>)
    requires BoundLeadsBack(s) && NoStale(s) && conn.Some? == u.Some?
    ensures NoStale(Store(s, address, conn, u).value) <==> Vacant(s, address, conn)
  {
    var after := Store(s, address, conn, u).value;
    if !Vacant(s, address, conn) {
      var c := s.addresses[address].conn;
      assert c in after.conns && after.conns[c] == address;
    }
  }

  /** While the maps agree, the end of a connection reconnects its address exactly when it still leads to one. */
  lemma EndReconnectsIff<U, C>(s: Scheme<U, C>, c: C, address: string)
    requires BoundLeadsBack(s) && NoStale(s) && !Reconnects(s, address)
    ensures Reconnects(EndOf(s, c), address) <==> c in s.conns && s.conns[c] == address
  {
  }

  lemma UnbindKeeps<U, C>(s: Scheme<U, C>, address: string)
    requires BoundLeadsBack(s)
    ensures BoundLeadsBack(UnbindAddr(s, address)) && (NoStale(s) ==> NoStale(UnbindAddr(s, address)))
    ensures forall a :: a in s.addresses && a != address ==> UnbindAddr(s, address).addresses[a] == s.addresses[a]
  {
  }

  /** `deleteUnit` forgets the addresses of the unit and leaves every other address and its connection alone. */
  lemma DeleteKeeps<U, C>(s: Scheme<U, C>, u: U)
    requires BoundLeadsBack(s)
    ensures BoundLeadsBack(DeleteUnit(s, u)) && (NoStale(s) ==> NoStale(DeleteUnit(s, u)))
    ensures var after := DeleteUnit(s, u);
            forall a :: a in s.addresses ==>
              if Has(s, a, u) then a !in after.addresses && s.addresses[a].conn !in after.conns
              else a in after.addresses && after.addresses[a] == s.addresses[a]
                   && (s.addresses[a].Bound? ==> s.addresses[a].conn in after.conns)
  {
  }

  /** After `deleteUnit`, a connection still leads to an address exactly when it led there before and the
      address was not bound to it and the unit. */
  lemma ResolvesAfterDeleteIff<U, C>(s: Scheme<U, C>, u: U, c: C)
    requires BoundLeadsBack(s)
    ensures c in DeleteUnit(s, u).conns
            <==> c in s.conns && !(s.conns[c] in s.addresses && s.addresses[s.conns[c]] == Bound(u, c))
  {
  }

  // ---- runs ----

  datatype Op<U, C> =
    | Bind(address: string, conn: C, unit: U)  // `store` after a connection was made
    | Reserve(address: string)                 // `store` with nil, before dialling
    | Unbind(address: string)
    | Delete(unit: U)

  function Apply<U(==), C>(s: Scheme<U, C>, op: Op<U, C>): Scheme<U, C> {
    match op
    case Bind(a, c, u) => Store(s, a, Some(c), Some(u)).value
    case Reserve(a) => Store(s, a, None, None).value
    case Unbind(a) => UnbindAddr(s, a)
    case Delete(u) => DeleteUnit(s, u)
  }

  function Run<U(==), C>(s: Scheme<U, C>, ops: seq<Op<U, C>>): Scheme<U, C>
    decreases |ops|
  {
    if ops == [] then s else Run(Apply(s, ops[0]), ops[1..])
  }

  /** Every connection is stored at most once, and it is not one of `used`. */
  ghost predicate FreshConns<U, C>(ops: seq<Op<U, C>>, used: set<C>)
    decreases |ops|
  {
    ops != [] ==>
      && (ops[0].Bind? ==> ops[0].conn !in used)
      && FreshConns(ops[1..], if ops[0].Bind? then used + {ops[0].conn} else used)
  }

  /** Nothing is stored at an address that is bound. */
  ghost predicate VacantStores<U, C>(s: Scheme<U, C>, ops: seq<Op<U, C>>)
    decreases |ops|
  {
    ops != [] ==>
      && (ops[0].Bind? || ops[0].Reserve? ==> Vacant(s, ops[0].address, None))
      && VacantStores(Apply(s, ops[0]), ops[1..])
  }

  ghost predicate Within<U, C>(s: Scheme<U, C>, used: set<C>) {
    && s.conns.Keys <= used
    && forall a :: a in s.addresses && s.addresses[a].Bound? ==> s.addresses[a].conn in used
  }

  lemma {:induction false} RunKeeps<U, C>(s: Scheme<U, C>, ops: seq<Op<U, C>>, used: set<C>)
    requires BoundLeadsBack(s) && Within(s, used) && FreshConns(ops, used)
    ensures BoundLeadsBack(Run(s, ops))
    ensures NoStale(s) && VacantStores(s, ops) ==> NoStale(Run(s, ops))
    decreases |ops|
  {
    if ops != [] {
      var op, s1 := ops[0], Apply(s, ops[0]);
      match op {
        case Bind(a, c, u) => StoreLeadsBackIff(s, a, Some(c), Some(u));
        case Reserve(a) => StoreLeadsBackIff(s, a, None, None);
        case Unbind(a) => UnbindKeeps(s, a);
        case Delete(u) => DeleteKeeps(s, u);
      }
      if NoStale(s) && VacantStores(s, ops) && (op.Bind? || op.Reserve?) {
        var c := if op.Bind? then Some(op.conn) else None;
        StoreNoStaleIff(s, op.address, c, if op.Bind? then Some(op.unit) else None);
      }
      RunKeeps(s1, ops[1..], if op.Bind? then used + {op.conn} else used);
    }
  }

  /** In every run that stores each connection once, no connection is bound to two addresses. */
  lemma OneAddressEach<U, C>(ops: seq<Op<U, C>>, a: string, b: string)
    requires FreshConns(ops, {})
    requires var s := Run(Empty(), ops);
             && a in s.addresses && b in s.addresses && a != b && s.addresses[a].Bound? && s.addresses[b].Bound?
    ensures var s := Run(Empty(), ops); s.addresses[a].conn != s.addresses[b].conn
  {
    RunKeeps(Empty(), ops, {});
  }

  /** Closing a unit by hand stops it from being reconnected: when no store hit a bound address, every
      connection that still leads to an address is bound there to another unit. */
  lemma ClosedForGood<U, C>(ops: seq<Op<U, C>>, u: U, c: C)
    requires FreshConns(ops, {}) && VacantStores(Empty(), ops)
    requires c in DeleteUnit(Run(Empty(), ops), u).conns
    ensures var after := DeleteUnit(Run(Empty(), ops), u);
            && after.conns[c] in after.addresses && after.addresses[after.conns[c]].Bound?
            && after.addresses[after.conns[c]].conn == c && after.addresses[after.conns[c]].unit != u
  {
    RunKeeps(Empty(), ops, {});
    DeleteKeeps(Run(Empty(), ops), u);
  }

  /** Connecting again to a bound address breaks this: after `deleteUnit` the old connection still leads to
      the address, so its end starts a reconnection to a unit closed by hand. */
  lemma ConnectTwiceReconnects<U, C>(address: string, c: C, u: U)
    ensures var ops := [Reserve(address), Bind(address, c, u), Reserve(address), Delete(u)];
            && FreshConns(ops, {}) && c in Run(Empty(), ops).conns && Run(Empty(), ops).conns[c] == address
            && Reconnects(EndOf(Run(Empty(), ops), c), address)
  {
    var ops: seq<Op<U, C>> := [Reserve(address), Bind(address, c, u), Reserve(address), Delete(u)];
    assert ops[1..] == [Bind(address, c, u), Reserve(address), Delete(u)];
    assert ops[1..][1..] == [Reserve(address), Delete(u)];
    assert ops[1..][1..][1..] == [Delete(u)];
    var s: Scheme<U, C> := Empty();
    var s3 := Apply(Apply(Apply(s, ops[0]), ops[1]), ops[2]);
    assert s3.addresses == map[address := Unbound] && s3.conns == map[c := address];
    assert Run(s, ops) == Run(Apply(Apply(s, ops[0]), ops[1]), [Reserve(address), Delete(u)]);
    assert Run(s3, [Delete(u)]) == DeleteUnit(s3, u);
    assert FreshConns([Delete(u)], {c}) && FreshConns([Reserve(address), Delete(u)], {c});
    var none: set<C> := {};
    assert none + {c} == {c};
    assert FreshConns(ops[1..], none);
  }

  // ---- one address, followed on its own ----

  function Found<U, C>(s: Scheme<U, C>, address: string): Option<Entry<U, C>> {
    if address in s.addresses then Some(s.addresses[address]) else None
  }

  /** What an operation makes of one address, whatever else there is: bound by a connection, reserved or unbound
      again, and forgotten only when it is bound to a unit that is deleted. */
  function Fate<U(==), C>(e: Option<Entry<U, C>>, op: Op<U, C>, address: string): Option<Entry<U, C>> {
    match op
    case Bind(a, c, u) => if a == address then Some(Bound(u, c)) else e
    case Reserve(a) => if a == address then Some(Unbound) else e
    case Unbind(a) => if a == address && e.Some? then Some(Unbound) else e
    case Delete(u) => if e.Some? && e.value.Bound? && e.value.unit == u then None else e
  }

  function FateOver<U(==), C>(e: Option<Entry<U, C>>, ops: seq<Op<U, C>>, address: string): Option<Entry<U, C>>
    decreases |ops|
  {
    if ops == [] then e else FateOver(Fate(e, ops[0], address), ops[1..], address)
  }

  /** Addresses do not disturb each other: over any run an address ends as it would on its own. */
  lemma {:induction false} AddressAlone<U, C>(s: Scheme<U, C>, ops: seq<Op<U, C>>, address: string)
    ensures Found(Run(s, ops), address) == FateOver(Found(s, address), ops, address)
    decreases |ops|
  {
    if ops != [] {
      assert Found(Apply(s, ops[0]), address) == Fate(Found(s, address), ops[0], address);
      AddressAlone(Apply(s, ops[0]), ops[1..], address);
    }
  }

  lemma {:induction false} FateConcat<U, C>(e: Option<Entry<U, C>>, ops: seq<Op<U, C>>, more: seq<Op<U, C>>,
                                            address: string)
    ensures FateOver(e, ops + more, address) == FateOver(FateOver(e, ops, address), more, address)
    decreases |ops|
  {
    if ops == [] {
      assert ops + more == more;
    } else {
      FateConcat(Fate(e, ops[0], address), ops[1..], more, address);
      assert (ops + more)[0] == ops[0] && (ops + more)[1..] == ops[1..] + more;
    }
  }

  lemma {:induction false} StaysUnbound<U, C>(ops: seq<Op<U, C>>, address: string)
    requires forall op :: op in ops ==> !(op.Bind? && op.address == address)
    ensures FateOver(Some(Unbound), ops, address) == Some(Unbound)
    decreases |ops|
  {
    if ops != [] {
      StaysUnbound(ops[1..], address);
    }
  }

  /** An address that `Connect` has reserved is tried again, whatever else happens, until a connection to it is
      stored; so a first attempt that fails is not the last. */
  lemma ReservedIsRetried<U, C>(before: seq<Op<U, C>>, address: string, after: seq<Op<U, C>>)
    requires forall op :: op in after ==> !(op.Bind? && op.address == address)
    ensures Reconnects(Run(Empty(), before + [Reserve(address)] + after), address)
  {
    var none: Option<Entry<U, C>> := None;
    AddressAlone(Empty(), before + [Reserve(address)] + after, address);
    FateConcat(none, before + [Reserve(address)], after, address);
    FateConcat(none, before, [Reserve(address)], address);
    var e := FateOver(none, before, address);
    assert [Op<U, C>.Reserve(address)][1..] == [];
    assert FateOver(e, [Reserve(address)], address) == Fate(e, Reserve(address), address) == Some(Unbound);
    StaysUnbound(after, address);
  }

  // ---- the code ----

  class AddressScheme<U(==), C(==)> {
    var addresses: map<string, Entry<U, C>>
    var conns: map<C, string>

    constructor ()
      ensures View() == Empty()
    {
      addresses, conns := map[], map[];
    }

    function View(): Scheme<U, C>
      reads this
    {
      Scheme(addresses, conns)
    }

    method LoadByAddress(address: string) returns (e: Entry<U, C>, ok: bool)
      ensures ok <==> address in addresses
      ensures e == if ok then addresses[address] else Unbound
    {
      if address in addresses {
        return addresses[address], true;
      }
      return Unbound, false;
    }

    method StoreAddress(address: string, conn: Option<C>, u: Option<U>) returns (panics: bool)
      modifies this
      ensures panics <==> Store(old(View()), address, conn, u) == None
      ensures View() == if panics then old(View()) else Store(old(View()), address, conn, u).value
    {
      if conn.Some? && u.Some? {
        addresses := addresses[address := Bound(u.value, conn.value)];
        conns := conns[conn.value := address];
        return false;
      } else if conn == None && u == None {
        addresses := addresses[address := Unbound];
        return false;
      }
      return true;
    }

    method LoadByConn(c: C) returns (address: string, ok: bool)
      ensures ok <==> c in conns
      ensures address == if ok then conns[c] else ""
    {
      if c in conns {
        return conns[c], true;
      }
      return "", false;
    }

    /** `startReconnCycle`, up to its call of `Connect`. */
    method StartReconnCycle(address: string) returns (connects: bool)
      ensures connects <==> Reconnects(View(), address)
    {
      var e, ok := LoadByAddress(address);
      return ok && e.Unbound?;
    }

    /** The part of `deleteConnection` about addresses; `true` when it starts a reconnection. */
    method ConnectionEnded(c: C) returns (connects: bool)
      modifies this
      ensures View() == EndOf(old(View()), c)
      ensures connects <==> c in old(conns) && Reconnects(View(), old(conns)[c])
    {
      var address, ok := LoadByConn(c);
      if !ok {
        return false;
      }
      UnbindAddress(address);
      connects := StartReconnCycle(address);
    }

    method UnbindAddress(address: string)
      modifies this
      ensures View() == UnbindAddr(old(View()), address)
    {
      if address in addresses {
        var e := addresses[address];
        addresses := addresses[address := Unbound];
        if e.Bound? {
          conns := conns - {e.conn};
        }
      }
    }

    /** The deleting loop, in any order. */
    method DeleteUnitOf(u: U)
      modifies this
      ensures View() == DeleteUnit(old(View()), u)
    {
      ghost var s := View();
      var rest := addresses.Keys;
      ghost var seen: set<string> := {};
      while rest != {}
        invariant rest + seen == s.addresses.Keys && rest !! seen
        invariant addresses == map a | a in s.addresses && !(a in seen && Has(s, a, u)) :: s.addresses[a]
        invariant conns == s.conns - set a | a in seen && Has(s, a, u) :: s.addresses[a].conn
        decreases rest
      {
        var addr :| addr in rest;
        rest := rest - {addr};
        var e := addresses[addr];
        if e.Bound? && e.unit == u {
          addresses := addresses - {addr};
          conns := conns - {e.conn};
        }
        seen := seen + {addr};
      }
    }

    method GetUnitMap() returns (m: map<string, U>)
      ensures m.Keys == set a | a in addresses && addresses[a].Bound?
      ensures forall a :: a in m ==> Has(View(), a, m[a])
    {
      m := map[];
      var rest := addresses.Keys;
      while rest != {}
        invariant rest <= addresses.Keys
        invariant m.Keys == set a | a in addresses && a !in rest && addresses[a].Bound?
        invariant forall a :: a in m ==> Has(View(), a, m[a])
      {
        var addr :| addr in rest;
        rest := rest - {addr};
        if addresses[addr].Unbound? {
          continue;
        }
        m := m[addr := addresses[addr].unit];
      }
    }
  }
}
