/** `Peer`, `Unit` and `Destination` as objects updated in place; the methods of `Peer` that the protocol calls are
    steps of `IndexModel`, the others are their loops. */
module DestinationIndex {
  import opened Orders
  import opened Wrappers
  import M = IndexModel

  class Unit {
    const id: string
    var roles: set<string>
    var lastRoleSession: int

    constructor (id: string, roles: set<string>)
      ensures this.id == id && this.roles == roles && lastRoleSession == 0
    {
      this.id, this.roles, this.lastRoleSession := id, roles, 0;
    }
  }

  class Destination {
    const name: string
    var units: set<Unit>
    var ready: bool

    constructor (name: string)
      ensures this.name == name && View() == M.Dest({}, false)
    {
      this.name, this.units, this.ready := name, {}, false;
    }

    function View(): M.Dest<Unit>
      reads this
    {
      M.Dest(units, ready)
    }

    method AddUnit(unit: Unit)
      modifies this
      ensures View() == M.AddUnit(old(View()), unit)
    {
      if unit in units {
        return;
      }
      units := units + {unit};
      ready := true;
    }

    method DeleteUnit(unit: Unit)
      modifies this
      ensures View() == M.DeleteUnit(old(View()), unit)
    {
      if unit in units {
        units := units - {unit};
        if |units| < 1 {
          ready := false;
        }
      }
    }
  }

  class Peer {
    var units: map<string, Unit>
    var destinations: map<string, Destination>
    ghost var known: set<Unit>     // every unit there has been
    ghost var pending: seq<Unit>   // calls of `onNewUnitRoles` started in goroutines
    ghost var closed: set<Unit>

    constructor ()
      ensures Valid() && View() == M.Empty()
    {
      units, destinations, known, pending, closed := map[], map[], {}, [], {};
    }

    /** No two names share a destination object. */
    ghost predicate Valid()
      reads this, destinations.Values
    {
      && (forall n :: n in destinations ==> destinations[n].name == n)
      && (forall id :: id in units ==> units[id].id == id && units[id] in known)
      && (forall i :: 0 <= i < |pending| ==> pending[i] in known)
    }

    ghost function View(): M.Index<Unit>
      reads this, destinations.Values, known
    {
      M.Index(units, map u | u in known :: M.UnitRec(u.id, u.roles), Dests(), pending, closed)
    }

    ghost function Dests(): map<string, M.Dest<Unit>>
      reads this, destinations.Values
    {
      map n | n in destinations :: destinations[n].View()
    }

    /** The `i`-th pending `onNewUnitRoles`. */
    method OnNewUnitRoles(unit: Unit, ghost i: nat)
      requires Valid() && i < |pending| && pending[i] == unit
      modifies this`pending, destinations.Values
      ensures Valid() && View() == M.Step(old(View()), M.Run(i))
    {
      Reconcile(unit);
      pending := pending[..i] + pending[i + 1..];
    }

    /** Its two loops, with the destinations visited in any order. */
    method Reconcile(unit: Unit)
      requires Valid()
      modifies destinations.Values
      ensures Valid() && Dests() == M.Reconcile(old(Dests()), unit, unit.roles)
    {
      var rest := destinations.Keys;
      while rest != {}
        invariant rest <= destinations.Keys && Valid()
        invariant forall n :: n in rest ==> destinations[n].View() == old(destinations[n].View())
        invariant forall n :: n in destinations && n !in rest ==>
                    destinations[n].View() == if n in unit.roles then M.AddUnit(old(destinations[n].View()), unit)
                                              else M.DeleteUnit(old(destinations[n].View()), unit)
      {
        var name :| name in rest;
        rest := rest - {name};
        var inDest := HasRole(unit.roles, name);
        if inDest {
          destinations[name].AddUnit(unit);
        } else {
          destinations[name].DeleteUnit(unit);
        }
      }
    }

    /** The inner loop: the roles one by one until the name is found. */
    static method HasRole(roles: set<string>, name: string) returns (inDest: bool)
      ensures inDest <==> name in roles
    {
      inDest := false;
      var left := roles;
      while left != {}
        invariant left <= roles && (name in roles ==> name in left)
      {
        var role :| role in left;
        left := left - {role};
        if name == role {
          return true;
        }
      }
    }

    /** The part of `deleteUnit` that walks the roles. */
    method Withdraw(unit: Unit, order: seq<string>)
      requires Valid()
      modifies destinations.Values
      ensures Valid() && Dests() == M.Withdraw(old(Dests()), unit, order)
    {
      for i := 0 to |order|
        invariant Valid()
        invariant M.Withdraw(Dests(), unit, order[i..]) == M.Withdraw(old(Dests()), unit, order)
      {
        var r := order[i];
        if r !in destinations {
          break;
        }
        ghost var before := Dests();
        destinations[r].DeleteUnit(unit);
        assert order[i..][1..] == order[i + 1..];
        assert Dests() == before[r := M.DeleteUnit(before[r], unit)];
      }
    }

    /** `deleteUnit`, with the roles visited in this order. */
    method DeleteUnit(unit: Unit, order: seq<string>)
      requires Valid() && unit in known && Enumerates(order, unit.roles)
      modifies this`units, destinations.Values
      ensures Valid() && View() == M.Step(old(View()), M.Delete(unit, order))
    {
      ghost var before := Dests();
      units := units - {unit.id};
      assert Dests() == before;
      Withdraw(unit, order);
    }

    /** `Unit.Close`, as far as the index is concerned. */
    method Close(unit: Unit)
      requires Valid()
      modifies this`closed, destinations.Values
      ensures Valid() && View() == M.Step(old(View()), M.CloseByHand(unit))
      ensures forall n :: n in destinations ==> destinations[n].units == old(destinations[n].units) - {unit}
    {
      Expel(unit);
      closed := closed + {unit};
    }

    /** The loop of `closeWithCode` over all destinations. */
    method Expel(unit: Unit)
      requires Valid()
      modifies destinations.Values
      ensures Valid() && Dests() == M.Expel(old(Dests()), unit)
      ensures forall n :: n in destinations ==>
                && destinations[n].units == old(destinations[n].units) - {unit}
                && (destinations[n].ready <==> old(destinations[n].ready)
                                               && (unit !in old(destinations[n].units) || destinations[n].units != {}))
    {
      var rest := destinations.Keys;
      while rest != {}
        invariant rest <= destinations.Keys && Valid()
        invariant forall n :: n in rest ==> destinations[n].View() == old(destinations[n].View())
        invariant forall n :: n in destinations && n !in rest ==>
                    destinations[n].View() == M.DeleteUnit(old(destinations[n].View()), unit)
      {
        var name :| name in rest;
        rest := rest - {name};
        destinations[name].DeleteUnit(unit);
      }
    }

    ghost function Serving(name: string): set<Unit>
      reads this, units.Values
    {
      set id | id in units && name in units[id].roles :: units[id]
    }

    lemma ServedIsServing(name: string)
      requires Valid()
      ensures M.Served(View(), name) == Serving(name)
    {
      assert forall id :: id in units ==> View().recs[units[id]].roles == units[id].roles;
    }

    /** A new destination takes in the units with its role. */
    method Fill(dest: Destination, name: string)
      requires Valid() && dest.View() == M.Dest({}, false)
      modifies dest
      ensures dest.View() == M.Dest(Serving(name), Serving(name) != {})
    {
      var rest := units.Keys;
      while rest != {}
        invariant rest <= units.Keys
        invariant dest.units == set id | id in units && id !in rest && name in units[id].roles :: units[id]
        invariant dest.ready <==> dest.units != {}
      {
        var id :| id in rest;
        rest := rest - {id};
        if name in units[id].roles {
          dest.AddUnit(units[id]);
        }
      }
    }

    /** A new destination under a new name. */
    method Create(name: string) returns (dest: Destination)
      requires Valid() && name !in destinations
      modifies this`destinations
      ensures Valid() && fresh(dest) && destinations == old(destinations)[name := dest]
      ensures Dests() == old(Dests())[name := M.Dest(old(Serving(name)), old(Serving(name)) != {})]
    {
      dest := new Destination(name);
      Fill(dest, name);
      destinations := destinations[name := dest];
    }

    /** `Destination`: created on first use, and filled from the units there are. */
    method GetDestination(name: string) returns (dest: Destination)
      requires Valid()
      modifies this`destinations
      ensures Valid() && name in destinations && dest == destinations[name]
      ensures View() == M.Step(old(View()), M.Lookup(name))
    {
      if name !in destinations {
        ServedIsServing(name);
        dest := Create(name);
      }
      dest := destinations[name];
    }

    /** `addConn` after authentication, up to its call of `OnNewUnitRoles`: the roles of the handshake count
        only for a unit that is not there yet. */
    method AddConn(id: string, roles: set<string>) returns (unit: Unit)
      requires Valid()
      modifies this`units, this`known, this`pending
      ensures Valid() && id in units && unit == units[id]
      ensures View() == M.Step(old(View()), M.Connect(id, unit, roles))
      ensures id !in old(units) ==> fresh(unit)
    {
      if id !in units {
        var created := new Unit(id, roles);
        units := units[id := created];
        known := known + {created};
      }
      unit := units[id];
      pending := pending + [unit];
    }

    /** The `typeRoles` case of `serveIncMsg`: a new list is an update of the index, a stale or broken one
        changes nothing but the number. */
    method ServeRoles(unit: Unit, msg: RolesMsg)
      requires Valid() && unit in known
      modifies unit, this`pending
      ensures Valid()
      ensures unit.lastRoleSession == if msg.i <= old(unit.lastRoleSession) then old(unit.lastRoleSession) else msg.i
      ensures View() == if msg.i > old(unit.lastRoleSession) && msg.roles.Some?
                        then M.Step(old(View()), M.Update(unit, msg.roles.value)) else old(View())
    {
      if msg.i <= unit.lastRoleSession {
        return;
      }
      unit.lastRoleSession := msg.i;
      if msg.roles.None? {
        return;
      }
      unit.roles := msg.roles.value;
      pending := pending + [unit];
    }
  }

  /** A message with the roles of a unit; `roles` is absent when the list cannot be parsed. */
  datatype RolesMsg = RolesMsg(i: int, roles: Option<set<string>>)
}
