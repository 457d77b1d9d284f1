/** `Role` and the sending side of `Peer` as objects updated in place. Every change of a role is the `Switch`
    step of `RoleConvergence`, and one broadcast sends what its cast promises. */
module RoleBroadcast {
  import opened Orders
  import R = RoleConvergence

  class Role {
    const name: string
    const peer: Peer
    var active: bool

    constructor (name: string, peer: Peer)
      ensures this.name == name && this.peer == peer && active
    {
      this.name, this.peer, this.active := name, peer, true;
    }

    method Enable()
      requires peer.Valid() && name in peer.roles && peer.roles[name] == this
      modifies this`active, peer`waiting
      ensures peer.Valid() && active
      ensures peer.waiting == old(peer.waiting) + if old(active) then 0 else 1
      ensures forall casts :: peer.View(casts) == R.SwitchRole(old(peer.View(casts)), name, true)
    {
      var prev := active;
      active := true;
      if !prev {
        peer.waiting := peer.waiting + 1;
      }
    }

    method Disable()
      requires peer.Valid() && name in peer.roles && peer.roles[name] == this
      modifies this`active, peer`waiting
      ensures peer.Valid() && !active
      ensures peer.waiting == old(peer.waiting) + if old(active) then 1 else 0
      ensures forall casts :: peer.View(casts) == R.SwitchRole(old(peer.View(casts)), name, false)
    {
      var prev := active;
      active := false;
      if prev {
        peer.waiting := peer.waiting + 1;
      }
    }
  }

  /** What `sendRoles` hands to one unit. */
  datatype Message<U> = Message(unit: U, i: nat, roles: seq<string>)

  /** Taking `n` session numbers in a row. */
  function Numbered(s: R.Sender, n: nat): (r: R.Sender)
    ensures r == s.(session := s.session + n)
  {
    if n == 0 then s else R.SenderStep(Numbered(s, n - 1), R.SendElsewhere(""), false)
  }

  /** One broadcast from beginning to end, in steps of the sender. */
  function Broadcast(s: R.Sender, n: nat): R.Sender
    requires s.waiting > 0
  {
    R.SenderStep(Numbered(R.SenderStep(s, R.BeginCast(""), false), n), R.EndCast("", |s.casts|), false)
  }

  lemma BroadcastIs(s: R.Sender, n: nat)
    requires s.waiting > 0
    ensures Broadcast(s, n) == s.(session := s.session + n, waiting := s.waiting - 1)
  {
    var casts := s.casts + [R.Cast(s.active, false)];
    assert casts[..|s.casts|] + casts[|s.casts| + 1..] == s.casts;
  }

  /** `waiting` counts the `go broadcastRoles()` calls that have not started. */
  class Peer {
    var roles: map<string, Role>
    var lastRolesChange: nat
    var waiting: nat

    constructor ()
      ensures Valid() && forall casts :: View(casts) == R.Sender({}, 0, 0, casts)
    {
      roles, lastRolesChange, waiting := map[], 0, 0;
    }

    ghost predicate Valid()
      reads this, roles.Values
    {
      forall n :: n in roles ==> roles[n].name == n && roles[n].peer == this
    }

    ghost function Active(): set<string>
      reads this, roles.Values
    {
      set n | n in roles && roles[n].active
    }

    /** The peer as a sender, with these broadcasts under way. */
    ghost function View(casts: seq<R.Cast>): R.Sender
      reads this, roles.Values
    {
      R.Sender(Active(), lastRolesChange, waiting, casts)
    }

    /** `Role`: created active on first use. */
    method GetRole(name: string) returns (role: Role)
      requires Valid()
      modifies this
      ensures Valid() && name in roles && roles[name] == role
      ensures name in old(roles) ==> roles == old(roles)
      ensures name !in old(roles) ==> fresh(role) && role.active && roles == old(roles)[name := role]
      ensures forall casts ::
                View(casts) == if name in old(roles) then old(View(casts))
                               else R.SwitchRole(old(View(casts)), name, true)
    {
      if name !in roles {
        role := new Role(name, this);
        roles := roles[name := role];
        waiting := waiting + 1;
        assert Active() == old(Active()) + {name};
      }
      role := roles[name];
    }

    /** `ListRoles`, visiting the roles in this order: a slice as long as the map, filled from the front. */
    method ListRoles(order: seq<string>) returns (list: seq<string>)
      requires Valid() && Enumerates(order, roles.Keys)
      ensures Enumerates(list, Active())
    {
      var sl := new string[|order|];
      var i := 0;
      for j := 0 to |order|
        invariant 0 <= i <= j
        invariant Enumerates(sl[..i], set n | n in order[..j] && roles[n].active)
      {
        var key := order[j];
        assert order[..j + 1] == order[..j] + [key];
        if !roles[key].active {
          continue;
        }
        sl[i] := key;
        assert sl[..i + 1] == sl[..i] + [key];
        i := i + 1;
      }
      assert order[..|order|] == order;
      return sl[..i];
    }

    method IncRolesBroadcastSession() returns (i: nat)
      modifies this`lastRolesChange
      ensures i == lastRolesChange == old(lastRolesChange) + 1
    {
      lastRolesChange := lastRolesChange + 1;
      return lastRolesChange;
    }

    /** `broadcastRoles` without another one beside it: one message to every unit, all with the list read at
        the start, numbered consecutively from the last number used. */
    method BroadcastRoles<U>(units: seq<U>, order: seq<string>) returns (sent: seq<Message<U>>)
      requires Valid() && Enumerates(order, roles.Keys) && waiting > 0
      modifies this`lastRolesChange, this`waiting
      ensures Valid()
      ensures forall casts :: View(casts) == Broadcast(old(View(casts)), |units|)
      ensures |sent| == |units|
      ensures forall k :: 0 <= k < |units| ==>
                sent[k].unit == units[k] && sent[k].i == old(lastRolesChange) + k + 1
                && Enumerates(sent[k].roles, old(Active()))
    {
      waiting := waiting - 1;
      var list := ListRoles(order);
      sent := [];
      for k := 0 to |units|
        invariant lastRolesChange == old(lastRolesChange) + k && waiting == old(waiting) - 1
        invariant |sent| == k
        invariant forall j :: 0 <= j < k ==> sent[j] == Message(units[j], old(lastRolesChange) + j + 1, list)
      {
        var i := IncRolesBroadcastSession();
        sent := sent + [Message(units[k], i, list)];
      }
      forall casts ensures View(casts) == Broadcast(old(View(casts)), |units|) {
        BroadcastIs(old(View(casts)), |units|);
      }
    }
  }
}
