/** `writeMsgToSomeConnection`: which connection of a unit a message goes out on. */
module ConnectionChoice {
  import opened Orders
  import opened Wrappers
  import Numbers

  /** The connections of a unit, and whether the unit has been deleted from its peer. */
  datatype Conns<C(==)> = Conns(alive: set<C>, deleted: bool)

  /** `deleteConnection`: the last one takes the unit with it. */
  function Remove<C>(s: Conns<C>, c: C): Conns<C> {
    Conns(s.alive - {c}, s.deleted || s.alive - {c} == {})
  }

  /** Connections another goroutine deletes. */
  function RemoveAll<C>(s: Conns<C>, gone: set<C>): Conns<C> {
    if gone == {} then s else Conns(s.alive - gone, s.deleted || s.alive - gone == {})
  }

  /** `tried` lists the connections written to, in order; `omitted` the locked ones passed over. */
  datatype Pass<C(==)> = Pass(sent: Option<C>, tried: seq<C>, omitted: seq<C>, conns: Conns<C>)

  function First<C(==)>(s: Conns<C>, order: seq<C>, locked: set<C>, ok: C -> bool): Pass<C>
    decreases |order|
  {
    if order == [] then Pass(None, [], [], s)
    else if order[0] in locked then
      var r := First(s, order[1..], locked, ok);
      r.(omitted := [order[0]] + r.omitted)
    else if ok(order[0]) then Pass(Some(order[0]), [order[0]], [], s)
    else
      var r := First(Remove(s, order[0]), order[1..], locked, ok);
      r.(tried := [order[0]] + r.tried)
  }

  /** The order of the second pass: attempt `i` takes the omitted connection at `(i + rnd) % N`. */
  function Turns<C>(omitted: seq<C>, rnd: nat): seq<C> {
    seq(|omitted|, i requires 0 <= i < |omitted| => omitted[(i + rnd) % |omitted|])
  }

  /** The second pass from attempt `i` on. Before each attempt other goroutines may delete connections; one
      that is gone ends the loop. */
  function Second<C(==)>(s: Conns<C>, turns: seq<C>, i: nat, ok: C -> bool, gone: nat -> set<C>): Pass<C>
    requires i <= |turns|
    decreases |turns| - i
  {
    if i == |turns| then Pass(None, [], [], s) else
    var s1 := RemoveAll(s, gone(i));
    var c := turns[i];
    if c !in s1.alive then Pass(None, [], [], s1)
    else if ok(c) then Pass(Some(c), [c], [], s1)
    else
      var r := Second(Remove(s1, c), turns, i + 1, ok, gone);
      r.(tried := [c] + r.tried)
  }

  /** Both passes. */
  function Choose<C(==)>(s: Conns<C>, order: seq<C>, locked: set<C>, rnd: nat, ok: C -> bool, gone: nat -> set<C>)
      : Pass<C>
  {
    var a := First(s, order, locked, ok);
    if a.sent.Some? then a
    else
      var b := Second(a.conns, Turns(a.omitted, rnd), 0, ok, gone);
      Pass(b.sent, a.tried + b.tried, a.omitted, b.conns)
  }

  // ---- the rotation ----

  lemma TurnIs(i: nat, rnd: nat, n: nat)
    requires i < n
    ensures var m := rnd % n; (i + rnd) % n == if i + m < n then i + m else i + m - n
  {
    var m, q := rnd % n, rnd / n;
    if i + m < n {
      Numbers.QuotientUnique(i + rnd, n, q, i + m);
    } else {
      assert (q + 1) * n == q * n + n;
      Numbers.QuotientUnique(i + rnd, n, q + 1, i + m - n);
    }
  }

  /** Whatever the starting point, the second pass takes every omitted connection once: it is the list cut in
      two, with the halves swapped. */
  lemma TurnsAreACut<C>(omitted: seq<C>, rnd: nat)
    requires omitted != []
    ensures Turns(omitted, rnd) == omitted[rnd % |omitted|..] + omitted[..rnd % |omitted|]
  {
    forall i | 0 <= i < |omitted|
      ensures (omitted[rnd % |omitted|..] + omitted[..rnd % |omitted|])[i] == Turns(omitted, rnd)[i]
    {
      TurnIs(i, rnd, |omitted|);
    }
  }

  lemma TurnsEnumerate<C>(omitted: seq<C>, rnd: nat, conns: set<C>)
    requires Enumerates(omitted, conns)
    ensures Enumerates(Turns(omitted, rnd), conns)
  {
    if omitted != [] {
      TurnsAreACut(omitted, rnd);
      var a, b := omitted[rnd % |omitted|..], omitted[..rnd % |omitted|];
      assert omitted == b + a;
      SwapHalves(b, a, conns);
    }
  }

  // ---- one list of connections, in turn ----

  /** Write to one connection after the other until a write works. */
  function TryAll<C(==)>(s: Conns<C>, list: seq<C>, ok: C -> bool): Pass<C>
    decreases |list|
  {
    if list == [] then Pass(None, [], [], s)
    else if ok(list[0]) then Pass(Some(list[0]), [list[0]], [], s)
    else
      var r := TryAll(Remove(s, list[0]), list[1..], ok);
      r.(tried := [list[0]] + r.tried)
  }

  function Locked<C(==)>(order: seq<C>, locked: set<C>): seq<C>
    decreases |order|
  {
    if order == [] then [] else (if order[0] in locked then [order[0]] else []) + Locked(order[1..], locked)
  }

  function Unlocked<C(==)>(order: seq<C>, locked: set<C>): seq<C>
    decreases |order|
  {
    if order == [] then [] else (if order[0] in locked then [] else [order[0]]) + Unlocked(order[1..], locked)
  }

  lemma {:induction false} LockedEnumerates<C>(order: seq<C>, locked: set<C>)
    ensures forall c :: c in Locked(order, locked) <==> c in order && c in locked
    ensures forall c :: c in Unlocked(order, locked) <==> c in order && c !in locked
    decreases |order|
  {
    if order != [] {
      LockedEnumerates(order[1..], locked);
    }
  }

  ghost predicate Distinct<C>(s: seq<C>) {
    forall i, j :: 0 <= i < j < |s| ==> s[i] != s[j]
  }

  lemma {:induction false} SplitDistinct<C>(order: seq<C>, locked: set<C>)
    requires Distinct(order)
    ensures Distinct(Locked(order, locked)) && Distinct(Unlocked(order, locked))
    decreases |order|
  {
    if order != [] {
      SplitDistinct(order[1..], locked);
      LockedEnumerates(order[1..], locked);
    }
  }

  lemma {:induction false} FirstIs<C>(s: Conns<C>, order: seq<C>, locked: set<C>, ok: C -> bool)
    ensures var r, t := First(s, order, locked, ok), TryAll(s, Unlocked(order, locked), ok);
            && r.sent == t.sent && r.tried == t.tried && r.conns == t.conns
            && (r.sent == None ==> r.omitted == Locked(order, locked))
    decreases |order|
  {
    if order != [] {
      if order[0] in locked {
        FirstIs(s, order[1..], locked, ok);
        assert Unlocked(order, locked) == Unlocked(order[1..], locked);
      } else {
        FirstIs(Remove(s, order[0]), order[1..], locked, ok);
        assert Unlocked(order, locked)[1..] == Unlocked(order[1..], locked);
      }
    }
  }

  lemma {:induction false} SecondIs<C>(s: Conns<C>, turns: seq<C>, i: nat, ok: C -> bool, gone: nat -> set<C>)
    requires i <= |turns| && forall k :: gone(k) == {}
    requires Distinct(turns) && forall c :: c in turns[i..] ==> c in s.alive
    ensures Second(s, turns, i, ok, gone) == TryAll(s, turns[i..], ok)
    decreases |turns| - i
  {
    if i < |turns| {
      var c := turns[i];
      assert turns[i..][0] == c && turns[i..][1..] == turns[i + 1..];
      if !ok(c) {
        forall d | d in turns[i + 1..] ensures d in Remove(s, c).alive {
          assert d in turns[i..];
        }
        SecondIs(Remove(s, c), turns, i + 1, ok, gone);
      }
    }
  }

  lemma {:induction false} TryAllAppend<C>(s: Conns<C>, a: seq<C>, b: seq<C>, ok: C -> bool)
    ensures var r := TryAll(s, a, ok);
            TryAll(s, a + b, ok) == if r.sent.Some? then r
                                    else var q := TryAll(r.conns, b, ok); q.(tried := r.tried + q.tried)
    decreases |a|
  {
    if a == [] {
      assert a + b == b;
      assert [] + TryAll(s, b, ok).tried == TryAll(s, b, ok).tried;
    } else {
      assert (a + b)[1..] == a[1..] + b;
      if !ok(a[0]) {
        TryAllAppend(Remove(s, a[0]), a[1..], b, ok);
      }
    }
  }

  ghost predicate AllFail<C>(list: seq<C>, ok: C -> bool) {
    forall k :: 0 <= k < |list| ==> !ok(list[k])
  }

  /** The place of the first connection that works, or the length of the list. */
  ghost function FirstOk<C>(list: seq<C>, ok: C -> bool): (n: nat)
    ensures n <= |list| && AllFail(list[..n], ok) && (n < |list| ==> ok(list[n]))
  {
    if list == [] || ok(list[0]) then 0 else
    var m := FirstOk(list[1..], ok);
    assert list[..m + 1] == [list[0]] + list[1..][..m];
    m + 1
  }

  /** What a pass over a list tries: up to the first that works, or everything in vain. */
  lemma {:induction false} TryAllTries<C>(s: Conns<C>, list: seq<C>, ok: C -> bool)
    ensures var r, n := TryAll(s, list, ok), FirstOk(list, ok);
            && r.sent == (if n < |list| then Some(list[n]) else None)
            && r.tried == if n < |list| then list[..n + 1] else list
    decreases |list|
  {
    if list != [] && !ok(list[0]) {
      TryAllTries(Remove(s, list[0]), list[1..], ok);
      var m := FirstOk(list[1..], ok);
      assert m < |list| - 1 ==> list[..m + 2] == [list[0]] + list[1..][..m + 1];
      assert list == [list[0]] + list[1..];
    }
  }

  /** What it leaves. */
  lemma {:induction false} TryAllLeaves<C>(s: Conns<C>, list: seq<C>, ok: C -> bool)
    ensures var r := TryAll(s, list, ok);
            && r.conns.alive == s.alive - (set c | c in r.tried && !ok(c))
            && (r.conns.deleted <==> s.deleted || (r.conns.alive == {} && exists c :: c in r.tried && !ok(c)))
    decreases |list|
  {
    if list != [] && !ok(list[0]) {
      TryAllLeaves(Remove(s, list[0]), list[1..], ok);
    }
  }

  // ---- the whole choice ----

  /** With nobody else deleting connections, the two passes with their rotation are one pass: first over the
      unlocked connections, then over the locked ones from a random starting point. */
  lemma ChooseIsOnePass<C>(s: Conns<C>, order: seq<C>, locked: set<C>, rnd: nat, ok: C -> bool, gone: nat -> set<C>)
    requires Enumerates(order, s.alive) && forall k :: gone(k) == {}
    ensures var r := Choose(s, order, locked, rnd, ok, gone);
            var t := TryAll(s, Unlocked(order, locked) + Turns(Locked(order, locked), rnd), ok);
            r.sent == t.sent && r.tried == t.tried && r.conns == t.conns
  {
    var first, rest := Unlocked(order, locked), Locked(order, locked);
    FirstIs(s, order, locked, ok);
    TryAllAppend(s, first, Turns(rest, rnd), ok);
    var a := TryAll(s, first, ok);
    if a.sent == None {
      LockedStayAlive(s, order, locked, rnd, ok);
      assert Turns(rest, rnd)[0..] == Turns(rest, rnd);
      SecondIs(a.conns, Turns(rest, rnd), 0, ok, gone);
    }
  }

  /** The first pass loses no locked connection. */
  lemma LockedStayAlive<C>(s: Conns<C>, order: seq<C>, locked: set<C>, rnd: nat, ok: C -> bool)
    requires Enumerates(order, s.alive)
    ensures var turns := Turns(Locked(order, locked), rnd);
            Distinct(turns)
            && forall c :: c in turns ==> c in TryAll(s, Unlocked(order, locked), ok).conns.alive
  {
    SplitEnumerates(s.alive, order, locked);
    TurnsEnumerate(Locked(order, locked), rnd, s.alive * locked);
    Members(Turns(Locked(order, locked), rnd), s.alive * locked);
    Members(Unlocked(order, locked), s.alive - locked);
    TryAllTries(s, Unlocked(order, locked), ok);
    TryAllLeaves(s, Unlocked(order, locked), ok);
  }

  /** What a choice among the connections of `s` must come to. It succeeds exactly when some connection works,
      with one successful write, its last. A failure means every connection was tried once and failed; then
      none is left. The unit is deleted exactly when it loses its last connection. */
  ghost predicate WellChosen<C>(s: Conns<C>, r: Pass<C>, ok: C -> bool) {
    && (r.sent.Some? <==> exists c :: c in s.alive && ok(c))
    && (r.sent.Some? ==> r.tried != [] && r.tried[|r.tried| - 1] == r.sent.value && ok(r.sent.value)
                         && AllFail(r.tried[..|r.tried| - 1], ok))
    && Distinct(r.tried) && (forall c :: c in r.tried ==> c in s.alive)
    && r.conns.alive == s.alive - (set c | c in r.tried && !ok(c))
    && (r.sent == None ==> Enumerates(r.tried, s.alive) && r.conns.alive == {})
    && (r.conns.deleted <==> s.deleted || (s.alive != {} && r.conns.alive == {}))
  }

  lemma FailsOnAll<C>(s: Conns<C>, list: seq<C>, ok: C -> bool)
    requires Enumerates(list, s.alive) && FirstOk(list, ok) == |list|
    ensures WellChosen(s, TryAll(s, list, ok), ok)
  {
    TryAllTries(s, list, ok);
    TryAllLeaves(s, list, ok);
    Members(list, s.alive);
    assert list[..|list|] == list;
    forall c | c in s.alive ensures !ok(c) {
      assert c in list;
    }
  }

  /** The attempts up to place `n`. */
  lemma UpTo<C>(list: seq<C>, n: nat, keys: set<C>)
    requires n < |list| && Enumerates(list, keys)
    ensures var tried := list[..n + 1];
            && Distinct(tried) && (forall c :: c in tried ==> c in keys)
            && tried[n] == list[n] && tried[..n] == list[..n] && list[n] in keys
  {
    var tried := list[..n + 1];
    forall c | c in tried ensures c in keys {
      var i :| 0 <= i < |tried| && tried[i] == c;
      assert list[i] == c;
    }
  }

  lemma WorksAt<C>(s: Conns<C>, list: seq<C>, ok: C -> bool)
    requires Enumerates(list, s.alive) && FirstOk(list, ok) < |list|
    ensures WellChosen(s, TryAll(s, list, ok), ok)
  {
    TryAllTries(s, list, ok);
    TryAllLeaves(s, list, ok);
    UpTo(list, FirstOk(list, ok), s.alive);
  }

  /** The choice, with nobody else deleting connections. */
  lemma ChoiceResult<C>(s: Conns<C>, order: seq<C>, locked: set<C>, rnd: nat, ok: C -> bool, gone: nat -> set<C>)
    requires Enumerates(order, s.alive) && forall k :: gone(k) == {}
    ensures WellChosen(s, Choose(s, order, locked, rnd, ok, gone), ok)
  {
    ChooseIsOnePass(s, order, locked, rnd, ok, gone);
    var list := Unlocked(order, locked) + Turns(Locked(order, locked), rnd);
    ListEnumerates(s.alive, order, locked, rnd);
    if FirstOk(list, ok) < |list| {
      WorksAt(s, list, ok);
    } else {
      FailsOnAll(s, list, ok);
    }
  }

  lemma ListEnumerates<C>(conns: set<C>, order: seq<C>, locked: set<C>, rnd: nat)
    requires Enumerates(order, conns)
    ensures Enumerates(Unlocked(order, locked) + Turns(Locked(order, locked), rnd), conns)
  {
    SplitEnumerates(conns, order, locked);
    TurnsEnumerate(Locked(order, locked), rnd, conns * locked);
    EnumeratesConcat(Unlocked(order, locked), conns - locked, Turns(Locked(order, locked), rnd), conns * locked);
    assert conns - locked + conns * locked == conns;
  }

  lemma SplitEnumerates<C>(conns: set<C>, order: seq<C>, locked: set<C>)
    requires Enumerates(order, conns)
    ensures Enumerates(Unlocked(order, locked), conns - locked) && Enumerates(Locked(order, locked), conns * locked)
  {
    LockedEnumerates(order, locked);
    SplitDistinct(order, locked);
    Members(order, conns);
    FromMembers(Unlocked(order, locked), conns - locked);
    FromMembers(Locked(order, locked), conns * locked);
  }

  lemma FromMembers<C>(s: seq<C>, keys: set<C>)
    requires Distinct(s) && forall c :: c in s <==> c in keys
    ensures Enumerates(s, keys)
  {
    forall i | 0 <= i < |s| ensures s[i] in keys {
      assert s[i] in s;
    }
  }

  // ---- other goroutines ----

  /** From a unit with connections to `after`: no connection comes back, and the unit is deleted exactly when its
      last one has gone. */
  ghost predicate Shrinks<C>(s: Conns<C>, after: Conns<C>) {
    after.alive <= s.alive && (after.deleted <==> s.deleted || after.alive == {})
  }

  lemma {:induction false} FirstShrinks<C>(s0: Conns<C>, s: Conns<C>, order: seq<C>, locked: set<C>, ok: C -> bool)
    requires Shrinks(s0, s)
    ensures Shrinks(s0, First(s, order, locked, ok).conns)
    decreases |order|
  {
    if order != [] {
      if order[0] in locked {
        FirstShrinks(s0, s, order[1..], locked, ok);
      } else if !ok(order[0]) {
        FirstShrinks(s0, Remove(s, order[0]), order[1..], locked, ok);
      }
    }
  }

  lemma {:induction false} SecondShrinks<C>(s0: Conns<C>, s: Conns<C>, turns: seq<C>, i: nat, ok: C -> bool,
                                            gone: nat -> set<C>)
    requires Shrinks(s0, s) && i <= |turns|
    ensures Shrinks(s0, Second(s, turns, i, ok, gone).conns)
    decreases |turns| - i
  {
    if i < |turns| {
      var s1 := RemoveAll(s, gone(i));
      if turns[i] in s1.alive && !ok(turns[i]) {
        SecondShrinks(s0, Remove(s1, turns[i]), turns, i + 1, ok, gone);
      }
    }
  }

  /** Whatever other goroutines delete meanwhile: the unit is deleted exactly when it has lost its last connection. */
  lemma ChoiceShrinks<C>(s: Conns<C>, order: seq<C>, locked: set<C>, rnd: nat, ok: C -> bool, gone: nat -> set<C>)
    requires s.alive != {}
    ensures Shrinks(s, Choose(s, order, locked, rnd, ok, gone).conns)
  {
    var a := First(s, order, locked, ok);
    FirstShrinks(s, s, order, locked, ok);
    SecondShrinks(s, a.conns, Turns(a.omitted, rnd), 0, ok, gone);
  }

  function GoneBy<C(==)>(gone: nat -> set<C>, i: nat): set<C> {
    gone(i) + if i == 0 then {} else GoneBy(gone, i - 1)
  }

  /** The attempts before `i` were made and failed. */
  ghost predicate Passes<C>(turns: seq<C>, i: nat, ok: C -> bool, gone: nat -> set<C>) {
    i <= |turns| && forall j :: 0 <= j < i ==> !ok(turns[j]) && turns[j] !in GoneBy(gone, j)
  }

  /** Attempt `i` is the one that works, and the loop gets there. */
  ghost predicate Reaches<C>(turns: seq<C>, i: nat, ok: C -> bool, gone: nat -> set<C>) {
    Passes(turns, i, ok, gone) && i < |turns| && ok(turns[i]) && turns[i] !in GoneBy(gone, i)
  }

  /** Before attempt `i`, the connections still to be tried are alive unless they were deleted. */
  ghost predicate Awaits<C>(s: Conns<C>, turns: seq<C>, i: nat, gone: nat -> set<C>) {
    forall k :: i <= k < |turns| ==> (turns[k] in s.alive <==> i == 0 || turns[k] !in GoneBy(gone, i - 1))
  }

  /** A connection that was deleted in the meantime ends the loop. */
  lemma StopsAt<C>(turns: seq<C>, i: nat, ok: C -> bool, gone: nat -> set<C>)
    requires i < |turns| && turns[i] in GoneBy(gone, i) && Passes(turns, i, ok, gone)
    ensures forall k :: !Reaches(turns, k, ok, gone)
  {
  }

  lemma AwaitsNext<C>(s: Conns<C>, turns: seq<C>, i: nat, gone: nat -> set<C>)
    requires i < |turns| && Distinct(turns) && Awaits(s, turns, i, gone)
    ensures var after := RemoveAll(s, gone(i));
            && (turns[i] in after.alive <==> turns[i] !in GoneBy(gone, i))
            && Awaits(Remove(after, turns[i]), turns, i + 1, gone)
  {
  }

  lemma NoMore<C>(turns: seq<C>, ok: C -> bool, gone: nat -> set<C>)
    requires Passes(turns, |turns|, ok, gone)
    ensures forall k :: !Reaches(turns, k, ok, gone)
  {
  }

  lemma {:induction false} SecondFrom<C>(s: Conns<C>, turns: seq<C>, i: nat, ok: C -> bool, gone: nat -> set<C>)
    requires Distinct(turns) && Passes(turns, i, ok, gone) && Awaits(s, turns, i, gone)
    ensures Second(s, turns, i, ok, gone).sent.Some? <==> exists k :: Reaches(turns, k, ok, gone)
    decreases |turns| - i
  {
    if i < |turns| {
      var s1 := RemoveAll(s, gone(i));
      AwaitsNext(s, turns, i, gone);
      if turns[i] !in s1.alive {
        StopsAt(turns, i, ok, gone);
      } else if ok(turns[i]) {
        assert Reaches(turns, i, ok, gone);
      } else {
        SecondFrom(Remove(s1, turns[i]), turns, i + 1, ok, gone);
      }
    } else {
      NoMore(turns, ok, gone);
    }
  }

  /** With other goroutines deleting connections, the second pass succeeds exactly when a connection works and
      none before it in the rotation was deleted in the meantime: one that was ends the loop. */
  lemma SecondSucceedsIff<C>(s: Conns<C>, omitted: seq<C>, rnd: nat, ok: C -> bool, gone: nat -> set<C>)
    requires Distinct(omitted) && forall c :: c in omitted ==> c in s.alive
    ensures Second(s, Turns(omitted, rnd), 0, ok, gone).sent.Some?
            <==> exists k :: Reaches(Turns(omitted, rnd), k, ok, gone)
  {
    TurnsEnumerate(omitted, rnd, set c | c in omitted);
    SecondFrom(s, Turns(omitted, rnd), 0, ok, gone);
  }

  /** So a message can fail although a connection would have taken it: of two locked connections the first is
      deleted by another goroutine, the second works and is never tried. */
  lemma BreakGivesUp<C>(a: C, b: C)
    requires a != b
    ensures var r := Choose(Conns({a, b}, false), [a, b], {a, b}, 0, c => c == b, i => if i == 0 then {a} else {});
            r.sent == None && r.tried == [] && r.conns == Conns({b}, false)
  {
    var s, ok, gone := Conns({a, b}, false), (c: C) => c == b, (i: nat) => if i == 0 then {a} else {};
    assert [a, b][1..] == [b] && [b][1..] == [];
    assert First(s, [], {a, b}, ok) == Pass(None, [], [], s);
    assert First(s, [b], {a, b}, ok) == Pass(None, [], [b], s);
    var first := First(s, [a, b], {a, b}, ok);
    assert first.sent == None && first.omitted == [a, b] && first.conns == s && first.tried == [];
    TurnsAreACut([a, b], 0);
    assert Turns([a, b], 0) == [a, b];
    assert s.alive - {a} == {b};
    var second := Second(s, [a, b], 0, ok, gone);
    assert second.sent == None && second.tried == [] && second.conns == Conns({b}, false);
  }

  // ---- the code ----

  class Unit<C(==)> {
    var connections: set<C>
    var deleted: bool

    constructor (connections: set<C>)
      ensures View() == Conns(connections, false)
    {
      this.connections, this.deleted := connections, false;
    }

    function View(): Conns<C>
      reads this
    {
      Conns(connections, deleted)
    }

    /** `deleteConnection`; `deleted` stands for `peer.deleteUnit`. */
    method DeleteConnection(conn: C)
      modifies this
      ensures View() == Remove(old(View()), conn)
    {
      connections := connections - {conn};
      if |connections| < 1 {
        deleted := true;
      }
    }

    method DeletedElsewhere(gone: set<C>)
      modifies this
      ensures View() == RemoveAll(old(View()), gone)
    {
      if gone != {} {
        connections := connections - gone;
        if connections == {} {
          deleted := true;
        }
      }
    }

    method WriteToConn(conn: C, ok: C -> bool) returns (success: bool)
      modifies this
      ensures success == ok(conn) && View() == if success then old(View()) else Remove(old(View()), conn)
    {
      success := ok(conn);
      if !success {
        DeleteConnection(conn);
      }
    }

    /** The pass over `connections.Range`, in this order. */
    method FirstPass(order: seq<C>, locked: set<C>, ok: C -> bool)
      returns (sent: Option<C>, omitted: seq<C>, ghost tried: seq<C>)
      modifies this
      ensures var r := First(old(View()), order, locked, ok);
              sent == r.sent && tried == r.tried && View() == r.conns && (sent == None ==> omitted == r.omitted)
    {
      sent, omitted, tried := None, [], [];
      ghost var whole := First(View(), order, locked, ok);
      for n := 0 to |order|
        invariant sent == None
        invariant var r := First(View(), order[n..], locked, ok);
                  && whole.sent == r.sent && whole.tried == tried + r.tried
                  && whole.omitted == omitted + r.omitted && whole.conns == r.conns
      {
        var conn := order[n];
        assert order[n..][0] == conn && order[n..][1..] == order[n + 1..];
        if conn in locked {
          omitted := omitted + [conn];
          continue;
        }
        var success := WriteToConn(conn, ok);
        tried := tried + [conn];
        if success {
          return Some(conn), omitted, tried;
        }
      }
    }

    /** The connection attempt `i` of the second pass takes. */
    static method Pick(omitted: seq<C>, i: nat, rnd: nat) returns (conn: C)
      requires i < |omitted|
      ensures conn == Turns(omitted, rnd)[i]
    {
      conn := omitted[(i + rnd) % |omitted|];
    }

    /** One attempt of the second pass, after other goroutines have deleted connections. */
    method Attempt(conn: C, ok: C -> bool, gone: set<C>) returns (alive: bool, success: bool)
      modifies this
      ensures var s := RemoveAll(old(View()), gone);
              && alive == (conn in s.alive) && success == (alive && ok(conn))
              && View() == if alive && !success then Remove(s, conn) else s
    {
      DeletedElsewhere(gone);
      alive, success := conn in connections, false;
      if alive {
        success := WriteToConn(conn, ok);
      }
    }

    /** The rotation over the omitted connections. */
    method SecondPass(omitted: seq<C>, rnd: nat, ok: C -> bool, gone: nat -> set<C>)
      returns (sent: Option<C>, ghost tried: seq<C>)
      modifies this
      ensures var r := Second(old(View()), Turns(omitted, rnd), 0, ok, gone);
              sent == r.sent && tried == r.tried && View() == r.conns
    {
      sent, tried := None, [];
      ghost var turns := Turns(omitted, rnd);
      ghost var whole := Second(View(), turns, 0, ok, gone);
      var N := |omitted|;
      for i := 0 to N
        invariant sent == None
        invariant var r := Second(View(), turns, i, ok, gone);
                  whole.sent == r.sent && whole.tried == tried + r.tried && whole.conns == r.conns
      {
        var conn := Pick(omitted, i, rnd);
        var alive, success := Attempt(conn, ok, gone(i));
        if !alive {
          break;
        }
        if success {
          return Some(conn), tried + [conn];
        }
        ghost var rest := Second(View(), turns, i + 1, ok, gone);
        assert tried + ([conn] + rest.tried) == (tried + [conn]) + rest.tried;
        tried := tried + [conn];
      }
    }

    /** `order` is the order of `Range`, `ok` the outcome of a write, `gone` what other goroutines delete before
        each attempt of the second pass. */
    method WriteMsgToSomeConnection(order: seq<C>, locked: set<C>, rnd: nat, ok: C -> bool, gone: nat -> set<C>)
      returns (sent: Option<C>, ghost tried: seq<C>)
      modifies this
      ensures var r := Choose(old(View()), order, locked, rnd, ok, gone);
              sent == r.sent && tried == r.tried && View() == r.conns
    {
      var omitted;
      sent, omitted, tried := FirstPass(order, locked, ok);
      if sent == None {
        ghost var more;
        sent, more := SecondPass(omitted, rnd, ok, gone);
        tried := tried + more;
      }
    }
  }
}
