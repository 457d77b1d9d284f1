/** Go visits the keys of a map in an order of its own choosing: any enumeration of the key set. */
module Orders {

  /** `order` lists exactly the elements of `keys`, each once. */
  ghost predicate Enumerates<T>(order: seq<T>, keys: set<T>) {
    && (forall i :: 0 <= i < |order| ==> order[i] in keys)
    && (forall k :: k in keys ==> k in order)
    && (forall i, j :: 0 <= i < j < |order| ==> order[i] != order[j])
  }

  ghost function AnyOrder<T>(keys: set<T>): (order: seq<T>)
    ensures Enumerates(order, keys)
  {
    if keys == {} then [] else
    var k :| k in keys;
    [k] + AnyOrder(keys - {k})
  }

  /** Any key can come first. */
  lemma OrderStartingWith<T>(k: T, keys: set<T>) returns (order: seq<T>)
    requires k in keys
    ensures Enumerates(order, keys) && order != [] && order[0] == k
  {
    var rest := AnyOrder(keys - {k});
    order := [k] + rest;
    forall e | e in keys ensures e in order {
      if e != k {
        assert e in rest;
      }
    }
    forall i | 0 <= i < |order| ensures order[i] in keys {
      assert i > 0 ==> order[i] == rest[i - 1];
    }
    forall i, j | 0 <= i < j < |order| ensures order[i] != order[j] {
      assert order[j] == rest[j - 1] && (i > 0 ==> order[i] == rest[i - 1]);
    }
  }

  /** Two enumerations of disjoint sets, one after the other. */
  lemma EnumeratesConcat<T>(a: seq<T>, aKeys: set<T>, b: seq<T>, bKeys: set<T>)
    requires Enumerates(a, aKeys) && Enumerates(b, bKeys) && aKeys !! bKeys
    ensures Enumerates(a + b, aKeys + bKeys)
  {
    forall i, j | 0 <= i < j < |a + b| ensures (a + b)[i] != (a + b)[j] {
      if i < |a| <= j {
        assert (a + b)[i] in aKeys && (a + b)[j] in bKeys;
      }
    }
  }

  lemma {:induction false} Members<T>(order: seq<T>, keys: set<T>)
    requires Enumerates(order, keys)
    ensures forall k :: k in order <==> k in keys
  {
    forall k | k in order ensures k in keys {
      var i :| 0 <= i < |order| && order[i] == k;
    }
  }

  /** Cutting an enumeration in two and swapping the halves. */
  lemma SwapHalves<T>(b: seq<T>, a: seq<T>, keys: set<T>)
    requires Enumerates(b + a, keys)
    ensures Enumerates(a + b, keys)
  {
    forall k | k in keys ensures k in a + b {
      assert k in b + a;
    }
    forall i | 0 <= i < |a + b| ensures (a + b)[i] == (b + a)[if i < |a| then |b| + i else i - |a|] {
    }
  }
}
