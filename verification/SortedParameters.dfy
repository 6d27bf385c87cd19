/** CameraParameters keeps its pairs in a vector sorted by key, each key once. */
module SortedParameters {
  import opened Parameters
  import opened Wrappers

  import SortedNames

  ghost predicate Sorted(p: Params) {
    forall i, j :: 0 <= i < j < |p| ==> SortedNames.Less(p[i].key, p[j].key)
  }

  // KeyedVector's add and replaceValueFor.
  function Put(p: Params, x: Pair): Params {
    if p == [] then [x]
    else if x.key == p[0].key then [x] + p[1..]
    else if SortedNames.Less(x.key, p[0].key) then [x] + p
    else [p[0]] + Put(p[1..], x)
  }

  function PutAll(p: Params, items: Params): Params
    decreases items
  {
    if items == [] then p else PutAll(Put(p, items[0]), items[1..])
  }

  function Read(s: string): Params { PutAll([], Unflatten(s)) }

  function Store(p: Params, key: string, value: string): Params {
    if Accepted(key, value) then Put(p, Pair(key, value)) else p
  }

  // get: an empty value answers like a missing key.
  function Text(p: Params, key: string): Option<string> {
    match Get(p, key)
    case Some(v) => if v == "" then None else Some(v)
    case None => None
  }

  // Where Put leaves its pair: everything before it has a smaller key.
  lemma {:induction false} PutHolds(p: Params, x: Pair, y: Pair)
    requires y in Put(p, x)
    ensures y == x || (y in p && (Sorted(p) ==> y.key != x.key))
    decreases p
  {
    if p != [] && y != x {
      if x.key == p[0].key {
        var i :| 0 <= i < |p[1..]| && p[1..][i] == y;
        assert y == p[i + 1];
        if Sorted(p) {
          SortedNames.Irreflexive(x.key);
        }
      } else if SortedNames.Less(x.key, p[0].key) {
        var i :| 0 <= i < |p| && p[i] == y;
        if Sorted(p) {
          LessThanAll(p, x.key, i);
        }
      } else if y != p[0] {
        PutHolds(p[1..], x, y);
      }
    }
  }

  lemma {:induction false} LessThanAll(p: Params, key: string, i: nat)
    requires Sorted(p) && i < |p| && SortedNames.Less(key, p[0].key)
    ensures SortedNames.Less(key, p[i].key) && key != p[i].key
  {
    if i > 0 {
      SortedNames.Transitive(key, p[0].key, p[i].key);
    }
    SortedNames.Irreflexive(key);
  }

  lemma {:induction false} PutKeepsSorted(p: Params, x: Pair)
    requires Sorted(p)
    ensures Sorted(Put(p, x))
    decreases p
  {
    if p != [] {
      if x.key == p[0].key {
      } else if SortedNames.Less(x.key, p[0].key) {
        forall y | y in p ensures SortedNames.Less(x.key, y.key) {
          var i :| 0 <= i < |p| && p[i] == y;
          LessThanAll(p, x.key, i);
        }
      } else {
        SortedNames.Total(x.key, p[0].key);
        PutKeepsSorted(p[1..], x);
        forall y | y in Put(p[1..], x) ensures SortedNames.Less(p[0].key, y.key) {
          PutHolds(p[1..], x, y);
        }
      }
    }
  }

  // A pair that belongs at the end is added there.
  lemma {:induction false} PutAtEnd(p: Params, x: Pair)
    requires forall i :: 0 <= i < |p| ==> SortedNames.Less(p[i].key, x.key)
    ensures Put(p, x) == p + [x]
    decreases p
  {
    if p != [] {
      SortedNames.Irreflexive(x.key);
      if SortedNames.Less(x.key, p[0].key) {
        SortedNames.Transitive(x.key, p[0].key, x.key);
      }
      PutAtEnd(p[1..], x);
    }
  }

  lemma {:induction false} PutAllInOrder(p: Params, items: Params)
    requires Sorted(p + items)
    ensures PutAll(p, items) == p + items
    decreases items
  {
    if items == [] {
      assert p + items == p;
    } else {
      forall i | 0 <= i < |p| ensures SortedNames.Less(p[i].key, items[0].key) {
        assert (p + items)[i] == p[i] && (p + items)[|p|] == items[0];
      }
      PutAtEnd(p, items[0]);
      assert p + [items[0]] + items[1..] == p + items;
      PutAllInOrder(p + [items[0]], items[1..]);
    }
  }

  lemma {:induction false} PutKeepsClean(p: Params, x: Pair)
    requires AllClean(p) && Clean(x)
    ensures AllClean(Put(p, x))
  {
    var q := Put(p, x);
    forall i | 0 <= i < |q| ensures Clean(q[i]) {
      PutHolds(p, x, q[i]);
    }
  }

  lemma {:induction false} PutAllKeeps(p: Params, items: Params)
    requires Sorted(p) && AllClean(p) && AllClean(items)
    ensures Sorted(PutAll(p, items)) && AllClean(PutAll(p, items))
    decreases items
  {
    if items != [] {
      PutKeepsSorted(p, items[0]);
      PutKeepsClean(p, items[0]);
      PutAllKeeps(Put(p, items[0]), items[1..]);
    }
  }

  lemma ReadIsSortedAndClean(s: string)
    ensures Sorted(Read(s)) && AllClean(Read(s))
  {
    UnflattenIsClean(s);
    PutAllKeeps([], Unflatten(s));
  }

  // A sorted vector is restored from its text exactly when it is clean.
  lemma {:induction false} RoundTripIff(p: Params)
    requires Sorted(p)
    ensures Read(Flatten(p)) == p <==> AllClean(p)
  {
    ReadIsSortedAndClean(Flatten(p));
    if AllClean(p) {
      CleanRoundTrip(p);
      assert [] + p == p;
      PutAllInOrder([], p);
    }
  }

  // ---- runs ----

  function Apply(p: Params, op: Op): Params {
    match op
    case SetOp(k, v) => Store(p, k, v)
    case RemoveOp(k) => Remove(p, k)
    case UnflattenOp(s) => Read(s)
  }

  function After(run: seq<Op>): Params {
    if run == [] then [] else Apply(After(run[..|run| - 1]), run[|run| - 1])
  }

  lemma {:induction false} ReachableIsSorted(run: seq<Op>)
    ensures Sorted(After(run)) && AllClean(After(run))
  {
    if run != [] {
      var p, op := After(run[..|run| - 1]), run[|run| - 1];
      ReachableIsSorted(run[..|run| - 1]);
      match op
      case SetOp(k, v) =>
        if Accepted(k, v) {
          PutKeepsSorted(p, Pair(k, v));
          PutKeepsClean(p, Pair(k, v));
        }
      case RemoveOp(k) =>
      case UnflattenOp(s) => ReadIsSortedAndClean(s);
    }
  }

  lemma {:induction false} ReachableRoundTrip(run: seq<Op>)
    ensures Read(Flatten(After(run))) == After(run)
  {
    ReachableIsSorted(run);
    RoundTripIff(After(run));
  }

  // ---- the two classes hold the same values ----

  lemma GetOfParts(a: Params, b: Params, key: string)
    ensures Get(a + b, key) == match Get(a, key) case Some(v) => Some(v) case None => Get(b, key)
  {
    IndexOfParts(a, b, key);
  }

  lemma GetFirst(x: Pair, p: Params, key: string)
    ensures Get([x] + p, key) == if key == x.key then Some(x.value) else Get(p, key)
  {
  }

  lemma {:induction false} GetAfterPut(p: Params, x: Pair, key: string)
    ensures Get(Put(p, x), key) == if key == x.key then Some(x.value) else Get(p, key)
    decreases p
  {
    if p == [] {
      GetFirst(x, [], key);
    } else {
      var first, rest := p[0], p[1..];
      assert [first] + rest == p;
      GetFirst(first, rest, key);
      if x.key == first.key {
        GetFirst(x, rest, key);
      } else if SortedNames.Less(x.key, first.key) {
        GetFirst(x, p, key);
      } else {
        GetFirst(first, Put(rest, x), key);
        GetAfterPut(rest, x, key);
      }
    }
  }

  lemma GetAfterSet(p: Params, x: Pair, key: string)
    requires DistinctKeys(p) && Accepted(x.key, x.value)
    ensures Get(Set(p, x.key, x.value), key) == if key == x.key then Some(x.value) else Get(p, key)
  {
    GetOfParts(Remove(p, x.key), [x], key);
    GetFirst(x, [], key);
    GetWithout(p, x.key, key);
  }

  lemma GetWithout(p: Params, removed: string, key: string)
    requires DistinctKeys(p)
    ensures Get(Remove(p, removed), key) == if key == removed then None else Get(p, key)
  {
    var i := Index(p, removed);
    if key == removed {
      Remaining(p, removed);
    } else if i < |p| {
      GetAround(p[..i], p[i], p[i + 1..], key);
      assert p[..i] + ([p[i]] + p[i + 1..]) == p;
    }
  }

  lemma GetAround(a: Params, x: Pair, b: Params, key: string)
    requires key != x.key
    ensures Get(a + ([x] + b), key) == Get(a + b, key)
  {
    GetOfParts(a, [x] + b, key);
    GetOfParts(a, b, key);
    GetFirst(x, b, key);
  }

  // Driven by the same sets and removals, both classes hold the same value for every key, and what
  // their get answers differs on empty values only.
  lemma {:induction false} SameValues(run: seq<Op>, key: string)
    requires SetsAndRemoves(run)
    ensures Get(After(run), key) == Get(Parameters.After(run), key)
    ensures Text(After(run), key) == Get(Parameters.After(run), key)
            <==> Get(Parameters.After(run), key) != Some("")
  {
    if run != [] {
      var front, op := run[..|run| - 1], run[|run| - 1];
      var p, q := After(front), Parameters.After(front);
      SameValues(front, key);
      ReachableIsSorted(front);
      SortedIsDistinct(p);
      RunIsInSetOrder(front);
      Parameters.AscendingIsDistinct(q, front);
      match op
      case SetOp(k, v) =>
        if Accepted(k, v) {
          GetAfterPut(p, Pair(k, v), key);
          GetAfterSet(q, Pair(k, v), key);
        }
      case RemoveOp(k) =>
        GetWithout(p, k, key);
        GetWithout(q, k, key);
    }
  }

  lemma SortedIsDistinct(p: Params)
    requires Sorted(p)
    ensures DistinctKeys(p)
  {
    forall i, j | 0 <= i < j < |p| ensures p[i].key != p[j].key {
      SortedNames.Irreflexive(p[i].key);
    }
  }

  // set() refuses a key or a value with '=' or ';' in it; get() answers an empty value like a missing key.
  lemma {:induction false} StoreInFields(p: Params, key: string, value: string)
    requires Sorted(p)
    ensures '=' in key || ';' in key || '=' in value || ';' in value ==> Store(p, key, value) == p
    ensures '=' !in key && ';' !in key && '=' !in value && ';' !in value ==>
              && Get(Store(p, key, value), key) == Some(value)
              && Text(Store(p, key, value), key) == (if value == "" then None else Some(value))
              && forall other :: other != key ==> Get(Store(p, key, value), other) == Get(p, other)
    ensures Get(p, key).None? ==> Text(p, key) == None
  {
    forall other ensures Get(Put(p, Pair(key, value)), other) == if other == key then Some(value) else Get(p, other) {
      GetAfterPut(p, Pair(key, value), other);
    }
  }
}
