/** The text form "key=value;key=value" that CameraParameters and CameraParameters2 share, and the list
    of pairs CameraParameters2 keeps in the order the keys were set. */
module Parameters {
  import opened CameraStatus
  import opened Wrappers

  datatype Pair = Pair(key: string, value: string)

  type Params = seq<Pair>

  // strchr: the index of the first c, |s| for a null result.
  function Find(s: string, c: char): (i: nat)
    ensures i <= |s|
    ensures forall j :: 0 <= j < i ==> s[j] != c
    ensures i < |s| ==> s[i] == c
  {
    if s == "" || s[0] == c then 0 else 1 + Find(s[1..], c)
  }

  // ---- flatten and unflatten ----

  function Item(x: Pair): string { x.key + "=" + x.value }

  function Flatten(p: Params): string {
    if p == [] then ""
    else if |p| == 1 then Item(p[0])
    else Item(p[0]) + ";" + Flatten(p[1..])
  }

  // One turn of unflatten's loop.
  datatype Parsed = NoItem | LastItem(item: Pair) | NextItem(item: Pair, rest: string)

  function Parse(s: string): (r: Parsed)
    ensures r.NextItem? ==> |r.rest| < |s|
  {
    var b := Find(s, '=');
    if b == |s| then NoItem
    else
      var rest := s[b + 1..];
      var e := Find(rest, ';');
      if e == |rest| then LastItem(Pair(s[..b], rest)) else NextItem(Pair(s[..b], rest[..e]), rest[e + 1..])
  }

  function Unflatten(s: string): Params
    decreases |s|
  {
    match Parse(s)
    case NoItem => []
    case LastItem(x) => [x]
    case NextItem(x, rest) => [x] + Unflatten(rest)
  }

  // What the text form can carry: a key ends at the first '=', a value at the first ';'.
  ghost predicate Clean(x: Pair) { '=' !in x.key && ';' !in x.value }

  ghost predicate AllClean(p: Params) { forall i :: 0 <= i < |p| ==> Clean(p[i]) }

  lemma {:induction false} FindFirst(a: string, c: char, b: string)
    requires c !in a
    ensures Find(a + [c] + b, c) == |a|
    ensures (a + [c] + b)[..|a|] == a && (a + [c] + b)[|a| + 1..] == b
  {
    var s := a + [c] + b;
    assert s[|a|] == c;
    forall j | 0 <= j < |a| ensures s[j] != c {
      assert s[j] == a[j];
    }
  }

  lemma ItemIsClean(s: string)
    ensures Parse(s).NoItem? || Clean(Parse(s).item)
  {
  }

  lemma {:induction false} UnflattenIsClean(s: string)
    ensures AllClean(Unflatten(s))
    decreases |s|
  {
    ItemIsClean(s);
    if Parse(s).NextItem? {
      UnflattenIsClean(Parse(s).rest);
    }
  }

  lemma ParseItem(x: Pair)
    requires Clean(x)
    ensures Parse(Item(x)) == LastItem(x)
  {
    FindFirst(x.key, '=', x.value);
  }

  lemma ParseNext(x: Pair, rest: string)
    requires Clean(x)
    ensures Parse(Item(x) + ";" + rest) == NextItem(x, rest)
  {
    var tail := x.value + ";" + rest;
    assert Item(x) + ";" + rest == x.key + "=" + tail;
    FindFirst(x.key, '=', tail);
    FindFirst(x.value, ';', rest);
  }

  lemma {:induction false} CleanRoundTrip(p: Params)
    requires AllClean(p)
    ensures Unflatten(Flatten(p)) == p
    decreases p
  {
    if |p| == 1 {
      ParseItem(p[0]);
    } else if |p| > 1 {
      var rest := p[1..];
      CleanRoundTrip(rest);
      ParseNext(p[0], Flatten(rest));
      assert Unflatten(Flatten(p)) == [p[0]] + Unflatten(Flatten(rest));
    }
  }

  // Reading back a written list gives it back, keys, values and order, exactly when it is clean.
  lemma {:induction false} RoundTripIff(p: Params)
    ensures Unflatten(Flatten(p)) == p <==> AllClean(p)
  {
    if AllClean(p) {
      CleanRoundTrip(p);
    }
    UnflattenIsClean(Flatten(p));
  }

  // Parsing only normalises once: what was parsed is printed and parsed to itself.
  lemma {:induction false} ParsedRoundTrip(s: string)
    ensures Unflatten(Flatten(Unflatten(s))) == Unflatten(s)
  {
    UnflattenIsClean(s);
    CleanRoundTrip(Unflatten(s));
  }

  // ---- the ordered list of CameraParameters2 ----

  // indexOfKey: the first pair with the key, |p| for NAME_NOT_FOUND.
  function Index(p: Params, key: string): (i: nat)
    ensures i <= |p|
    ensures forall j :: 0 <= j < i ==> p[j].key != key
    ensures i < |p| ==> p[i].key == key
  {
    if p == [] || p[0].key == key then 0 else 1 + Index(p[1..], key)
  }

  function Get(p: Params, key: string): Option<string> {
    if Index(p, key) < |p| then Some(p[Index(p, key)].value) else None
  }

  function Remove(p: Params, key: string): Params {
    var i := Index(p, key);
    if i < |p| then p[..i] + p[i + 1..] else p
  }

  predicate Accepted(key: string, value: string) {
    '=' !in key && ';' !in key && '=' !in value && ';' !in value
  }

  function Set(p: Params, key: string, value: string): Params {
    if Accepted(key, value) then Remove(p, key) + [Pair(key, value)] else p
  }

  // compareSetOrder, for keys that are not null.
  function CompareSetOrder(p: Params, key1: string, key2: string): Result<int, Status> {
    var i, j := Index(p, key1), Index(p, key2);
    if i == |p| || j == |p| then Err(NAME_NOT_FOUND)
    else Ok(if i == j then 0 else if i < j then -1 else 1)
  }

  ghost predicate DistinctKeys(p: Params) {
    forall i, j :: 0 <= i < j < |p| ==> p[i].key != p[j].key
  }

  // ---- runs ----

  datatype Op =
    | SetOp(key: string, value: string)
    | RemoveOp(key: string)
    | UnflattenOp(text: string)

  function Apply(p: Params, op: Op): Params {
    match op
    case SetOp(k, v) => Set(p, k, v)
    case RemoveOp(k) => Remove(p, k)
    case UnflattenOp(s) => Unflatten(s)
  }

  function After(run: seq<Op>): Params {
    if run == [] then [] else Apply(After(run[..|run| - 1]), run[|run| - 1])
  }

  lemma {:induction false} ReachableIsClean(run: seq<Op>)
    ensures AllClean(After(run))
  {
    if run != [] {
      var p, op := After(run[..|run| - 1]), run[|run| - 1];
      ReachableIsClean(run[..|run| - 1]);
      if op.UnflattenOp? {
        UnflattenIsClean(op.text);
      }
    }
  }

  // After any sequence of set, remove and unflatten, the text form restores the parameters.
  lemma {:induction false} ReachableRoundTrip(run: seq<Op>)
    ensures Unflatten(Flatten(After(run))) == After(run)
  {
    ReachableIsClean(run);
    CleanRoundTrip(After(run));
  }

  // Op is the kind that decides what is known of a key: an accepted set, or a removal.
  predicate Touches(op: Op, key: string) {
    match op
    case SetOp(k, v) => k == key && Accepted(k, v)
    case RemoveOp(k) => k == key
    case UnflattenOp(_) => false
  }

  // The latest accepted set of a key that no removal follows; |run| when there is none.
  ghost function LatestSet(run: seq<Op>, key: string): (i: nat)
    ensures i <= |run|
    ensures i < |run| ==> run[i].SetOp? && Touches(run[i], key)
                          && forall j :: i < j < |run| ==> !Touches(run[j], key)
    ensures i == |run| ==> forall j :: 0 <= j < |run| && run[j].SetOp? && Touches(run[j], key) ==>
                                         exists m :: j < m < |run| && run[m] == RemoveOp(key)
  {
    if run == [] then 0
    else
      var n := |run| - 1;
      if Touches(run[n], key) then if run[n].SetOp? then n else |run|
      else
        var i := LatestSet(run[..n], key);
        if i == n then |run| else i
  }

  ghost predicate IsLatest(run: seq<Op>, x: Pair) {
    LatestSet(run, x.key) < |run| && run[LatestSet(run, x.key)] == SetOp(x.key, x.value)
  }

  ghost predicate Ascending(p: Params, run: seq<Op>) {
    forall i, j :: 0 <= i < j < |p| ==> LatestSet(run, p[i].key) < LatestSet(run, p[j].key)
  }

  predicate Holds(p: Params, key: string) { exists i :: 0 <= i < |p| && p[i].key == key }

  // A list in which every key stands once, with its latest value, in the order of the latest sets.
  ghost predicate InSetOrder(p: Params, run: seq<Op>) {
    (forall i :: 0 <= i < |p| ==> IsLatest(run, p[i])) && Ascending(p, run)
    && forall k :: LatestSet(run, k) < |run| ==> Holds(p, k)
  }

  lemma AscendingIsDistinct(p: Params, run: seq<Op>)
    requires Ascending(p, run)
    ensures DistinctKeys(p)
  {
  }

  lemma {:induction false} LatestUntouched(run: seq<Op>, op: Op, key: string)
    requires !Touches(op, key)
    ensures var l := LatestSet(run, key);
            LatestSet(run + [op], key) == if l == |run| then |run| + 1 else l
  {
  }

  lemma UntouchedIsLatest(run: seq<Op>, op: Op, x: Pair)
    requires !Touches(op, x.key) && IsLatest(run, x)
    ensures IsLatest(run + [op], x)
  {
  }

  // Removing a key keeps the rest, in order.
  lemma {:induction false} Remaining(p: Params, key: string)
    requires DistinctKeys(p)
    ensures var q, c := Remove(p, key), Index(p, key);
            |q| == (if c < |p| then |p| - 1 else |p|)
            && forall i :: 0 <= i < |q| ==> q[i] == p[if i < c then i else i + 1] && q[i].key != key
  {
  }

  lemma RemainingHolds(p: Params, key: string, k: string)
    requires Holds(p, k) && k != key
    ensures Holds(Remove(p, key), k)
  {
    var c := Index(p, key);
    var i :| 0 <= i < |p| && p[i].key == k;
    if i < c {
      assert Remove(p, key)[i] == p[i];
    } else {
      assert Remove(p, key)[if c == |p| then i else i - 1] == p[i];
    }
  }

  // An operation on one key leaves the other keys' pairs the latest, in their order.
  lemma {:induction false} OthersInOrder(p: Params, run: seq<Op>, op: Op, key: string)
    requires InSetOrder(p, run) && forall k :: k != key ==> !Touches(op, k)
    ensures var q := Remove(p, key);
            (forall i :: 0 <= i < |q| ==> q[i].key != key && IsLatest(run + [op], q[i])
                                          && LatestSet(run + [op], q[i].key) < |run|)
            && Ascending(q, run + [op])
  {
    var q := Remove(p, key);
    AscendingIsDistinct(p, run);
    Remaining(p, key);
    forall i | 0 <= i < |q|
      ensures q[i].key != key && IsLatest(run, q[i]) && IsLatest(run + [op], q[i])
      ensures LatestSet(run + [op], q[i].key) == LatestSet(run, q[i].key)
    {
      UntouchedIsLatest(run, op, q[i]);
      LatestUntouched(run, op, q[i].key);
    }
  }

  lemma {:induction false} OthersHeld(p: Params, run: seq<Op>, op: Op, key: string, k: string)
    requires InSetOrder(p, run) && k != key && !Touches(op, k)
    requires LatestSet(run + [op], k) < |run| + 1
    ensures Holds(Remove(p, key), k)
  {
    LatestUntouched(run, op, k);
    RemainingHolds(p, key, k);
  }

  lemma RemoveKeepsOrder(p: Params, run: seq<Op>, key: string)
    requires InSetOrder(p, run)
    ensures InSetOrder(Remove(p, key), run + [RemoveOp(key)])
  {
    var op := RemoveOp(key);
    OthersInOrder(p, run, op, key);
    forall k | LatestSet(run + [op], k) < |run| + 1 ensures Holds(Remove(p, key), k) {
      OthersHeld(p, run, op, key, k);
    }
  }

  lemma {:induction false} SetIsLatest(run: seq<Op>, key: string, value: string)
    requires Accepted(key, value)
    ensures var after := run + [SetOp(key, value)];
            IsLatest(after, Pair(key, value)) && LatestSet(after, key) == |run|
  {
  }

  lemma HoldsMore(p: Params, x: Pair, key: string)
    requires key == x.key || Holds(p, key)
    ensures Holds(p + [x], key)
  {
    if key == x.key {
      assert (p + [x])[|p|].key == key;
    } else {
      var i :| 0 <= i < |p| && p[i].key == key;
      assert (p + [x])[i].key == key;
    }
  }

  // A pair whose latest set comes after all others may stand at the end.
  lemma {:induction false} AppendLatest(q: Params, x: Pair, run: seq<Op>)
    requires forall i :: 0 <= i < |q| ==> IsLatest(run, q[i]) && LatestSet(run, q[i].key) < LatestSet(run, x.key)
    requires Ascending(q, run) && IsLatest(run, x)
    ensures Ascending(q + [x], run) && forall i :: 0 <= i < |q + [x]| ==> IsLatest(run, (q + [x])[i])
  {
  }

  lemma SetKeepsOrder(p: Params, run: seq<Op>, key: string, value: string)
    requires InSetOrder(p, run) && Accepted(key, value)
    ensures InSetOrder(Set(p, key, value), run + [SetOp(key, value)])
  {
    var op, q, x := SetOp(key, value), Remove(p, key), Pair(key, value);
    OthersInOrder(p, run, op, key);
    SetIsLatest(run, key, value);
    AppendLatest(q, x, run + [op]);
    forall k | LatestSet(run + [op], k) < |run| + 1 ensures Holds(q + [x], k) {
      if k != key {
        OthersHeld(p, run, op, key, k);
      }
      HoldsMore(q, x, k);
    }
  }

  lemma RefusedKeepsOrder(p: Params, run: seq<Op>, key: string, value: string)
    requires InSetOrder(p, run) && !Accepted(key, value)
    ensures InSetOrder(p, run + [SetOp(key, value)])
  {
  }

  ghost predicate SetsAndRemoves(run: seq<Op>) { forall i :: 0 <= i < |run| ==> !run[i].UnflattenOp? }

  lemma {:induction false} RunIsInSetOrder(run: seq<Op>)
    requires SetsAndRemoves(run)
    ensures InSetOrder(After(run), run)
  {
    if run != [] {
      var front, op := run[..|run| - 1], run[|run| - 1];
      RunIsInSetOrder(front);
      assert run == front + [op];
      match op
      case SetOp(k, v) =>
        if Accepted(k, v) {
          SetKeepsOrder(After(front), front, k, v);
        } else {
          RefusedKeepsOrder(After(front), front, k, v);
        }
      case RemoveOp(k) => RemoveKeepsOrder(After(front), front, k);
    }
  }

  // A key that was set and not removed since answers with its latest accepted value; any other key is
  // not found.
  lemma {:induction false} GetsTheLatest(run: seq<Op>, key: string)
    requires SetsAndRemoves(run)
    ensures var l := LatestSet(run, key);
            Get(After(run), key) == if l < |run| then Some(run[l].value) else None
  {
    RunIsInSetOrder(run);
    var p := After(run);
    if Index(p, key) < |p| {
      assert IsLatest(run, p[Index(p, key)]);
    }
  }

  // Two keys compare by their latest accepted sets.
  lemma {:induction false} ComparesBySetOrder(run: seq<Op>, key1: string, key2: string)
    requires SetsAndRemoves(run)
    ensures var a, b := LatestSet(run, key1), LatestSet(run, key2);
            CompareSetOrder(After(run), key1, key2)
            == if a == |run| || b == |run| then Err(NAME_NOT_FOUND)
               else Ok(if a == b then 0 else if a < b then -1 else 1)
  {
    RunIsInSetOrder(run);
    var p := After(run);
    var i, j := Index(p, key1), Index(p, key2);
    if i < |p| {
      assert IsLatest(run, p[i]);
    }
    if j < |p| {
      assert IsLatest(run, p[j]);
    }
  }

  // ---- keys that occur twice ----

  // unflatten adds without looking for the key, so a text can make a key occur twice; set then removes
  // only the first pair, and get answers with the one that was left.
  lemma {:induction false} DuplicateKeyHidesSet(key: string, first: string, second: string, value: string)
    requires Accepted(key, first) && Accepted(key, second) && Accepted(key, value)
    ensures var p := Unflatten(key + "=" + first + ";" + (key + "=" + second));
            p == [Pair(key, first), Pair(key, second)] && Get(Set(p, key, value), key) == Some(second)
  {
    var a, b := Pair(key, first), Pair(key, second);
    ParseNext(a, Item(b));
    ParseItem(b);
    assert Index([a, b], key) == 0;
    assert Remove([a, b], key) == [b];
    assert Set([a, b], key, value)[0] == b;
  }

  // The second pair with a key; |p| when there is none.
  function SecondIndex(p: Params, key: string): nat {
    var i := Index(p, key);
    if i == |p| then |p| else i + 1 + Index(p[i + 1..], key)
  }

  lemma {:induction false} IndexOfParts(a: Params, b: Params, key: string)
    ensures Index(a + b, key) == if Index(a, key) < |a| then Index(a, key) else |a| + Index(b, key)
    decreases a
  {
    if a == [] {
      assert a + b == b;
    } else {
      assert (a + b)[1..] == a[1..] + b;
      IndexOfParts(a[1..], b, key);
    }
  }

  lemma GetAfterRemove(p: Params, key: string)
    ensures var k := SecondIndex(p, key);
            k <= |p| && Get(Remove(p, key), key) == if k < |p| then Some(p[k].value) else None
  {
    var i := Index(p, key);
    if i < |p| {
      IndexOfParts(p[..i], p[i + 1..], key);
      assert Index(p[..i], key) == i;
    }
  }

  // An accepted set is what get answers with exactly when the key did not occur a second time with
  // another value.
  lemma SetThenGetIff(p: Params, key: string, value: string)
    requires Accepted(key, value)
    ensures var k := SecondIndex(p, key);
            Get(Set(p, key, value), key) == Some(value) <==> (k >= |p| || p[k].value == value)
  {
    GetAfterRemove(p, key);
    IndexOfParts(Remove(p, key), [Pair(key, value)], key);
  }

  // ---- the text form and the operations, in literals ----

  // Pairs with '=' inside, and ';' between them but not behind the last.
  lemma {:induction false} TextOfPairs(a: Pair, b: Pair, more: Params)
    ensures Flatten([]) == "" && Flatten([a]) == a.key + "=" + a.value
    ensures Flatten([a, b] + more) == a.key + "=" + a.value + ";" + Flatten([b] + more)
  {
    assert ([a, b] + more)[1..] == [b] + more;
    assert Item(a) + ";" + Flatten([b] + more) == a.key + "=" + a.value + ";" + Flatten([b] + more);
  }

  // What unflatten makes of a text: the part before the first '=' is a key, what follows up to the first ';'
  // is its value, and the rest is read on. A text without '=' ends the list.
  lemma {:induction false} PairsOfText(key: string, value: string, rest: string)
    requires '=' !in key && ';' !in value
    ensures Unflatten(key) == []
    ensures Unflatten(key + ("=" + value)) == [Pair(key, value)]
    ensures Unflatten(key + ("=" + (value + (";" + rest)))) == [Pair(key, value)] + Unflatten(rest)
  {
    FindFirst(key, '=', value);
    FindFirst(key, '=', value + (";" + rest));
    FindFirst(value, ';', rest);
    assert key + "=" + value == key + ("=" + value);
    assert (key + ("=" + value))[|key| + 1..] == value;
    assert (key + ("=" + (value + (";" + rest))))[|key| + 1..] == value + (";" + rest);
    assert (value + (";" + rest))[|value| + 1..] == rest;
    assert value + ";" + rest == value + (";" + rest);
    assert key + "=" + (value + (";" + rest)) == key + ("=" + (value + (";" + rest)));
  }

  // set() refuses a key or a value with '=' or ';' in it. Otherwise the pair comes to stand at the end, and
  // the first pair that had the key is gone.
  lemma {:induction false} SetInFields(p: Params, key: string, value: string)
    ensures '=' in key || ';' in key || '=' in value || ';' in value ==> Set(p, key, value) == p
    ensures '=' !in key && ';' !in key && '=' !in value && ';' !in value ==>
              && ((forall x <- p :: x.key != key) ==> Set(p, key, value) == p + [Pair(key, value)])
              && forall i :: 0 <= i < |p| && p[i].key == key && (forall j :: 0 <= j < i ==> p[j].key != key) ==>
                   Set(p, key, value) == p[..i] + p[i + 1..] + [Pair(key, value)]
  {
    var i := Index(p, key);
    if i < |p| {
      assert p[i] in p;
    }
  }

  // remove() takes the first pair with the key, and get() answers with its value.
  lemma {:induction false} RemoveInFields(p: Params, key: string)
    ensures (forall x <- p :: x.key != key) ==> Remove(p, key) == p && Get(p, key) == None
    ensures forall i :: 0 <= i < |p| && p[i].key == key && (forall j :: 0 <= j < i ==> p[j].key != key) ==>
              Remove(p, key) == p[..i] + p[i + 1..] && Get(p, key) == Some(p[i].value)
  {
    var i := Index(p, key);
    if i < |p| {
      assert p[i] in p;
    }
  }
}
