/** Strings in the order of String8, and SortedVector<String8>. */
module SortedNames {

  function Less(a: string, b: string): bool {
    if b == "" then false
    else if a == "" then true
    else a[0] < b[0] || (a[0] == b[0] && Less(a[1..], b[1..]))
  }

  lemma {:induction false} Irreflexive(a: string)
    ensures !Less(a, a)
    decreases a
  {
    if a != "" {
      Irreflexive(a[1..]);
    }
  }

  lemma {:induction false} Transitive(a: string, b: string, c: string)
    requires Less(a, b) && Less(b, c)
    ensures Less(a, c)
    decreases a
  {
    if a != "" && a[0] == b[0] == c[0] {
      Transitive(a[1..], b[1..], c[1..]);
    }
  }

  lemma {:induction false} Total(a: string, b: string)
    ensures a == b || Less(a, b) || Less(b, a)
    decreases a
  {
    if a != "" && b != "" && a[0] == b[0] {
      Total(a[1..], b[1..]);
      if a[1..] == b[1..] {
        assert a == [a[0]] + a[1..] && b == [b[0]] + b[1..];
      }
    }
  }

  ghost predicate Sorted(s: seq<string>) {
    forall i, j :: 0 <= i < j < |s| ==> Less(s[i], s[j])
  }

  lemma SortedIsDistinct(s: seq<string>, i: nat, j: nat)
    requires Sorted(s) && i < |s| && j < |s| && s[i] == s[j]
    ensures i == j
  {
    Irreflexive(s[i]);
  }

  // SortedVector::add: an equal element is replaced, so the vector holds every string once.
  function Insert(s: seq<string>, x: string): seq<string> {
    if s == [] then [x]
    else if x == s[0] then s
    else if Less(x, s[0]) then [x] + s
    else [s[0]] + Insert(s[1..], x)
  }

  lemma {:induction false} InsertKeepsSorted(s: seq<string>, x: string)
    requires Sorted(s)
    ensures Sorted(Insert(s, x))
    ensures forall y :: y in Insert(s, x) <==> y in s || y == x
    decreases s
  {
    if s != [] && x != s[0] {
      if Less(x, s[0]) {
        forall j | 0 <= j < |s| ensures Less(x, s[j]) {
          if j > 0 {
            Transitive(x, s[0], s[j]);
          }
        }
      } else {
        Total(x, s[0]);
        var rest := Insert(s[1..], x);
        InsertKeepsSorted(s[1..], x);
        forall j | 0 <= j < |rest| ensures Less(s[0], rest[j]) {
          assert rest[j] in rest;
          if rest[j] != x {
            var k :| 0 <= k < |s[1..]| && s[1..][k] == rest[j];
            assert s[k + 1] == rest[j];
          }
        }
      }
    }
  }

  // Adding the strings of a sorted vector in order rebuilds it.
  lemma {:induction false} InsertAtEnd(s: seq<string>, x: string)
    requires forall i :: 0 <= i < |s| ==> Less(s[i], x)
    ensures Insert(s, x) == s + [x]
    decreases s
  {
    if s != [] {
      Irreflexive(x);
      if Less(x, s[0]) {
        Transitive(x, s[0], x);
      }
      InsertAtEnd(s[1..], x);
    }
  }

  // indexOf.
  function IndexOf(s: seq<string>, x: string): (r: nat)
    ensures x in s ==> r < |s| && s[r] == x
    ensures x !in s ==> r == |s|
  {
    if s == [] then 0 else if s[0] == x then 0 else 1 + IndexOf(s[1..], x)
  }

  // The order of strcmp: a proper prefix comes first, otherwise the first character that differs decides.
  lemma {:induction false} LessIff(a: string, b: string)
    ensures Less(a, b) <==> exists k :: FirstDifference(a, b, k)
    decreases a
  {
    if a != "" && b != "" && a[0] == b[0] {
      LessIff(a[1..], b[1..]);
      if k :| FirstDifference(a[1..], b[1..], k) {
        assert FirstDifference(a, b, k + 1);
      }
      if k :| FirstDifference(a, b, k) {
        assert FirstDifference(a[1..], b[1..], k - 1);
      }
    } else {
      assert Less(a, b) ==> FirstDifference(a, b, 0);
    }
  }

  ghost predicate FirstDifference(a: string, b: string, k: int) {
    0 <= k <= |a| && k < |b| && a[..k] == b[..k] && (k == |a| || a[k] < b[k])
  }
}
