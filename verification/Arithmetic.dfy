/** Facts about division by a variable divisor that the solver does not find on its own. */
module Arithmetic {

  lemma {:induction false} NextMultiple(p: int, q: int, d: nat)
    requires 0 < d
    ensures p < q ==> p * d + d <= q * d
    decreases q - p
  {
    if p + 1 < q {
      NextMultiple(p, q - 1, d);
    }
  }

  lemma QuotientUnique(x: int, q: int, r: nat, d: nat)
    requires 0 < d && r < d && x == q * d + r
    ensures x / d == q && x % d == r
  {
    var q', r' := x / d, x % d;
    assert x == q' * d + r';
    NextMultiple(q, q', d);
    NextMultiple(q', q, d);
  }

  lemma DivideWhole(a: nat, b: nat, d: nat)
    requires 0 < d && b % d == 0
    ensures (a + b) / d == a / d + b / d
    ensures a % d == 0 ==> (a + b) % d == 0
    ensures b <= a ==> (a - b) % d == a % d
  {
    var k, j := b / d, a / d;
    assert b == k * d && a == j * d + a % d;
    assert (j + k) * d == j * d + k * d && (j - k) * d == j * d - k * d;
    QuotientUnique(a + b, j + k, a % d, d);
    QuotientUnique(a - b, j - k, a % d, d);
  }

  lemma WholeMultiple(k: int, d: nat)
    requires 0 < d
    ensures (k * d) % d == 0 && k * d / d == k
  {
    QuotientUnique(k * d, k, 0, d);
  }

  lemma DistributeLeft(a: nat, b: nat, d: nat)
    ensures (a + b) * d == a * d + b * d
  {
  }

  lemma OneUnitFits(x: nat, d: nat)
    requires 0 < d <= x
    ensures 1 <= x / d
  {
  }

  lemma GrantFits(granted: nat, x: nat, d: nat)
    requires 0 < d && 1 <= granted <= x / d
    ensures d <= granted * d <= x
  {
    assert x == x / d * d + x % d;
    NextMultiple(0, granted, d);
    if granted < x / d {
      NextMultiple(granted, x / d, d);
    }
  }

  function Min(a: nat, b: nat): nat { if a <= b then a else b }

  // Whole units that fit into k units are at most k.
  lemma WholeFits(x: nat, k: int, d: nat)
    requires 0 < d && x / d * d == x && x <= k * d
    ensures x / d <= k && x % d == 0
  {
    WholeMultiple(x / d, d);
    if k < x / d {
      NextMultiple(k, x / d, d);
    }
  }

  // The smaller of x and k units is a part of a unit if and only if x is, and has room for one more.
  lemma PartOfUnit(x: nat, k: nat, d: nat)
    requires 0 < d
    ensures var least := Min(x, k * d);
            least / d * d != least <==> x % d != 0 && x / d < k
  {
    var q, r := x / d, x % d;
    assert x == q * d + r;
    WholeMultiple(k, d);
    if q < k {
      NextMultiple(q, k, d);
    } else if k < q {
      NextMultiple(k, q, d);
    }
  }
}
