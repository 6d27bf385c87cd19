/** The ALIGN_TO macro of camera/CameraMetadata.cpp on 64-bit addresses:
    `(val + (alignment - 1)) & ~(alignment - 1)`. */
module Alignment {
  import opened Arithmetic
  import opened Powers

  const ADDRESSES := Pow2(64)

  // Bitwise and, bit by bit from the low end.
  function BitAnd(x: nat, y: nat): nat {
    if x == 0 || y == 0 then 0 else (x % 2) * (y % 2) + 2 * BitAnd(x / 2, y / 2)
  }

  // ALIGN_TO on words of `bits` bits: the sum wraps, and the complement is taken within the word.
  function AlignWord(bits: nat, val: nat, alignment: nat): nat
    requires 0 < alignment <= Pow2(bits)
  {
    BitAnd((val + (alignment - 1)) % Pow2(bits), Pow2(bits) - 1 - (alignment - 1))
  }

  function AlignTo(val: nat, alignment: nat): nat
    requires 0 < alignment <= ADDRESSES
  {
    AlignWord(64, val, alignment)
  }

  // `metadataStart - blob.data()`, as size_t.
  function OffsetWord(bits: nat, address: nat, alignment: nat): nat
    requires 0 < alignment <= Pow2(bits)
  {
    (AlignWord(bits, address, alignment) - address) % Pow2(bits)
  }

  function Offset(address: nat, alignment: nat): nat
    requires 0 < alignment <= ADDRESSES
  {
    OffsetWord(64, address, alignment)
  }

  predicate PowerOfTwo(a: nat) { exists k: nat :: k < 64 && a == Pow2(k) }

  lemma {:induction false} Pow2Order(k: nat, n: nat)
    requires k <= n
    ensures 0 < Pow2(k) <= Pow2(n)
    decreases n
  {
    if n != 0 {
      if k == n {
        Pow2Order(k - 1, n - 1);
      } else {
        Pow2Order(k, n - 1);
      }
    }
  }

  lemma {:induction false} AndAllOnes(n: nat, x: nat)
    requires x < Pow2(n)
    ensures BitAnd(x, Pow2(n) - 1) == x
  {
    if n != 0 && x != 0 {
      Pow2Order(0, n - 1);
      AndAllOnes(n - 1, x / 2);
      assert (Pow2(n) - 1) / 2 == Pow2(n - 1) - 1 && (Pow2(n) - 1) % 2 == 1;
    }
  }

  lemma ModuloByHalves(x: nat, h: nat)
    requires 0 < h
    ensures x % (2 * h) == x % 2 + 2 * ((x / 2) % h)
  {
    var q := (x / 2) / h;
    assert x / 2 == q * h + (x / 2) % h;
    assert x == q * (2 * h) + (x % 2 + 2 * ((x / 2) % h));
    QuotientUnique(x, q, x % 2 + 2 * ((x / 2) % h), 2 * h);
  }

  lemma {:induction false} AndStep(x: nat, y: nat, h: nat)
    requires 0 < h && y % 2 == 0 && x < y + 2 * h
    requires BitAnd(x / 2, y / 2) == x / 2 - (x / 2) % h
    ensures BitAnd(x, y) == x - x % (2 * h)
  {
    ModuloByHalves(x, h);
    if y == 0 {
      SmallModulo(x, 2 * h);
    } else if x != 0 {
      assert BitAnd(x, y) == 2 * BitAnd(x / 2, y / 2);
    }
  }

  // Masking with the complement of 2^k - 1 clears the low k bits.
  lemma {:induction false} ClearsLowBits(n: nat, k: nat, x: nat)
    requires k <= n && x < Pow2(n)
    ensures 0 < Pow2(k) <= Pow2(n)
    ensures BitAnd(x, Pow2(n) - Pow2(k)) == x - x % Pow2(k)
    decreases k
  {
    Pow2Order(k, n);
    if k == 0 {
      AndAllOnes(n, x);
    } else {
      ClearsLowBits(n - 1, k - 1, x / 2);
      var y := Pow2(n) - Pow2(k);
      assert y / 2 == Pow2(n - 1) - Pow2(k - 1);
      AndStep(x, y, Pow2(k - 1));
    }
  }

  lemma SmallModulo(x: nat, d: nat)
    requires x < d
    ensures x % d == x
  {
  }

  lemma ModuloOfRest(x: nat, d: nat)
    requires 0 < d
    ensures (x - x % d) % d == 0
  {
    WholeMultiple(x / d, d);
    assert x - x % d == (x / d) * d;
  }

  // Rounding `val` up to a multiple of `a` among the numbers below `m`, wrapping to 0 at the top.
  lemma RoundUp(val: nat, a: nat, m: nat)
    requires 0 < a <= m && val < m
    ensures var s := (val + (a - 1)) % m;
            var start := s - s % a;
            && start % a == 0 && start < m
            && (start - val) % m < a
            && (val + (start - val) % m) % m == start
  {
    var top := val + (a - 1);
    if top < m {
      SmallModulo(top, m);
      ModuloOfRest(top, a);
      var start := top - top % a;
      assert 0 <= start - val < a;
      SmallModulo(start - val, m);
      SmallModulo(start, m);
    } else {
      QuotientUnique(top, 1, top - m, m);
      SmallModulo(top - m, a);
      assert (0 - val) == (-1) * m + (m - val);
      QuotientUnique(0 - val, -1, m - val, m);
      QuotientUnique(m, 1, 0, m);
      SmallModulo(0, a);
    }
  }

  lemma {:induction false} MaskRoundsDown(bits: nat, val: nat, k: nat)
    requires k < bits
    ensures 0 < Pow2(k) <= Pow2(bits)
    ensures var s := (val + (Pow2(k) - 1)) % Pow2(bits);
            AlignWord(bits, val, Pow2(k)) == s - s % Pow2(k)
  {
    Pow2Order(k, bits);
    var s := (val + (Pow2(k) - 1)) % Pow2(bits);
    ClearsLowBits(bits, k, s);
  }

  lemma {:induction false} WordOffset(bits: nat, address: nat, k: nat)
    requires k < bits && address < Pow2(bits)
    ensures 0 < Pow2(k) <= Pow2(bits)
    ensures OffsetWord(bits, address, Pow2(k)) < Pow2(k)
    ensures AlignWord(bits, address, Pow2(k)) % Pow2(k) == 0
    ensures AlignWord(bits, address, Pow2(k))
         == (address + OffsetWord(bits, address, Pow2(k))) % Pow2(bits)
  {
    MaskRoundsDown(bits, address, k);
    OffsetOfRounded(bits, address, Pow2(k), Pow2(bits));
  }

  lemma {:induction false} OffsetOfRounded(bits: nat, address: nat, a: nat, m: nat)
    requires m == Pow2(bits) && 0 < a <= m && address < m
    requires var s := (address + (a - 1)) % m; AlignWord(bits, address, a) == s - s % a
    ensures OffsetWord(bits, address, a) < a && AlignWord(bits, address, a) % a == 0
    ensures AlignWord(bits, address, a) == (address + OffsetWord(bits, address, a)) % m
  {
    RoundUp(address, a, m);
  }

  // Whatever the address of the blob, the metadata starts at a multiple of the alignment, less than
  // one alignment behind the blob's start.
  lemma AlignedOffset(address: nat, alignment: nat)
    requires address < ADDRESSES && PowerOfTwo(alignment)
    ensures 0 < alignment <= ADDRESSES
    ensures Offset(address, alignment) < alignment
    ensures AlignTo(address, alignment) % alignment == 0
    ensures AlignTo(address, alignment) == (address + Offset(address, alignment)) % ADDRESSES
  {
    var k: nat :| k < 64 && alignment == Pow2(k);
    WordOffset(64, address, k);
  }
}
