/** The glyph texture of TextRenderer: its power-of-two height, and where each glyph lies in a row. */
module GlyphTexture {

  // True for zero as well.
  predicate IsPowerOfTwo(val: bv32) { val & (val - 1) == 0 }

  function Smear(v: bv32): bv32 {
    var v1 := v | (v >> 1);
    var v2 := v1 | (v1 >> 2);
    var v4 := v2 | (v2 >> 4);
    var v8 := v4 | (v4 >> 8);
    v8 | (v8 >> 16)
  }

  function PowerOfTwoCeil(val: bv32): bv32 { Smear(val - 1) + 1 }

  // The result is the least power of two that is not below the value, for every value that has one;
  // zero and values beyond the highest bit wrap to zero.
  lemma PowerOfTwoCeilIs(val: bv32)
    ensures IsPowerOfTwo(PowerOfTwoCeil(val))
    ensures 0 < val <= 0x8000_0000 ==> val <= PowerOfTwoCeil(val) && (PowerOfTwoCeil(val) >> 1) < val
    ensures val == 0 || val > 0x8000_0000 ==> PowerOfTwoCeil(val) == 0
  {
  }

  // ---- offsets ----

  const UINT16: nat := 0x1_0000

  ghost predicate SameRow(y: seq<nat>, i: nat, j: nat)
    requires i <= j < |y|
  {
    forall k :: i <= k <= j ==> y[k] == y[i]
  }

  // Where glyph i starts, counting every glyph of its row and the gap behind it.
  function Offset(y: seq<nat>, width: seq<nat>, i: nat): nat
    requires |y| == |width| && i < |y|
  {
    if i == 0 || y[i] != y[i - 1] then 0 else Offset(y, width, i - 1) + width[i - 1] + 1
  }

  // Glyphs of one row do not touch: a pixel at least lies between them.
  lemma {:induction false} RowIsDisjoint(y: seq<nat>, width: seq<nat>, i: nat, j: nat)
    requires |y| == |width| && i < j < |y| && SameRow(y, i, j)
    ensures Offset(y, width, i) + width[i] + 1 <= Offset(y, width, j)
    decreases j
  {
    assert y[j] == y[i] && y[j - 1] == y[i];
    if i < j - 1 {
      RowIsDisjoint(y, width, i, j - 1);
    }
  }

  // initXOffset: the offsets, as long as no row is wider than a uint16_t can count.
  method InitXOffset(y: seq<nat>, width: seq<nat>) returns (xOffset: seq<nat>)
    requires |y| == |width| && forall i :: 0 <= i < |y| ==> y[i] < UINT16
    requires forall i :: 0 <= i < |y| ==> Offset(y, width, i) + width[i] + 1 < UINT16
    ensures |xOffset| == |y| && forall i :: 0 <= i < |y| ==> xOffset[i] == Offset(y, width, i)
    ensures forall i :: 0 <= i < |y| ==>
              xOffset[i] == if i == 0 || y[i] != y[i - 1] then 0 else xOffset[i - 1] + width[i - 1] + 1
  {
    xOffset := [];
    var offset, prevYOffset := 0, UINT16 - 1;
    for i := 0 to |y|
      invariant |xOffset| == i && forall k :: 0 <= k < i ==> xOffset[k] == Offset(y, width, k)
      invariant i == 0 ==> offset == 0
      invariant i > 0 ==> prevYOffset == y[i - 1] && offset == Offset(y, width, i - 1) + width[i - 1] + 1
    {
      if prevYOffset != y[i] {
        prevYOffset := y[i];
        offset := 0;
      }
      xOffset := xOffset + [offset];
      offset := (offset + width[i] + 1) % UINT16;
    }
  }
}
