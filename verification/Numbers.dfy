/** Integers as text: what sprintf("%d") prints and what strtol reads, with a 64-bit long. */
module Numbers {

  const LONG_MAX: int := 0x7FFF_FFFF_FFFF_FFFF
  const LONG_MIN: int := -0x8000_0000_0000_0000
  const INT_LIMIT: int := 0x8000_0000

  predicate IsInt(n: int) { -INT_LIMIT <= n < INT_LIMIT }

  // The cast of a long to an int.
  function ToInt(n: int): (r: int)
    ensures IsInt(r) && (IsInt(n) ==> r == n)
  {
    (n + INT_LIMIT) % (2 * INT_LIMIT) - INT_LIMIT
  }

  function Saturate(n: int): int {
    if n > LONG_MAX then LONG_MAX else if n < LONG_MIN then LONG_MIN else n
  }

  predicate IsSpace(c: char) {
    c == ' ' || c == '\t' || c == '\n' || c == '\U{0b}' || c == '\U{0c}' || c == '\r'
  }

  // The digit a character stands for; 36 when it stands for none.
  function DigitOf(c: char): nat {
    if '0' <= c <= '9' then c as int - '0' as int
    else if 'a' <= c <= 'z' then c as int - 'a' as int + 10
    else if 'A' <= c <= 'Z' then c as int - 'A' as int + 10
    else 36
  }

  function SkipSpaces(s: string): (r: string)
    ensures |r| <= |s|
  {
    if s != "" && IsSpace(s[0]) then SkipSpaces(s[1..]) else s
  }

  // The number of characters at the front that are digits of the base.
  function Span(s: string, base: nat): (n: nat)
    ensures n <= |s|
  {
    if s == "" || DigitOf(s[0]) >= base then 0 else 1 + Span(s[1..], base)
  }

  function Value(digits: string, base: nat): nat {
    if digits == "" then 0
    else Value(digits[..|digits| - 1], base) * base + DigitOf(digits[|digits| - 1])
  }

  // The base strtol settles on, and how many characters its prefix takes.
  function BaseOf(s: string, base: nat): (nat, nat) {
    if base != 0 then (base, 0)
    else if |s| >= 3 && s[0] == '0' && (s[1] == 'x' || s[1] == 'X') && DigitOf(s[2]) < 16 then (16, 2)
    else if s != "" && s[0] == '0' then (8, 0)
    else (10, 0)
  }

  // strtol on the characters after an optional sign: the value and what is left, when there is a digit.
  function Unsigned(s: string, base: nat): (r: (nat, string))
    ensures |r.1| <= |s|
  {
    var (b, skip) := BaseOf(s, base);
    var digits := s[skip..];
    var n := Span(digits, b);
    if n == 0 then (0, s) else (Value(digits[..n], b), digits[n..])
  }

  function TakeSign(s: string): (r: (bool, string))
    ensures |r.1| <= |s|
  {
    if s != "" && s[0] == '-' then (true, s[1..])
    else if s != "" && s[0] == '+' then (false, s[1..])
    else (false, s)
  }

  function WithSign(negative: bool, v: int): int { if negative then -v else v }

  // strtol: the value, and the text from the end pointer on.
  function Strtol(s: string, base: nat): (r: (int, string))
    ensures |r.1| <= |s|
  {
    var (negative, u) := TakeSign(SkipSpaces(s));
    var (v, rest) := Unsigned(u, base);
    if |rest| == |u| then (0, s) else (Saturate(WithSign(negative, v)), rest)
  }

  // ---- printing ----

  function PrintNat(n: nat): (s: string)
    ensures s != ""
  {
    var last := ('0' as int + n % 10) as char;
    if n < 10 then [last] else PrintNat(n / 10) + [last]
  }

  function PrintInt(n: int): string { if n < 0 then "-" + PrintNat(-n) else PrintNat(n) }

  predicate IsDigit(c: char) { '0' <= c <= '9' }

  lemma {:induction false} PrintNatDigits(n: nat)
    ensures forall i :: 0 <= i < |PrintNat(n)| ==> IsDigit(PrintNat(n)[i])
    ensures PrintNat(n)[0] == '0' ==> n == 0
  {
    if n >= 10 {
      PrintNatDigits(n / 10);
    }
  }

  lemma PrintIntCharacters(n: int, c: char)
    requires c in PrintInt(n)
    ensures IsDigit(c) || c == '-'
  {
    if n < 0 {
      PrintNatDigits(-n);
    } else {
      PrintNatDigits(n);
    }
  }

  lemma {:induction false} ValueOfPrint(n: nat)
    ensures Value(PrintNat(n), 10) == n
  {
    if n >= 10 {
      ValueOfPrint(n / 10);
      var s := PrintNat(n);
      assert s[..|s| - 1] == PrintNat(n / 10);
    } else {
      assert PrintNat(n)[..0] == "";
    }
  }

  lemma {:induction false} SpanIs(s: string, base: nat, n: nat)
    requires n <= |s| && (forall i :: 0 <= i < n ==> DigitOf(s[i]) < base)
    requires n < |s| ==> DigitOf(s[n]) >= base
    ensures Span(s, base) == n
    decreases n
  {
    if n > 0 {
      SpanIs(s[1..], base, n - 1);
    }
  }

  // The text ends where a number must end: with a character that is no digit.
  predicate Ends(tail: string) { tail == "" || DigitOf(tail[0]) >= 10 }

  lemma {:induction false} UnsignedRoundTrip(n: nat, tail: string)
    requires Ends(tail)
    ensures Unsigned(PrintNat(n) + tail, 10) == (n, tail)
  {
    var s := PrintNat(n) + tail;
    PrintNatDigits(n);
    SpanIs(s, 10, |PrintNat(n)|);
    assert s[..|PrintNat(n)|] == PrintNat(n) && s[|PrintNat(n)|..] == tail && s[0..] == s;
    ValueOfPrint(n);
  }

  lemma DigitsAreTaken(negative: bool, u: string, base: nat, v: nat, rest: string)
    requires u != "" && IsDigit(u[0]) && Unsigned(u, base) == (v, rest) && |rest| < |u|
    ensures Strtol(if negative then "-" + u else u, base) == (Saturate(WithSign(negative, v)), rest)
  {
  }

  function Magnitude(n: int): nat { if n < 0 then -n else n }

  lemma {:induction false} PrintedStart(m: nat, tail: string)
    ensures var u := PrintNat(m) + tail; u != "" && IsDigit(u[0]) && |tail| < |u|
  {
    PrintNatDigits(m);
  }

  // Every int that is printed is read back, and the end pointer stands behind it.
  lemma StrtolRoundTrip(n: int, tail: string)
    requires IsInt(n) && Ends(tail)
    ensures Strtol(PrintInt(n) + tail, 10) == (n, tail)
  {
    var m := Magnitude(n);
    PrintedStart(m, tail);
    UnsignedRoundTrip(m, tail);
    DigitsAreTaken(n < 0, PrintNat(m) + tail, 10, m, tail);
    assert n < 0 ==> PrintInt(n) + tail == "-" + (PrintNat(m) + tail);
  }

  lemma {:induction false} GuessesTen(m: nat)
    ensures Unsigned(PrintNat(m), 0) == (m, "")
  {
    var u := PrintNat(m);
    PrintNatDigits(m);
    if m == 0 {
      ZeroIsOctal();
    } else {
      assert BaseOf(u, 0) == (10, 0);
      UnsignedRoundTrip(m, "");
      assert u + "" == u;
    }
  }

  lemma ZeroIsOctal()
    ensures PrintNat(0) == "0" && Unsigned("0", 0) == (0, "")
  {
    var u := "0";
    SpanIs(u, 8, 1);
    assert u[0..] == u && u[..1] == u && Value(u[..0], 8) == 0;
  }

  // Also when strtol guesses the base: a printed number starts with '0' only when it is zero.
  lemma StrtolGuessesTen(n: int)
    requires IsInt(n)
    ensures Strtol(PrintInt(n), 0) == (n, "")
  {
    hide Strtol, Unsigned, PrintNat;
    var m := Magnitude(n);
    PrintedStart(m, "");
    assert PrintNat(m) + "" == PrintNat(m);
    GuessesTen(m);
    DigitsAreTaken(n < 0, PrintNat(m), 0, m, "");
  }

  // ---- any text ----

  // Whitespace up to i, a sign at most up to j, and a digit.
  predicate NumberAt(s: string, i: nat, j: nat) {
    && i <= j < |s| && (forall k :: 0 <= k < i ==> IsSpace(s[k])) && IsDigit(s[j])
    && (j == i || (j == i + 1 && (s[i] == '-' || s[i] == '+')))
  }

  ghost predicate StartsWithNumber(s: string) {
    exists i: nat, j: nat :: NumberAt(s, i, j)
  }

  // Nothing but one number.
  ghost predicate IsNumeral(s: string) {
    exists i: nat, j: nat :: NumberAt(s, i, j) && forall k :: j <= k < |s| ==> IsDigit(s[k])
  }

  lemma {:induction false} SpanDigits(s: string, base: nat)
    ensures forall k :: 0 <= k < Span(s, base) ==> DigitOf(s[k]) < base
    ensures Span(s, base) < |s| ==> DigitOf(s[Span(s, base)]) >= base
  {
    if s != "" && DigitOf(s[0]) < base {
      SpanDigits(s[1..], base);
    }
  }

  lemma TakesAfterSign(s: string, j: nat)
    requires NumberAt(s, 0, j)
    ensures var n := Span(s[j..], 10);
            n > 0 && Strtol(s, 10).1 == s[j + n..]
  {
    var u := TakeSign(s).1;
    assert SkipSpaces(s) == s && u == s[j..] && u[0..] == u && u[0] == s[j];
    assert u[Span(u, 10)..] == s[j + Span(u, 10)..];
  }

  lemma SpaceIsSkipped(s: string)
    requires s != "" && IsSpace(s[0]) && |Strtol(s[1..], 10).1| < |s[1..]|
    ensures Strtol(s, 10) == Strtol(s[1..], 10)
  {
  }

  // strtol stops behind the digits.
  lemma {:induction false} StrtolTakesNumber(s: string, i: nat, j: nat)
    requires NumberAt(s, i, j)
    ensures var n := Span(s[j..], 10);
            n > 0 && Strtol(s, 10).1 == s[j + n..]
    decreases i
  {
    if i == 0 {
      TakesAfterSign(s, j);
    } else {
      var t, n := s[1..], Span(s[j..], 10);
      StrtolTakesNumber(t, i - 1, j - 1);
      assert t[j - 1..] == s[j..] && t[j - 1 + n..] == s[j + n..];
      SpaceIsSkipped(s);
    }
  }

  // Where no number starts strtol takes nothing and answers zero.
  lemma {:induction false} StrtolTakesNothing(s: string)
    requires !StartsWithNumber(s)
    ensures Strtol(s, 10) == (0, s)
    decreases |s|
  {
    if s != "" && IsSpace(s[0]) {
      assert forall i: nat, j: nat :: NumberAt(s[1..], i, j) ==> NumberAt(s, i + 1, j + 1);
      StrtolTakesNothing(s[1..]);
    } else {
      var u := TakeSign(s).1;
      assert u[0..] == u;
      assert u != "" && IsDigit(u[0]) ==> NumberAt(s, 0, |s| - |u|);
    }
  }

  // ---- literals ----

  lemma {:induction false} PrintedNumbers()
    ensures PrintInt(0) == "0" && PrintInt(7) == "7" && PrintInt(640) == "640" && PrintInt(-12) == "-12"
  {
    assert PrintNat(6) == "6" && PrintNat(64) == "6" + "4" && PrintNat(640) == "64" + "0";
    assert PrintNat(1) == "1" && PrintNat(12) == "1" + "2";
  }

  lemma {:induction false} OneDigit(s: string, base: nat)
    requires |s| >= 1 && DigitOf(s[0]) < base && (|s| > 1 ==> DigitOf(s[1]) >= base)
    ensures Span(s, base) == 1 && Value(s[..1], base) == DigitOf(s[0])
  {
    SpanIs(s, base, 1);
    assert s[..1][..0] == "" && s[..1][0] == s[0];
    assert Value(s[..1], base) == Value("", base) * base + DigitOf(s[0]);
  }

  lemma {:induction false} TwoDigits(s: string, base: nat)
    requires |s| >= 2 && DigitOf(s[0]) < base && DigitOf(s[1]) < base && (|s| > 2 ==> DigitOf(s[2]) >= base)
    ensures Span(s, base) == 2 && Value(s[..2], base) == DigitOf(s[0]) * base + DigitOf(s[1])
  {
    SpanIs(s, base, 2);
    assert s[..2][..1] == s[..1] && s[..1][..0] == "" && s[..2][1] == s[1] && s[..1][0] == s[0];
    assert Value(s[..1], base) == Value("", base) * base + DigitOf(s[0]);
  }

  // Whitespace, a sign, digits, and the text behind them; and no number.
  lemma {:induction false} ReadDecimals()
    ensures Strtol(" -12x", 10) == (-12, "x") && Strtol("x12", 10) == (0, "x12") && Strtol("-", 10) == (0, "-")
  {
    hide PrintInt;
    PrintedNumbers();
    StrtolRoundTrip(-12, "x");
    assert "-12" + "x" == "-12x" && " -12x"[1..] == "-12x";
    SpaceIsSkipped(" -12x");
    var letter, sign := "x12", "-";
    assert letter[0] == 'x' && forall i: nat, j: nat :: !NumberAt(letter, i, j);
    StrtolTakesNothing(letter);
    assert sign[0] == '-' && forall i: nat, j: nat :: !NumberAt(sign, i, j);
    StrtolTakesNothing(sign);
  }

  // The bases that are guessed: sixteen behind "0x", eight behind "0", ten otherwise.
  lemma {:induction false} GuessedBases()
    ensures Unsigned("0x1fg", 0) == (31, "g") && Unsigned("017", 0) == (15, "") && Unsigned("12", 0) == (12, "")
    ensures Unsigned("0Xf", 0) == (15, "") && Unsigned("0xg", 0) == (0, "xg")
  {
    Hexadecimal();
    Octal();
    OneDigit("f", 16);
    OneDigit("0xg", 8);
    assert "0Xf"[2..] == "f" && "f"[1..] == "" && "0xg"[0..] == "0xg" && "0xg"[1..] == "xg";
    TwoDigits("12", 10);
    assert "12"[0..] == "12" && "12"[..2] == "12" && "12"[2..] == "";
  }

  lemma {:induction false} Hexadecimal()
    ensures Unsigned("0x1fg", 0) == (31, "g")
  {
    TwoDigits("1fg", 16);
    assert "0x1fg"[2..] == "1fg" && "1fg"[2..] == "g";
  }

  lemma {:induction false} Octal()
    ensures Unsigned("017", 0) == (15, "")
  {
    var s := "017";
    SpanIs(s, 8, 3);
    assert s[0..] == s && s[..3] == s && s[..2] == "01" && s[..1] == "0" && s[..0] == "" && s[3..] == "";
    assert "01"[..1] == "0" && "0"[..0] == "";
    assert Value("0", 8) == 0 && Value("01", 8) == 1;
  }

  // A long that is no int keeps its low 32 bits.
  lemma CastNumbers()
    ensures ToInt(0x7FFF_FFFF) == 0x7FFF_FFFF && ToInt(0x8000_0000) == -0x8000_0000 && ToInt(0x1_0000_0005) == 5
  {
  }
}
