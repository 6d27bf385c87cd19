/** Pairs of integers and lists of sizes in parameter values. */
module Sizes {
  import opened Numbers
  import opened Sequences
  import opened Wrappers

  datatype Size = Size(width: int, height: int)

  // parse_pair: the pair and the text behind it, or None for its -1.
  function ParsePair(s: string, delim: char): (r: Option<(int, int, string)>)
    ensures r.Some? ==> |r.value.2| < |s|
  {
    var (w, end) := Strtol(s, 10);
    if end == "" || end[0] != delim then None
    else
      var (h, rest) := Strtol(end[1..], 10);
      Some((ToInt(w), ToInt(h), rest))
  }

  function PrintPair(first: int, second: int, delim: char): string {
    PrintInt(first) + [delim] + PrintInt(second)
  }

  lemma PairRoundTrip(first: int, second: int, delim: char, tail: string)
    requires IsInt(first) && IsInt(second) && DigitOf(delim) >= 10 && Ends(tail)
    ensures ParsePair(PrintPair(first, second, delim) + tail, delim) == Some((first, second, tail))
  {
    var behind := [delim] + (PrintInt(second) + tail);
    assert PrintPair(first, second, delim) + tail == PrintInt(first) + behind;
    StrtolRoundTrip(first, behind);
    assert behind[1..] == PrintInt(second) + tail;
    StrtolRoundTrip(second, tail);
  }

  // parseSizesList: what is pushed.
  function ParseSizes(s: string): seq<Size>
    decreases |s|
  {
    match ParsePair(s, 'x')
    case None => []
    case Some((w, h, rest)) =>
      if rest == "" then [Size(w, h)]
      else if rest[0] != ',' then []
      else [Size(w, h)] + ParseSizes(rest[1..])
  }

  function PrintSize(z: Size): string { PrintPair(z.width, z.height, 'x') }

  function PrintSizes(list: seq<Size>): string {
    if list == [] then ""
    else if |list| == 1 then PrintSize(list[0])
    else PrintSize(list[0]) + "," + PrintSizes(list[1..])
  }

  ghost predicate AllInts(list: seq<Size>) {
    forall z :: z in list ==> IsInt(z.width) && IsInt(z.height)
  }

  lemma {:induction false} SizeThen(z: Size, more: string)
    requires IsInt(z.width) && IsInt(z.height)
    ensures ParseSizes(PrintSize(z) + "," + more) == [z] + ParseSizes(more)
  {
    var tail := "," + more;
    assert PrintSize(z) + "," + more == PrintSize(z) + tail && tail[1..] == more;
    PairRoundTrip(z.width, z.height, 'x', tail);
  }

  // The printed list with a comma behind each size, in front of any text.
  function PrintBefore(list: seq<Size>, more: string): string {
    if list == [] then more else PrintSize(list[0]) + "," + PrintBefore(list[1..], more)
  }

  lemma {:induction false} PrintedBefore(list: seq<Size>, more: string)
    requires list != []
    ensures PrintSizes(list) + "," + more == PrintBefore(list, more)
    decreases list
  {
    if |list| == 1 {
      assert PrintBefore(list[1..], more) == more;
    } else {
      PrintedBefore(list[1..], more);
      assert PrintSizes(list) + "," + more == PrintSize(list[0]) + "," + (PrintSizes(list[1..]) + "," + more);
    }
  }

  lemma {:induction false} PairsBefore(list: seq<Size>, more: string)
    requires AllInts(list)
    ensures ParseSizes(PrintBefore(list, more)) == list + ParseSizes(more)
    decreases list
  {
    if list == [] {
      assert list + ParseSizes(more) == ParseSizes(more);
    } else {
      assert list[0] in list;
      PairsBefore(list[1..], more);
      SizeThen(list[0], PrintBefore(list[1..], more));
      Regroup([list[0]], list[1..], ParseSizes(more));
      assert [list[0]] + list[1..] == list;
    }
  }

  // The pairs before any text are kept, whatever that text is.
  lemma {:induction false} SizesThen(list: seq<Size>, more: string)
    requires AllInts(list) && list != []
    ensures ParseSizes(PrintSizes(list) + "," + more) == list + ParseSizes(more)
  {
    PrintedBefore(list, more);
    PairsBefore(list, more);
  }

  // A list that is printed is read back, zero and negative sizes included.
  lemma {:induction false} SizesRoundTrip(list: seq<Size>)
    requires AllInts(list) && list != []
    ensures ParseSizes(PrintSizes(list)) == list
    decreases list
  {
    assert list[0] in list;
    if |list| == 1 {
      PairRoundTrip(list[0].width, list[0].height, 'x', "");
      assert PrintSize(list[0]) + "" == PrintSize(list[0]);
    } else {
      SizeThen(list[0], PrintSizes(list[1..]));
      SizesRoundTrip(list[1..]);
    }
  }

  // An item that does not parse, or that something other than a comma follows.
  predicate Malformed(s: string) {
    match ParsePair(s, 'x')
    case None => true
    case Some((_, _, rest)) => rest != "" && rest[0] != ','
  }

  // Exactly the pairs before a malformed item are kept.
  lemma {:induction false} MalformedEndsTheList(list: seq<Size>, bad: string)
    requires AllInts(list) && list != []
    ensures ParseSizes(bad) == [] <==> Malformed(bad)
    ensures ParseSizes(PrintSizes(list) + "," + bad) == list <==> Malformed(bad)
  {
    SizesThen(list, bad);
  }

  predicate IsDelimiter(c: char) {
    DigitOf(c) >= 10 && !Numbers.IsSpace(c) && c != '-' && c != '+'
  }

  lemma AtFront(front: string, tail: string, i: nat, j: nat)
    requires j < |front|
    ensures NumberAt(front + tail, i, j) <==> NumberAt(front, i, j)
  {
    var s := front + tail;
    assert forall k :: 0 <= k < |front| ==> s[k] == front[k];
  }

  // The digits of a number that lies in front of a delimiter.
  lemma DigitsAtFront(front: string, tail: string, j: nat)
    requires tail != "" && IsDelimiter(tail[0]) && j < |front|
    ensures Span((front + tail)[j..], 10) == Span(front[j..], 10)
  {
    var digits, n := front[j..], Span(front[j..], 10);
    assert (front + tail)[j..] == digits + tail;
    SpanDigits(digits, 10);
    SpanIs(digits + tail, 10, n);
  }

  lemma StopsAtDelimiter(front: string, tail: string)
    requires tail != "" && IsDelimiter(tail[0]) && IsNumeral(front)
    ensures Strtol(front + tail, 10).1 == tail
  {
    var i: nat, j: nat :| NumberAt(front, i, j) && forall k :: j <= k < |front| ==> IsDigit(front[k]);
    AtFront(front, tail, i, j);
    StrtolTakesNumber(front + tail, i, j);
    DigitsAtFront(front, tail, j);
    AllDigits(front, j);
    assert (front + tail)[|front|..] == tail;
  }

  lemma AllDigits(s: string, j: nat)
    requires j <= |s|
    ensures Span(s[j..], 10) == |s| - j <==> forall k :: j <= k < |s| ==> IsDigit(s[k])
  {
    var digits := s[j..];
    SpanDigits(digits, 10);
    assert forall k :: j <= k < |s| ==> digits[k - j] == s[k];
    if forall k :: j <= k < |s| ==> IsDigit(s[k]) {
      SpanIs(digits, 10, |digits|);
    }
  }

  lemma NoNumberBehind(front: string, tail: string, i: nat, j: nat)
    requires tail != "" && IsDelimiter(tail[0]) && NumberAt(front + tail, i, j)
    ensures j < |front|
  {
    assert (front + tail)[|front|] == tail[0];
  }

  lemma StopsElsewhere(front: string, tail: string)
    requires tail != "" && IsDelimiter(tail[0]) && tail[0] !in front && front != "" && !IsNumeral(front)
    ensures var end := Strtol(front + tail, 10).1;
            end == "" || end[0] != tail[0]
  {
    var s := front + tail;
    if i: nat, j: nat :| NumberAt(s, i, j) {
      NoNumberBehind(front, tail, i, j);
      AtFront(front, tail, i, j);
      StrtolTakesNumber(s, i, j);
      DigitsAtFront(front, tail, j);
      AllDigits(front, j);
      var n := Span(front[j..], 10);
      assert j + n < |front|;
      assert s[j + n..][0] == front[j + n] && front[j + n] in front;
    } else {
      StrtolTakesNothing(s);
      assert s[0] == front[0] && front[0] in front;
    }
  }

  lemma NothingBefore(tail: string)
    requires tail != "" && IsDelimiter(tail[0])
    ensures Strtol(tail, 10) == (0, tail)
  {
    assert forall i: nat, j: nat :: !NumberAt(tail, i, j);
    StrtolTakesNothing(tail);
  }

  // A text is accepted if and only if nothing, or nothing but one number, stands before its first
  // delimiter. What follows the delimiter does not matter.
  lemma PairAcceptedIff(front: string, delim: char, after: string)
    requires IsDelimiter(delim) && delim !in front
    ensures ParsePair(front + [delim] + after, delim).Some? <==> front == "" || IsNumeral(front)
  {
    var tail := [delim] + after;
    assert front + [delim] + after == front + tail;
    if front == "" {
      NothingBefore(tail);
      assert front + tail == tail;
    } else if IsNumeral(front) {
      StopsAtDelimiter(front, tail);
    } else {
      StopsElsewhere(front, tail);
    }
  }

  // Numbers may be missing on either side of the delimiter. In every accepted text the first component
  // is zero without any digit if and only if no number stands before the delimiter, and the second if and
  // only if none follows it.
  lemma MissingNumbersAreZero(front: string, delim: char, after: string)
    requires IsDelimiter(delim) && delim !in front
    requires ParsePair(front + [delim] + after, delim).Some?
    ensures var (first, second, rest) := ParsePair(front + [delim] + after, delim).value;
            && (front == "" <==> !StartsWithNumber(front)) && (front == "" ==> first == 0)
            && (rest == after <==> !StartsWithNumber(after)) && (rest == after ==> second == 0)
  {
    var tail := [delim] + after;
    PairAcceptedIff(front, delim, after);
    assert front + [delim] + after == front + tail && tail[1..] == after;
    if front == "" {
      NothingBefore(tail);
      assert front + tail == tail;
    } else {
      StopsAtDelimiter(front, tail);
    }
    StrtolMissingIff(after);
  }

  lemma NoDelimiterIsRefused(s: string, delim: char)
    requires delim !in s
    ensures ParsePair(s, delim) == None
  {
    if i: nat, j: nat :| NumberAt(s, i, j) {
      StrtolTakesNumber(s, i, j);
    } else {
      StrtolTakesNothing(s);
    }
  }

  lemma StrtolMissingIff(s: string)
    ensures Strtol(s, 10).1 == s <==> !StartsWithNumber(s)
    ensures Strtol(s, 10).1 == s ==> Strtol(s, 10).0 == 0
  {
    if i: nat, j: nat :| NumberAt(s, i, j) {
      StrtolTakesNumber(s, i, j);
    } else {
      StrtolTakesNothing(s);
    }
  }

  method ParsePairAt(s: string, delim: char) returns (r: Option<(int, int, string)>)
    ensures r == ParsePair(s, delim)
  {
    var (w, end) := Strtol(s, 10);
    if end == "" || end[0] != delim {
      return None;
    }
    var (h, rest) := Strtol(end[1..], 10);
    return Some((ToInt(w), ToInt(h), rest));
  }

  method ParseSizesList(sizesStr: Option<string>, before: seq<Size>) returns (sizes: seq<Size>)
    ensures sizes == before + match sizesStr case Some(s) => ParseSizes(s) case None => []
  {
    sizes := before;
    if sizesStr.None? {
      return;
    }
    var s := sizesStr.value;
    while true
      invariant sizes + ParseSizes(s) == before + ParseSizes(sizesStr.value)
      decreases |s|
    {
      var pair := ParsePairAt(s, 'x');
      if pair.None? {
        return;
      }
      var (width, height, rest) := pair.value;
      if rest != "" && rest[0] != ',' {
        return;
      }
      sizes := sizes + [Size(width, height)];
      if rest == "" {
        return;
      }
      s := rest[1..];
    }
  }

  // ---- literals ----

  // Width, 'x', height, and ',' between sizes.
  lemma {:induction false} PrintedSizes()
    ensures PrintSizes([Size(640, 480), Size(-12, 0)]) == "640x480,-12x0"
  {
    PrintedNumbers();
    PrintedHeight();
    assert [Size(640, 480), Size(-12, 0)][1..] == [Size(-12, 0)];
    assert PrintSize(Size(640, 480)) == "640x480" && PrintSize(Size(-12, 0)) == "-12x0";
  }

  // So that text reads as those sizes.
  lemma {:induction false} ReadSizes()
    ensures ParseSizes("640x480,-12x0") == [Size(640, 480), Size(-12, 0)]
  {
    hide ParseSizes, PrintSizes;
    PrintedSizes();
    SizesRoundTrip([Size(640, 480), Size(-12, 0)]);
  }

  // Anything else in place of the comma, or of the delimiter, ends the list before that pair.
  lemma {:induction false} RefusedSizes()
    ensures ParsePair("640x480;", 'x') == Some((640, 480, ";")) && ParseSizes("640x480;") == []
    ensures ParseSizes("640,480") == [] && ParseSizes("") == []
  {
    hide Strtol, PrintInt;
    PrintedNumbers();
    PrintedHeight();
    PairRoundTrip(640, 480, 'x', ";");
    assert PrintPair(640, 480, 'x') + ";" == "640x480;";
    NoDelimiterIsRefused("640,480", 'x');
    NoDelimiterIsRefused("", 'x');
  }

  lemma {:induction false} PrintedHeight()
    ensures PrintInt(480) == "480"
  {
    assert PrintNat(4) == "4" && PrintNat(48) == "4" + "8" && PrintNat(480) == "48" + "0";
  }
}
