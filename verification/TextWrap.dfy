/** TextRenderer's line breaking: where a line is broken, and what is drawn when a string is wrapped.
    Widths are real numbers; the advance of each glyph is a parameter. */
module TextWrap {
  import opened Sequences
  import opened Wrappers

  type Advance = char -> real

  predicate IsSpace(c: char) { c == ' ' || c == '\t' || c == '\n' || c == '\r' }

  // strchr finds the terminator in any string, so the scan for whitespace stops there too.
  predicate StopsScan(s: string, i: nat)
    requires i <= |s|
  {
    i == |s| || IsSpace(s[i])
  }

  function Width(s: string, w: Advance): real {
    if s == "" then 0.0 else Width(s[..|s| - 1], w) + w(s[|s| - 1])
  }

  // ---- where a line breaks ----

  // From i on, the first prefix shorter than the string that does not stay under the width.
  function FirstTooWide(s: string, space: real, w: Advance, i: nat): (r: nat)
    requires i <= |s|
    ensures i <= r <= |s|
    decreases |s| - i
  {
    if i == |s| || Width(s[..i], w) >= space then i else FirstTooWide(s, space, w, i + 1)
  }

  lemma {:induction false} FirstTooWideIs(s: string, space: real, w: Advance, i: nat)
    requires i <= |s|
    ensures var r := FirstTooWide(s, space, w, i);
            (forall k :: i <= k < r ==> Width(s[..k], w) < space)
            && (r < |s| ==> Width(s[..r], w) >= space)
    decreases |s| - i
  {
    if i < |s| && Width(s[..i], w) < space {
      FirstTooWideIs(s, space, w, i + 1);
    }
  }

  // The longest prefix that fits, or one character when none does.
  function Fit(s: string, space: real, w: Advance): (g: nat)
    requires s != ""
    ensures 0 < g <= |s|
  {
    var f := FirstTooWide(s, space, w, 0);
    if f <= 1 then 1 else f - 1
  }

  // Scanning back from i for whitespace; g when there is none.
  function ScanBack(s: string, i: nat, g: nat): (r: nat)
    requires i <= |s|
    ensures r == g || 0 < r <= i
  {
    if i == 0 then g else if StopsScan(s, i) then i else ScanBack(s, i - 1, g)
  }

  lemma {:induction false} ScanBackIs(s: string, i: nat, g: nat)
    requires i <= |s|
    ensures var r := ScanBack(s, i, g);
            (r == g || (0 < r <= i && StopsScan(s, r)))
            && forall k :: 0 < k <= i && StopsScan(s, k) ==> k <= r && 0 < r <= i && StopsScan(s, r)
  {
    if i > 0 && !StopsScan(s, i) {
      ScanBackIs(s, i - 1, g);
    }
  }

  function Break(s: string, space: real, w: Advance): (r: Option<nat>)
    ensures r.Some? ==> 0 < r.value <= |s|
  {
    if s == "" || Width(s, w) <= space then None
    else Some(ScanBack(s, Fit(s, space, w), Fit(s, space, w)))
  }

  // ---- the lines of a wrapped string ----

  // What one line draws, and the whitespace it was broken on, if any.
  datatype Line = Line(text: string, skipped: string)

  function Whole(lines: seq<Line>): string {
    if lines == [] then "" else lines[0].text + lines[0].skipped + Whole(lines[1..])
  }

  // One turn of the loop; Overrun when the break skips the string's terminator.
  datatype Turn = LastLine(line: Line) | NextLine(line: Line, rest: string) | Overrun

  function TakeLine(s: string, space: real, w: Advance): (r: Turn)
    ensures r.NextLine? ==> |r.rest| < |s|
  {
    match Break(s, space, w)
    case None => LastLine(Line(s, ""))
    case Some(k) =>
      if k == |s| then Overrun
      else if IsSpace(s[k]) then NextLine(Line(s[..k], [s[k]]), s[k + 1..])
      else NextLine(Line(s[..k], ""), s[k..])
  }

  // The lines drawn from here on, unless the loop runs past the terminator.
  function Lines(s: string, space: real, indented: real, w: Advance): Option<seq<Line>>
    decreases |s|
  {
    match TakeLine(s, space, w)
    case LastLine(line) => Some([line])
    case Overrun => None
    case NextLine(line, rest) =>
      match Lines(rest, indented, indented, w)
      case None => None
      case Some(more) => Some([line] + more)
  }

  // ---- properties of one break ----

  ghost predicate Narrow(s: string, space: real, w: Advance) {
    forall c :: c in s ==> 0.0 < w(c) < space
  }

  // A line that is broken keeps within its space, and at least one character is left.
  lemma BreakFits(s: string, space: real, w: Advance)
    requires Break(s, space, w).Some? && Narrow(s, space, w)
    ensures var k := Break(s, space, w).value;
            k < |s| && Width(s[..k], w) < space
  {
    var f, g := FirstTooWide(s, space, w, 0), Fit(s, space, w);
    FirstTooWideIs(s, space, w, 0);
    ScanBackIs(s, g, g);
    assert s[0] in s;
    assert s[..|s|] == s && s[..0] == "";
    assert |s| > 1;
    assert 1 < f;
  }

  // The break is the last whitespace within the space, and inside a word only where there is none.
  lemma BreakIsLastSpace(s: string, space: real, w: Advance)
    requires Break(s, space, w).Some? && Narrow(s, space, w)
    ensures var k, g := Break(s, space, w).value, Fit(s, space, w);
            0 < k <= g < |s|
            && (IsSpace(s[k]) || (k == g && forall j :: 0 < j <= g ==> !IsSpace(s[j])))
            && forall j :: k < j <= g ==> !IsSpace(s[j])
  {
    BreakFits(s, space, w);
    ScanBackIs(s, Fit(s, space, w), Fit(s, space, w));
    assert s[..|s|] == s;
    forall j | 0 < j <= Fit(s, space, w) ensures j < |s| && (StopsScan(s, j) <==> IsSpace(s[j])) {
    }
  }

  // A string is drawn in one line if and only if it is empty or no wider than the space.
  lemma {:induction false} UnbrokenIff(s: string, space: real, indented: real, w: Advance)
    ensures Lines(s, space, indented, w) == Some([Line(s, "")]) <==> s == "" || Width(s, w) <= space
  {
    var turn := TakeLine(s, space, w);
    if turn.NextLine? {
      var more := Lines(turn.rest, indented, indented, w);
      assert more.Some? ==> more.value != [] by {
        match TakeLine(turn.rest, indented, w)
        case _ =>
      }
    }
  }

  // Whitespace is a blank, a tab, a newline or a carriage return.
  lemma WhitespaceIs(c: char)
    ensures IsSpace(c) <==> c in " \t\n\r"
  {
  }

  // The prefix that fits is the longest one: one more character would fill the space.
  lemma FitIsLongest(s: string, space: real, w: Advance)
    requires Break(s, space, w).Some? && Narrow(s, space, w)
    ensures var g := Fit(s, space, w);
            Width(s[..g], w) < space <= Width(s[..g + 1], w)
  {
    FirstTooWideIs(s, space, w, 0);
    BreakFits(s, space, w);
    assert s[..|s|] == s && s[..0] == "";
    assert s[0] in s;
  }

  // ---- the lines together ----

  ghost predicate SkipsOneSpace(line: Line) {
    line.skipped == "" || (|line.skipped| == 1 && IsSpace(line.skipped[0]))
  }

  lemma {:induction false} TurnKeepsTheText(s: string, space: real, indented: real, w: Advance)
    requires Narrow(s, space, w) && Narrow(s, indented, w)
    ensures match TakeLine(s, space, w)
            case LastLine(line) => line == Line(s, "") && (s == "" || Width(s, w) <= space)
            case Overrun => false
            case NextLine(line, rest) =>
              line.text != "" && SkipsOneSpace(line) && line.text + line.skipped + rest == s
              && Width(line.text, w) < space && Narrow(rest, indented, w)
  {
    if Break(s, space, w).Some? {
      BreakFits(s, space, w);
      var k := Break(s, space, w).value;
    }
  }

  // Wrapping comes to an end; the lines and the skipped whitespace make up the string.
  lemma {:induction false} WrapKeepsTheText(s: string, space: real, indented: real, w: Advance)
    requires Narrow(s, space, w) && Narrow(s, indented, w)
    ensures Lines(s, space, indented, w).Some?
    ensures Whole(Lines(s, space, indented, w).value) == s
    decreases |s|
  {
    TurnKeepsTheText(s, space, indented, w);
    var turn := TakeLine(s, space, w);
    if turn.NextLine? {
      WrapKeepsTheText(turn.rest, indented, indented, w);
    } else {
      assert [turn.line][1..] == [];
    }
  }

  // Each line keeps within its space; only the last can be empty; each other skips one whitespace
  // character at most.
  ghost predicate WellLaid(lines: seq<Line>, space: real, indented: real, w: Advance) {
    lines != [] && lines[|lines| - 1].skipped == ""
    && (forall i :: 0 <= i < |lines| ==>
          SkipsOneSpace(lines[i]) && Width(lines[i].text, w) <= if i == 0 then space else indented)
    && forall i :: 0 <= i < |lines| - 1 ==> lines[i].text != ""
  }

  lemma {:induction false} EachLineFits(s: string, space: real, indented: real, w: Advance)
    requires Narrow(s, space, w) && Narrow(s, indented, w) && 0.0 <= space && 0.0 <= indented
    ensures Lines(s, space, indented, w).Some?
    ensures WellLaid(Lines(s, space, indented, w).value, space, indented, w)
    decreases |s|
  {
    TurnKeepsTheText(s, space, indented, w);
    var turn := TakeLine(s, space, w);
    if turn.NextLine? {
      EachLineFits(turn.rest, indented, indented, w);
    }
  }

  // ---- glyphs that do not fit ----

  lemma {:induction false} LastFits(s: string, w: Advance)
    requires s != "" && forall c :: 0.0 <= w(c)
    ensures w(s[|s| - 1]) <= Width(s, w)
  {
    WidthIsPositive(s[..|s| - 1], w);
  }

  lemma {:induction false} WidthIsPositive(s: string, w: Advance)
    requires forall c :: 0.0 <= w(c)
    ensures 0.0 <= Width(s, w)
  {
    if s != "" {
      WidthIsPositive(s[..|s| - 1], w);
    }
  }

  // A turn that goes on leaves the last character, unless that is the whitespace it broke on.
  lemma TurnLeavesTheLast(s: string, space: real, w: Advance)
    requires s != "" && TakeLine(s, space, w).NextLine?
    ensures var rest := TakeLine(s, space, w).rest;
            && (if rest == "" then |s| > 1 && IsSpace(s[|s| - 1]) else rest[|rest| - 1] == s[|s| - 1])
            && (|rest| > 1 ==> rest[|rest| - 2] == s[|s| - 2])
            && (|rest| == 1 && IsSpace(s[|s| - 1]) ==> |s| > 2 && IsSpace(s[|s| - 2]))
  {
    var k := Break(s, space, w).value;
    ScanBackIs(s, Fit(s, space, w), Fit(s, space, w));
  }

  predicate LastTooWide(s: string, space: real, indented: real, w: Advance)
    requires s != ""
  {
    Width(s, w) > space && (|s| == 1 || w(s[|s| - 1]) > indented)
  }

  lemma {:induction false} OverrunTurn(s: string, space: real, w: Advance)
    requires TakeLine(s, space, w) == Overrun
    ensures |s| == 1 && Width(s, w) > space
  {
  }

  lemma {:induction false} OverrunNeeds(s: string, space: real, indented: real, w: Advance)
    requires s != "" && (forall c :: 0.0 <= w(c)) && Lines(s, space, indented, w) == None
    ensures LastTooWide(s, space, indented, w)
    decreases |s|
  {
    var turn := TakeLine(s, space, w);
    match turn
    case LastLine(_) => assert false;
    case Overrun => OverrunTurn(s, space, w);
    case NextLine(_, rest) =>
      assert Lines(rest, indented, indented, w) == None;
      TurnLeavesTheLast(s, space, w);
      if rest == "" {
        assert false;
      } else {
        OverrunNeeds(rest, indented, indented, w);
        assert |rest| == 1 ==> rest[..0] == "" && Width(rest, w) == 0.0 + w(rest[0]);
        assert Width(s, w) > space;
      }
  }

  lemma {:induction false} OneSpaceIsSafe(s: string, space: real, indented: real, w: Advance)
    requires |s| > 1 && IsSpace(s[|s| - 1]) && !IsSpace(s[|s| - 2])
    ensures Lines(s, space, indented, w).Some?
    decreases |s|
  {
    var turn := TakeLine(s, space, w);
    match turn
    case LastLine(_) =>
    case Overrun => OverrunTurn(s, space, w);
    case NextLine(_, rest) =>
      TurnLeavesTheLast(s, space, w);
      if rest == "" {
        assert TakeLine(rest, indented, w).LastLine?;
      } else {
        OneSpaceIsSafe(rest, indented, indented, w);
      }
  }

  lemma {:induction false} OverrunIsCertain(s: string, space: real, indented: real, w: Advance)
    requires s != "" && (forall c :: 0.0 <= w(c)) && (|s| == 1 || !IsSpace(s[|s| - 1]))
    requires LastTooWide(s, space, indented, w)
    ensures Lines(s, space, indented, w) == None
    decreases |s|
  {
    var turn := TakeLine(s, space, w);
    if turn.NextLine? {
      TurnLeavesTheLast(s, space, w);
      LastFits(turn.rest, w);
      OverrunIsCertain(turn.rest, indented, indented, w);
    }
  }

  // Glyphs too wide for a line are drawn all the same, one to a line, except for the last: behind it the
  // scan takes the terminator for whitespace and the loop runs past the end of the string. This takes a
  // string that does not fit and whose last glyph is wider than its line; it is certain unless the string
  // ends in whitespace, and it cannot happen where just one whitespace character ends it.
  lemma {:induction false} OverrunIff(s: string, space: real, indented: real, w: Advance)
    requires s != "" && forall c :: 0.0 <= w(c)
    ensures Lines(s, space, indented, w) == None ==> LastTooWide(s, space, indented, w)
    ensures |s| == 1 || !IsSpace(s[|s| - 1]) ==>
              (Lines(s, space, indented, w) == None <==> LastTooWide(s, space, indented, w))
    ensures |s| > 1 && IsSpace(s[|s| - 1]) && !IsSpace(s[|s| - 2]) ==> Lines(s, space, indented, w).Some?
  {
    if Lines(s, space, indented, w) == None {
      OverrunNeeds(s, space, indented, w);
      if |s| > 1 && IsSpace(s[|s| - 1]) && !IsSpace(s[|s| - 2]) {
        OneSpaceIsSafe(s, space, indented, w);
      }
    } else if LastTooWide(s, space, indented, w) && (|s| == 1 || !IsSpace(s[|s| - 1])) {
      OverrunIsCertain(s, space, indented, w);
    }
  }

  // Where several whitespace characters end the string the breaks before decide: each turn over wide
  // whitespace takes two, so an odd number of them leaves one for the overrun.
  lemma {:induction false} WideSpacesIff(s: string, space: real, indented: real, w: Advance)
    requires s != "" && forall c :: c in s ==> IsSpace(c) && w(c) > space && w(c) > indented
    requires forall c :: 0.0 <= w(c)
    ensures Lines(s, space, indented, w) == None <==> |s| % 2 == 1
    decreases |s|
  {
    hide TakeLine, IsSpace;
    WideTurn(s, space, w);
    if |s| == 2 {
      NothingLeft(indented, w);
    } else if |s| > 2 {
      assert forall c :: c in s[2..] ==> c in s;
      WideSpacesIff(s[2..], indented, indented, w);
    }
  }

  lemma NothingLeft(space: real, w: Advance)
    ensures TakeLine("", space, w) == LastLine(Line("", ""))
  {
  }

  lemma WideTurn(s: string, space: real, w: Advance)
    requires s != "" && forall c :: c in s ==> IsSpace(c) && w(c) > space
    requires forall c :: 0.0 <= w(c)
    ensures TakeLine(s, space, w) == if |s| == 1 then Overrun else NextLine(Line(s[..1], [s[1]]), s[2..])
  {
    WideBreak(s, space, w);
    assert |s| > 1 ==> s[1] in s;
  }

  lemma WideBreak(s: string, space: real, w: Advance)
    requires s != "" && forall c :: c in s ==> IsSpace(c) && w(c) > space
    requires forall c :: 0.0 <= w(c)
    ensures Break(s, space, w) == Some(1)
  {
    assert s[0] in s && s[|s| - 1] in s;
    LastFits(s, w);
    FirstTooWideIs(s, space, w, 0);
    assert s[..1][..0] == "" && s[..1][0] == s[0];
    assert Width(s[..1], w) == w(s[0]);
    assert |s| > 1 ==> s[1] in s;
    assert StopsScan(s, 1);
  }

  // ---- the methods ----

  method ComputeWidth(s: string, n: nat, w: Advance) returns (width: real)
    requires n <= |s|
    ensures width == Width(s[..n], w)
  {
    width := 0.0;
    for i := 0 to n
      invariant width == Width(s[..i], w)
    {
      assert s[..i + 1][..i] == s[..i];
      width := width + w(s[i]);
    }
  }

  method BreakString(s: string, maxWidth: real, w: Advance) returns (brk: Option<nat>)
    ensures brk == Break(s, maxWidth, w)
  {
    if |s| == 0 {
      return None;
    }
    var stringWidth := ComputeWidth(s, |s|, w);
    assert s[..|s|] == s;
    if stringWidth <= maxWidth {
      return None;
    }
    var goodPos, i := 0, 0;
    while i < |s|
      invariant i <= |s| && FirstTooWide(s, maxWidth, w, i) == FirstTooWide(s, maxWidth, w, 0)
      invariant goodPos == if i == 0 then 0 else i - 1
    {
      stringWidth := ComputeWidth(s, i, w);
      if stringWidth < maxWidth {
        goodPos := i;
      } else {
        break;
      }
      i := i + 1;
    }
    if goodPos == 0 {
      goodPos := 1;
    }
    assert goodPos == Fit(s, maxWidth, w);
    ghost var fit := goodPos;
    i := goodPos;
    while i > 0
      invariant i <= goodPos == fit && ScanBack(s, i, fit) == ScanBack(s, fit, fit)
    {
      if i == |s| || IsSpace(s[i]) {
        goodPos := i;
        break;
      }
      i := i - 1;
    }
    return Some(goodPos);
  }

  // A drawString call.
  datatype Drawn = Drawn(x: real, y: real, text: string)

  // Where the lines are drawn: the first at the given place, the others indented, one below the other.
  function Placed(lines: seq<Line>, x: real, rest: real, y: real, height: real): (d: seq<Drawn>)
    ensures |d| == |lines|
  {
    if lines == [] then []
    else [Drawn(x, y, lines[0].text)] + Placed(lines[1..], rest, rest, y + height, height)
  }

  lemma {:induction false} PlacedAt(lines: seq<Line>, x: real, rest: real, y: real, height: real, i: nat)
    requires i < |lines|
    ensures Placed(lines, x, rest, y, height)[i]
            == Drawn(if i == 0 then x else rest, y + i as real * height, lines[i].text)
    decreases i
  {
    if i > 0 {
      PlacedAt(lines[1..], rest, rest, y + height, height, i - 1);
    }
  }

  datatype Screen = Screen(width: nat, height: nat, border: real, indent: real, glyphHeight: real)

  function Left(scr: Screen, xpos: real): real { if xpos < scr.border then scr.border else xpos }

  function Space(scr: Screen, x: real): real { scr.width as real - scr.border - x }

  // The lines of a string that starts at x, when the loop does not run past its end.
  function LinesAt(scr: Screen, x: real, s: string, w: Advance): Option<seq<Line>> {
    Lines(s, Space(scr, x), Space(scr, x + scr.indent), w)
  }

  // The position n lines further down.
  function Down(y: real, n: nat, height: real): real { if n == 0 then y else Down(y, n - 1, height) + height }

  lemma {:induction false} DownIs(y: real, n: nat, height: real)
    ensures Down(y, n, height) == y + n as real * height
  {
    if n > 0 {
      DownIs(y, n - 1, height);
    }
  }

  // The text up to the first terminator.
  function CString(b: seq<char>, start: nat): string
    requires start <= |b|
    decreases |b| - start
  {
    if start == |b| || b[start] == '\0' then "" else [b[start]] + CString(b, start + 1)
  }

  lemma {:induction false} CStringStops(b: seq<char>, start: nat, stop: nat)
    requires start <= stop < |b| && b[stop] == '\0'
    requires forall i :: start <= i < stop ==> b[i] != '\0'
    ensures CString(b, start) == b[start..stop]
    decreases stop - start
  {
    if start < stop {
      CStringStops(b, start + 1, stop);
      assert b[start..stop] == [b[start]] + b[start + 1..stop];
    }
  }

  // The copy of the string with its terminator; a terminator put at brk for a while cuts it there.
  lemma {:induction false} CutText(s: string, start: nat, brk: nat)
    requires start <= brk <= |s| && '\0' !in s
    ensures CString((s + ['\0'])[brk := '\0'], start) == s[start..brk]
  {
    CStringStops((s + ['\0'])[brk := '\0'], start, brk);
  }

  // What drawWrappedString draws; None where its loop runs past the end of the string.
  function AllDrawn(scr: Screen, x: real, y: real, s: string, w: Advance): Option<seq<Drawn>> {
    match LinesAt(scr, x, s, w)
    case None => None
    case Some(lines) => Some(Placed(lines, x, x + scr.indent, y, scr.glyphHeight))
  }

  // With the position below the last line.
  function WithBottom(drawn: Option<seq<Drawn>>, y: real, height: real): Option<(seq<Drawn>, real)> {
    match drawn
    case None => None
    case Some(d) => Some((d, Down(y, |d|, height)))
  }

  // The trivial case.
  lemma {:induction false} OneLineDrawn(scr: Screen, x: real, y: real, s: string, w: Advance)
    requires Width(s, w) <= Space(scr, x)
    ensures WithBottom(AllDrawn(scr, x, y, s, w), y, scr.glyphHeight)
         == Some(([Drawn(x, y, s)], y + scr.glyphHeight))
  {
    var drawn := [Drawn(x, y, s)];
    assert AllDrawn(scr, x, y, s, w).value == drawn;
    assert Down(y, 1, scr.glyphHeight) == Down(y, 0, scr.glyphHeight) + scr.glyphHeight;
  }

  lemma {:induction false} DrawnInFields(scr: Screen, x: real, y: real, s: string, w: Advance)
    ensures var space := scr.width as real - scr.border - x;
            var r := WithBottom(AllDrawn(scr, x, y, s, w), y, scr.glyphHeight);
            match Lines(s, space, space - scr.indent, w)
            case None => r == None
            case Some(lines) =>
              && r.Some? && |r.value.0| == |lines| && r.value.1 == y + |lines| as real * scr.glyphHeight
              && forall i :: 0 <= i < |lines| ==>
                   r.value.0[i] == Drawn(if i == 0 then x else x + scr.indent,
                                         y + i as real * scr.glyphHeight, lines[i].text)
  {
    hide Lines, Placed, Down;
    assert Space(scr, x + scr.indent) == Space(scr, x) - scr.indent;
    var lines := LinesAt(scr, x, s, w);
    if lines.Some? {
      DownIs(y, |lines.value|, scr.glyphHeight);
      forall i | 0 <= i < |lines.value|
        ensures Placed(lines.value, x, x + scr.indent, y, scr.glyphHeight)[i]
             == Drawn(if i == 0 then x else x + scr.indent, y + i as real * scr.glyphHeight, lines.value[i].text)
      {
        PlacedAt(lines.value, x, x + scr.indent, y, scr.glyphHeight, i);
      }
    }
  }

  // drawWrappedString: the lines are drawn one below the other, and the result is the position below
  // the last.
  method DrawWrapped(scr: Screen, xpos: real, ypos: real, s: string, w: Advance)
    returns (r: Option<(seq<Drawn>, real)>)
    requires '\0' !in s
    ensures var x, y := Left(scr, xpos), Left(scr, ypos);
            r == if scr.width == 0 || scr.height == 0 then Some(([], ypos))
                 else if Space(scr, x) < 1.0 then Some(([], y))
                 else WithBottom(AllDrawn(scr, x, y, s, w), y, scr.glyphHeight)
    ensures var x := if xpos < scr.border then scr.border else xpos;
            var y := if ypos < scr.border then scr.border else ypos;
            var space := scr.width as real - scr.border - x;
            && (scr.width == 0 || scr.height == 0 ==> r == Some(([], ypos)))
            && (scr.width != 0 && scr.height != 0 && space < 1.0 ==> r == Some(([], y)))
            && (scr.width != 0 && scr.height != 0 && space >= 1.0 ==>
                  match Lines(s, space, space - scr.indent, w)
                  case None => r == None
                  case Some(lines) =>
                    && r.Some? && |r.value.0| == |lines| && r.value.1 == y + |lines| as real * scr.glyphHeight
                    && forall i :: 0 <= i < |lines| ==>
                         r.value.0[i] == Drawn(if i == 0 then x else x + scr.indent,
                                               y + i as real * scr.glyphHeight, lines[i].text))
  {
    hide Lines, Placed, Down;
    if scr.width == 0 || scr.height == 0 {
      return Some(([], ypos));
    }
    var x, y := Left(scr, xpos), Left(scr, ypos);
    if Space(scr, x) < 1.0 {
      return Some(([], y));
    }
    DrawnInFields(scr, x, y, s, w);
    var stringWidth := ComputeWidth(s, |s|, w);
    assert s[..|s|] == s;
    if stringWidth <= Space(scr, x).Floor as real {
      var drawn := [Drawn(x, y, s)];
      OneLineDrawn(scr, x, y, s, w);
      return Some((drawn, y + scr.glyphHeight));
    }
    r := DrawBroken(scr, x, y, s, w);
  }

  // What is drawn from here on, given what was drawn before.
  ghost predicate Remaining(drawn: seq<Drawn>, s: string, here: real, scr: Screen, indented: real, y: real,
                            w: Advance, all: Option<seq<Drawn>>)
  {
    match Lines(s, Space(scr, here), Space(scr, indented), w)
    case None => all == None
    case Some(more) => all.Some? && drawn + Placed(more, here, indented, y, scr.glyphHeight) == all.value
  }

  // One line drawn leaves the rest of the lines.
  lemma LineDrawn(drawn: seq<Drawn>, s: string, here: real, scr: Screen, indented: real, y: real, w: Advance,
                  all: Option<seq<Drawn>>)
    requires Remaining(drawn, s, here, scr, indented, y, w, all)
    ensures match TakeLine(s, Space(scr, here), w)
            case LastLine(line) => all.Some? && drawn + [Drawn(here, y, line.text)] == all.value
            case NextLine(line, rest) =>
              Remaining(drawn + [Drawn(here, y, line.text)], rest, indented, scr, indented,
                        y + scr.glyphHeight, w, all)
            case Overrun => all == None
  {
    match TakeLine(s, Space(scr, here), w)
    case LastLine(line) =>
      assert Placed([line], here, indented, y, scr.glyphHeight) == [Drawn(here, y, line.text)];
    case Overrun =>
    case NextLine(line, rest) =>
      var more := Lines(rest, Space(scr, indented), Space(scr, indented), w);
      if more.Some? {
        FirstIsPlaced(drawn, line, more.value, here, indented, y, scr.glyphHeight);
      }
  }

  lemma {:induction false} FirstIsPlaced(
    drawn: seq<Drawn>, line: Line, more: seq<Line>, here: real, indented: real, y: real, height: real)
    ensures drawn + Placed([line] + more, here, indented, y, height)
         == (drawn + [Drawn(here, y, line.text)]) + Placed(more, indented, indented, y + height, height)
  {
    assert ([line] + more)[1..] == more;
    Regroup(drawn, [Drawn(here, y, line.text)], Placed(more, indented, indented, y + height, height));
  }

  // The copy that drawWrappedString makes of the string, to put a terminator where a line ends.
  ghost predicate IsCopy(mangle: array<char>, s: string)
    reads mangle
  {
    mangle[..] == s + ['\0']
  }

  method TextAt(mangle: array<char>, ghost s: string, at: nat) returns (text: string)
    requires IsCopy(mangle, s) && '\0' !in s && at <= |s|
    ensures text == s[at..]
  {
    CutText(s, at, |s|);
    assert (s + ['\0'])[|s| := '\0'] == s + ['\0'] && s[at..|s|] == s[at..];
    text := CString(mangle[..], at);
  }

  // The text from one place to another: the character there makes way for a terminator for a while.
  method PieceBetween(mangle: array<char>, ghost s: string, at: nat, brk: nat) returns (ch: char, piece: string)
    requires IsCopy(mangle, s) && '\0' !in s && at <= brk <= |s|
    modifies mangle
    ensures IsCopy(mangle, s) && ch == (s + ['\0'])[brk] && piece == s[at..brk]
  {
    ch := mangle[brk];
    mangle[brk] := '\0';
    CutText(s, at, brk);
    assert mangle[..] == (s + ['\0'])[brk := '\0'];
    piece := CString(mangle[..], at);
    mangle[brk] := ch;
    assert mangle[..] == s + ['\0'];
  }

  // One turn of the loop that breaks the string into pieces. The start stands before the text; a null
  // start after it stands for the end of the loop. strchr finds the terminator too, so a break at the end
  // of the string sends the start behind the copy.
  method DrawLine(mangle: array<char>, ghost s: string, at: nat, ghost text: string, here: real, y: real,
                  scr: Screen, w: Advance)
    returns (d: Drawn, next: Option<nat>)
    requires IsCopy(mangle, s) && '\0' !in s && at <= |s| && text == s[at..]
    modifies mangle
    ensures IsCopy(mangle, s)
    ensures match TakeLine(text, Space(scr, here), w)
            case LastLine(line) => d == Drawn(here, y, line.text) && next == None
            case NextLine(line, rest) =>
              d == Drawn(here, y, line.text) && next.Some? && at < next.value <= |s| && s[next.value..] == rest
            case Overrun => next == Some(mangle.Length)
  {
    var start := TextAt(mangle, s, at);
    var brk := BreakString(start, Space(scr, here), w);
    if brk.None? {
      return Drawn(here, y, start), None;
    }
    var end := at + brk.value;
    var ch, piece := PieceBetween(mangle, s, at, end);
    assert piece == text[..brk.value] && (brk.value < |text| ==> ch == text[brk.value] && ch in s);
    return Drawn(here, y, piece), Some(if IsSpace(ch) || ch == '\0' then end + 1 else end);
  }

  // strdup.
  method Copy(s: string) returns (mangle: array<char>)
    ensures fresh(mangle) && IsCopy(mangle, s)
  {
    mangle := new char[|s| + 1](i requires 0 <= i <= |s| => if i < |s| then s[i] else '\0');
    assert mangle[..] == s + ['\0'];
  }

  // The state of the loop: the start, the text behind it, what was drawn, and where the next line goes.
  ghost predicate Drawing(start: Option<nat>, text: string, drawn: seq<Drawn>, here: real, y: real, s: string,
                          scr: Screen, indented: real, w: Advance, all: Option<seq<Drawn>>)
  {
    match start
    case None => all.Some? && drawn == all.value
    case Some(at) =>
      if at == |s| + 1 then all == None
      else at <= |s| && text == s[at..] && Remaining(drawn, text, here, scr, indented, y, w, all)
  }

  method DrawNext(mangle: array<char>, ghost s: string, at: nat, ghost text: string, drawn: seq<Drawn>,
                  here: real, y: real, scr: Screen, indented: real, w: Advance, ghost all: Option<seq<Drawn>>)
    returns (d: seq<Drawn>, next: Option<nat>, ghost rest: string)
    requires IsCopy(mangle, s) && '\0' !in s && at <= |s|
    requires Drawing(Some(at), text, drawn, here, y, s, scr, indented, w, all)
    modifies mangle
    ensures IsCopy(mangle, s) && |d| == |drawn| + 1
    ensures Drawing(next, rest, d, indented, y + scr.glyphHeight, s, scr, indented, w, all)
    ensures next.Some? ==> at < next.value
  {
    LineDrawn(drawn, text, here, scr, indented, y, w, all);
    var line;
    line, next := DrawLine(mangle, s, at, text, here, y, scr, w);
    d := drawn + [line];
    var turn := TakeLine(text, Space(scr, here), w);
    rest := if turn.NextLine? then turn.rest else "";
  }

  // The loop that breaks the string into pieces. It checks nothing: a start behind the copy reads memory
  // that is not the string's.
  method DrawPieces(mangle: array<char>, scr: Screen, xpos: real, indented: real, ypos: real, ghost s: string,
                    w: Advance, ghost all: Option<seq<Drawn>>)
    returns (r: Option<(seq<Drawn>, real)>)
    requires IsCopy(mangle, s) && '\0' !in s
    requires Drawing(Some(0), s, [], xpos, ypos, s, scr, indented, w, all)
    modifies mangle
    ensures r == WithBottom(all, ypos, scr.glyphHeight)
  {
    var start: Option<nat>, xposAdj := Some(0), xpos;
    ghost var text := s;
    var drawn, y := [], ypos;
    while start.Some?
      invariant IsCopy(mangle, s) && y == Down(ypos, |drawn|, scr.glyphHeight)
      invariant Drawing(start, text, drawn, xposAdj, y, s, scr, indented, w, all)
      decreases if start.Some? then 2 + |s| - start.value else 0
    {
      if start.value == mangle.Length {
        return None;
      }
      drawn, start, text := DrawNext(mangle, s, start.value, text, drawn, xposAdj, y, scr, indented, w, all);
      y := y + scr.glyphHeight;
      xposAdj := indented;
    }
    return Some((drawn, y));
  }

  method DrawBroken(scr: Screen, x: real, ypos: real, s: string, w: Advance)
    returns (r: Option<(seq<Drawn>, real)>)
    requires '\0' !in s
    ensures r == WithBottom(AllDrawn(scr, x, ypos, s, w), ypos, scr.glyphHeight)
  {
    var mangle := Copy(s);
    r := DrawPieces(mangle, scr, x, x + scr.indent, ypos, s, w, AllDrawn(scr, x, ypos, s, w));
  }
}
