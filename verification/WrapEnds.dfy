/** How a wrapped string ends: when its last line is empty, and when the loop runs past the terminator
    behind whitespace. Each whitespace character at the end is looked at as one more character behind a
    string whose lines are known. */
module WrapEnds {
  import opened TextWrap
  import opened Wrappers

  ghost predicate NoNegative(w: Advance) { forall c :: 0.0 <= w(c) }

  // ---- the last line ----

  // The text of the last line; None where the loop runs past the terminator.
  function LastText(s: string, space: real, indented: real, w: Advance): Option<string> {
    match TakeLine(s, space, w)
    case LastLine(line) => Some(line.text)
    case Overrun => None
    case NextLine(_, rest) => LastText(rest, indented, indented, w)
  }

  // The space that line has.
  function LastSpace(s: string, space: real, indented: real, w: Advance): real {
    if TakeLine(s, space, w).NextLine? then indented else space
  }

  lemma {:induction false} LastTextIs(s: string, space: real, indented: real, w: Advance)
    ensures var lines := Lines(s, space, indented, w);
            match LastText(s, space, indented, w)
            case None => lines == None
            case Some(text) =>
              lines.Some? && lines.value != [] && lines.value[|lines.value| - 1].text == text
              && (LastSpace(s, space, indented, w) == if |lines.value| == 1 then space else indented)
    decreases |s|
  {
    var turn := TakeLine(s, space, w);
    if turn.NextLine? {
      LastTextIs(turn.rest, indented, indented, w);
    }
  }

  // ---- what a whitespace character meets ----

  // One turn over a string that something follows: filling the space exactly is not fitting.
  function TurnBefore(s: string, space: real, w: Advance): (r: Turn)
    ensures r.NextLine? ==> |r.rest| < |s|
  {
    if s == "" || Width(s, w) < space then LastLine(Line(s, ""))
    else
      var k := ScanBack(s, Fit(s, space, w), Fit(s, space, w));
      if k == |s| then Overrun
      else if IsSpace(s[k]) then NextLine(Line(s[..k], [s[k]]), s[k + 1..])
      else NextLine(Line(s[..k], ""), s[k..])
  }

  // Where the string ends: past a line that was broken at its end, or behind a text with this much room.
  datatype End = Past | Behind(text: string, room: real)

  function EndOf(s: string, space: real, indented: real, w: Advance): End {
    match TurnBefore(s, space, w)
    case LastLine(line) => Behind(line.text, space)
    case Overrun => Past
    case NextLine(_, rest) => EndOf(rest, indented, indented, w)
  }

  lemma {:induction false} SameUnlessFilled(s: string, space: real, w: Advance)
    ensures s == "" || Width(s, w) != space ==> TurnBefore(s, space, w) == TakeLine(s, space, w)
    ensures s != "" && Width(s, w) == space ==> TakeLine(s, space, w) == LastLine(Line(s, ""))
    ensures TakeLine(s, space, w).LastLine? ==> TakeLine(s, space, w).line.text == s
  {
  }

  // This is the last line, unless that fills its space exactly.
  lemma {:induction false} EndIsLastLine(s: string, space: real, indented: real, w: Advance)
    ensures var text, room := LastText(s, space, indented, w), LastSpace(s, space, indented, w);
            match text
            case None => EndOf(s, space, indented, w) == Past
            case Some(t) =>
              t == "" || Width(t, w) != room ==> EndOf(s, space, indented, w) == Behind(t, room)
    decreases |s|
  {
    hide TakeLine, TurnBefore, Width;
    SameUnlessFilled(s, space, w);
    var turn := TakeLine(s, space, w);
    if turn.NextLine? {
      EndIsLastLine(turn.rest, indented, indented, w);
    }
  }

  // ---- strings that do not end in whitespace ----

  // Only whitespace can leave the last line empty.
  lemma {:induction false} EmptyLineNeedsSpace(s: string, space: real, indented: real, w: Advance)
    requires s != "" && !IsSpace(s[|s| - 1])
    ensures LastText(s, space, indented, w) != Some("")
    ensures var lines := Lines(s, space, indented, w);
            lines.Some? ==> lines.value != [] && lines.value[|lines.value| - 1].text != ""
    decreases |s|
  {
    LastTextIs(s, space, indented, w);
    var turn := TakeLine(s, space, w);
    if turn.NextLine? {
      TurnLeavesTheLast(s, space, w);
      EmptyLineNeedsSpace(turn.rest, indented, indented, w);
    }
  }

  // ---- one more whitespace character ----

  lemma {:induction false} SameTooWide(s: string, c: char, space: real, w: Advance, i: nat)
    requires i <= |s| && Width(s, w) >= space
    ensures FirstTooWide(s + [c], space, w, i) == FirstTooWide(s, space, w, i)
    decreases |s| - i
  {
    assert (s + [c])[..i] == s[..i] && s[..|s|] == s;
    if i < |s| && Width(s[..i], w) < space {
      SameTooWide(s, c, space, w, i + 1);
    }
  }

  lemma {:induction false} SameScan(s: string, c: char, i: nat, g: nat)
    requires i <= |s| && IsSpace(c)
    ensures ScanBack(s + [c], i, g) == ScanBack(s, i, g)
  {
    if i > 0 && !StopsScan(s, i) {
      SameScan(s, c, i - 1, g);
    }
  }

  lemma {:induction false} WidthOfOneMore(s: string, c: char, w: Advance)
    ensures Width(s + [c], w) == Width(s, w) + w(c)
  {
    assert (s + [c])[..|s|] == s;
  }

  // A string that does not fit is broken at the same place: where the terminator stopped the scan, the
  // whitespace does.
  lemma {:induction false} SameBreak(s: string, c: char, space: real, w: Advance)
    requires s != "" && IsSpace(c) && NoNegative(w) && 0.0 < w(c) && Width(s, w) >= space
    ensures Break(s + [c], space, w) == Some(ScanBack(s, Fit(s, space, w), Fit(s, space, w)))
  {
    WidthOfOneMore(s, c, w);
    SameTooWide(s, c, space, w, 0);
    SameScan(s, c, Fit(s, space, w), Fit(s, space, w));
  }

  lemma CutsOfOneMore(s: string, c: char, k: nat)
    requires k <= |s|
    ensures (s + [c])[..k] == s[..k] && (s + [c])[k..] == s[k..] + [c]
    ensures if k < |s| then (s + [c])[k] == s[k] && (s + [c])[k + 1..] == s[k + 1..] + [c]
            else (s + [c])[k] == c && (s + [c])[k + 1..] == "" && s[..k] == s
  {
  }

  lemma {:induction false} SameTurn(s: string, c: char, space: real, w: Advance)
    requires IsSpace(c) && NoNegative(w) && 0.0 < w(c)
    ensures match TurnBefore(s, space, w)
            case LastLine(line) => line.text == s && (s == "" || Width(s, w) < space)
            case Overrun => TakeLine(s + [c], space, w) == NextLine(Line(s, [c]), "")
            case NextLine(line, rest) => TakeLine(s + [c], space, w) == NextLine(line, rest + [c])
  {
    if s != "" && Width(s, w) >= space {
      SameBreak(s, c, space, w);
      CutsOfOneMore(s, c, ScanBack(s, Fit(s, space, w), Fit(s, space, w)));
    }
  }

  // ---- the last line and the whitespace behind it ----

  lemma {:induction false} PrefixIsNarrower(s: string, i: nat, w: Advance)
    requires i <= |s| && NoNegative(w)
    ensures Width(s[..i], w) <= Width(s, w)
  {
    if i == |s| {
      assert s[..i] == s;
    } else {
      PrefixIsNarrower(s[..|s| - 1], i, w);
      assert s[..|s| - 1][..i] == s[..i];
    }
  }

  // One turn over a text that fits and a whitespace character that does not.
  lemma {:induction false} BreaksOnTheLast(s: string, c: char, space: real, w: Advance)
    requires s != "" && IsSpace(c) && NoNegative(w) && Width(s, w) < space < Width(s, w) + w(c)
    ensures TakeLine(s + [c], space, w) == NextLine(Line(s, [c]), "")
  {
    var t := s + [c];
    WidthOfOneMore(s, c, w);
    var r := FirstTooWide(t, space, w, 0);
    FirstTooWideIs(t, space, w, 0);
    if r < |t| {
      assert t[..r] == s[..r];
      PrefixIsNarrower(s, r, w);
    }
    assert r == |t| && Fit(t, space, w) == |s| && StopsScan(t, |s|);
    assert t[..|s|] == s && t[|s| + 1..] == "";
  }

  // One turn leaves nothing if and only if its text fits, what follows it does not, and that is whitespace.
  lemma {:induction false} NothingIsLeftIff(s: string, c: char, space: real, w: Advance)
    requires s != "" && NoNegative(w) && Width(s, w) < space
    ensures var turn := TakeLine(s + [c], space, w);
            turn.NextLine? && turn.rest == "" <==> IsSpace(c) && space < Width(s, w) + w(c)
  {
    WidthOfOneMore(s, c, w);
    if IsSpace(c) && space < Width(s, w) + w(c) {
      BreaksOnTheLast(s, c, space, w);
    } else if TakeLine(s + [c], space, w).NextLine? {
      TurnLeavesTheLast(s + [c], space, w);
    }
  }

  lemma {:induction false} SingleCharacter(c: char, space: real, indented: real, w: Advance)
    ensures LastText([c], space, indented, w) == if w(c) <= space then Some([c]) else None
  {
    WidthOfOneMore("", c, w);
    assert "" + [c] == [c];
    ScanBackIs([c], 1, 1);
  }

  // What becomes of the last line when a whitespace character follows it.
  lemma {:induction false} LastLineAndSpace(text: string, c: char, space: real, indented: real, w: Advance)
    requires IsSpace(c) && NoNegative(w) && (text == "" || Width(text, w) < space)
    ensures LastText(text + [c], space, indented, w)
            == if Width(text, w) + w(c) <= space then Some(text + [c]) else if text == "" then None else Some("")
  {
    WidthOfOneMore(text, c, w);
    if text == "" {
      assert "" + [c] == [c];
      SingleCharacter(c, space, indented, w);
    } else if Width(text, w) + w(c) > space {
      BreaksOnTheLast(text, c, space, w);
      assert TakeLine("", indented, w) == LastLine(Line("", ""));
    }
  }

  // A string is broken as before when a whitespace character follows it. The character saves it from an
  // overrun, or else it meets the end.
  lemma {:induction false} OneMoreSpace(s: string, c: char, space: real, indented: real, w: Advance)
    requires IsSpace(c) && NoNegative(w) && 0.0 < w(c)
    ensures LastText(s + [c], space, indented, w)
            == match EndOf(s, space, indented, w)
               case Past => Some("")
               case Behind(text, room) =>
                 if Width(text, w) + w(c) <= room then Some(text + [c]) else if text == "" then None else Some("")
    decreases |s|
  {
    SameTurn(s, c, space, w);
    match TurnBefore(s, space, w)
    case LastLine(_) => LastLineAndSpace(s, c, space, indented, w);
    case Overrun => assert TakeLine("", indented, w) == LastLine(Line("", ""));
    case NextLine(_, rest) => OneMoreSpace(rest, c, indented, indented, w);
  }

  // The last line of a string that ends in whitespace is empty if and only if the string before it ends
  // past a line, or behind a text that is not empty and leaves no room for the whitespace.
  lemma {:induction false} EmptyLineIff(s: string, c: char, space: real, indented: real, w: Advance)
    requires IsSpace(c) && NoNegative(w) && 0.0 < w(c)
    ensures var end := EndOf(s, space, indented, w);
            LastText(s + [c], space, indented, w) == Some("")
            <==> end.Past? || (end.text != "" && end.room < Width(end.text, w) + w(c))
  {
    OneMoreSpace(s, c, space, indented, w);
  }

  // The loop runs past the end of a string that ends in whitespace if and only if the whitespace comes to
  // stand alone on a line that is narrower than it.
  lemma {:induction false} OverrunBehindSpaceIff(s: string, c: char, space: real, indented: real, w: Advance)
    requires IsSpace(c) && NoNegative(w) && 0.0 < w(c)
    ensures var end := EndOf(s, space, indented, w);
            Lines(s + [c], space, indented, w) == None <==> end.Behind? && end.text == "" && end.room < w(c)
  {
    OneMoreSpace(s, c, space, indented, w);
    LastTextIs(s + [c], space, indented, w);
  }

  // With glyphs narrower than the lines there is no overrun, and the empty last line depends on the room only.
  lemma {:induction false} NarrowEmptyLineIff(s: string, c: char, space: real, indented: real, w: Advance)
    requires IsSpace(c) && NoNegative(w) && Narrow(s + [c], space, w) && Narrow(s + [c], indented, w)
    requires var text := LastText(s, space, indented, w);
             text.Some? ==> Width(text.value, w) < LastSpace(s, space, indented, w)
    ensures LastText(s, space, indented, w).Some?
    ensures LastText(s + [c], space, indented, w) == Some("")
            <==> LastSpace(s, space, indented, w) < Width(LastText(s, space, indented, w).value, w) + w(c)
  {
    assert c in s + [c];
    assert Narrow(s, space, w) && Narrow(s, indented, w) by {
      forall d | d in s ensures d in s + [c] {
      }
    }
    WrapKeepsTheText(s, space, indented, w);
    LastTextIs(s, space, indented, w);
    EndIsLastLine(s, space, indented, w);
    EmptyLineIff(s, c, space, indented, w);
  }

  // Two glyphs of width 2 on lines of width 3: the second line is drawn although it is empty. The empty
  // string is drawn as one line, too.
  lemma EmptyLineIsDrawn(w: Advance)
    requires forall c :: w(c) == 2.0
    ensures Lines("a ", 3.0, 3.0, w) == Some([Line("a", " "), Line("", "")])
    ensures Lines("", 3.0, 3.0, w) == Some([Line("", "")])
  {
    WidthOfOneMore("", 'a', w);
    assert "" + ['a'] == "a" && "a" + [' '] == "a ";
    BreaksOnTheLast("a", ' ', 3.0, w);
    assert TakeLine("a ", 3.0, w) == NextLine(Line("a", [' ']), "");
    var lines := [Line("a", [' '])] + [Line("", "")];
    assert Lines("a ", 3.0, 3.0, w) == Some(lines) && lines == [Line("a", " "), Line("", "")];
  }
}
