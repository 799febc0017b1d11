/** handleTabKey of static/js/components/modal.js: Tab and Shift+Tab in the description editor. */
module Indent {
  import opened Text

  // ------------------------------------------------------------------ JavaScript string functions

  function Min(a: int, b: int): int { if a < b then a else b }

  function Max(a: int, b: int): int { if a < b then b else a }

  function Clamp(x: int, hi: nat): (r: nat)
    ensures r <= hi
  {
    Min(Max(x, 0), hi)
  }

  /** value.substring(a, b): clamps both ends and swaps them if they are in the wrong order. */
  function Substring(v: string, a: int, b: int): string {
    var lo, hi := Clamp(Min(a, b), |v|), Clamp(Max(a, b), |v|);
    v[lo..hi]
  }

  function LastNewline(v: string, from: nat): (i: int)
    requires from < |v|
    ensures -1 <= i <= from
    ensures i >= 0 ==> v[i] == '\n'
    ensures forall k :: i < k <= from ==> v[k] != '\n'
  {
    if v[from] == '\n' then from else if from == 0 then -1 else LastNewline(v, from - 1)
  }

  /** value.lastIndexOf('\n', from): a negative from counts as 0. */
  function LastIndexOf(v: string, from: int): (i: int)
    ensures -1 <= i < |v|
  {
    if v == "" then -1 else LastNewline(v, Clamp(from, |v| - 1))
  }

  /** value.indexOf('\n', from), with value.length in place of -1. */
  function LineEnd(v: string, from: nat): (i: nat)
    requires from <= |v|
    ensures from <= i <= |v|
    ensures i < |v| ==> v[i] == '\n'
    ensures forall k :: from <= k < i ==> v[k] != '\n'
    decreases |v| - from
  {
    if from == |v| || v[from] == '\n' then from else LineEnd(v, from + 1)
  }

  // ------------------------------------------------------------------------------- the text editor

  /** Text and selection of a textarea. */
  datatype Area = Area(value: string, start: nat, end: nat) {
    predicate Valid() { start <= end <= |value| }
  }

  /** Assigning selectionStart, then selectionEnd. */
  function Select(value: string, start: int, end: int): (a: Area)
    ensures a.Valid() && a.value == value
    ensures 0 <= start <= end <= |value| ==> a.start == start && a.end == end
  {
    var e := Clamp(end, |value|);
    Area(value, Min(Clamp(start, |value|), e), e)
  }

  /** One line after Tab or Shift+Tab. */
  function NewLine(line: string, shift: bool): string {
    if !shift then "  " + line
    else if "  " <= line then line[2..]
    else if " " <= line || "\t" <= line then line[1..]
    else line
  }

  function NewLines(lines: seq<string>, shift: bool): (r: seq<string>)
    ensures |r| == |lines|
    ensures forall k :: 0 <= k < |lines| ==> r[k] == NewLine(lines[k], shift)
  {
    if lines == [] then [] else [NewLine(lines[0], shift)] + NewLines(lines[1..], shift)
  }

  function Growth(line: string, shift: bool): int {
    |NewLine(line, shift)| - |line|
  }

  function TotalGrowth(lines: seq<string>, shift: bool): int {
    if lines == [] then 0 else Growth(lines[0], shift) + TotalGrowth(lines[1..], shift)
  }

  /** The lines the selection touches: v[lineStart..lineEnd], in the order of the source's arguments. */
  function AdjustedEnd(a: Area): nat
    requires a.Valid()
  {
    if a.end > a.start && a.value[a.end - 1] == '\n' then a.end - 1 else a.end
  }

  function LineStart(a: Area): nat
    requires a.Valid()
  {
    LastIndexOf(a.value, a.start - 1) + 1
  }

  function TabKey(a: Area, shift: bool): (r: Area)
    requires a.Valid()
    ensures r.Valid()
  {
    var v := a.value;
    if a.start == a.end && !shift then
      Select(v[..a.start] + "  " + v[a.end..], a.start + 2, a.start + 2)
    else
      var lineStart, lineEnd := LineStart(a), LineEnd(v, AdjustedEnd(a));
      var lines := Split(Substring(v, lineStart, lineEnd), '\n');
      var value := Substring(v, 0, lineStart) + Join(NewLines(lines, shift), '\n') + Substring(v, lineEnd, |v|);
      var newStart := Max(lineStart, a.start + Growth(lines[0], shift));
      var newEnd := Max(lineStart, a.end + TotalGrowth(lines, shift));
      Select(value, newStart, if a.start == a.end then newStart else newEnd)
  }

  lemma {:induction false} TotalGrowthAppend(lines: seq<string>, line: string, shift: bool)
    ensures TotalGrowth(lines + [line], shift) == TotalGrowth(lines, shift) + Growth(line, shift)
  {
    if lines == [] {
      assert [line][1..] == [];
    } else {
      assert (lines + [line])[1..] == lines[1..] + [line];
      TotalGrowthAppend(lines[1..], line, shift);
    }
  }

  lemma {:induction false} NewLinesAppend(lines: seq<string>, line: string, shift: bool)
    ensures NewLines(lines + [line], shift) == NewLines(lines, shift) + [NewLine(line, shift)]
  {
  }

  lemma {:induction false} SelectInside(value: string, start: nat, end: nat)
    requires start <= end <= |value|
    ensures Select(value, start, end) == Area(value, start, end)
  {
  }

  /** What one pass of the loop makes of a line, and by how much it changes the length. */
  method RewriteLine(line: string, shift: bool) returns (newLine: string, diff: int)
    ensures newLine == NewLine(line, shift) && diff == Growth(line, shift)
  {
    newLine, diff := line, 0;
    if shift {
      if "  " <= newLine {
        newLine, diff := newLine[2..], -2;
      } else if " " <= newLine || "\t" <= newLine {
        newLine, diff := newLine[1..], -1;
      }
    } else {
      newLine, diff := "  " + newLine, 2;
    }
  }

  /** The loop over the touched lines, with the shifts of the selection's ends. */
  method RewriteLines(lines: seq<string>, shift: bool)
    returns (newLines: seq<string>, startOffset: int, endOffset: int)
    requires lines != []
    ensures newLines == NewLines(lines, shift)
    ensures startOffset == Growth(lines[0], shift) && endOffset == TotalGrowth(lines, shift)
  {
    hide NewLine, Growth;
    newLines, startOffset, endOffset := [], 0, 0;
    for idx := 0 to |lines|
      invariant newLines == NewLines(lines[..idx], shift)
      invariant endOffset == TotalGrowth(lines[..idx], shift)
      invariant startOffset == if idx == 0 then 0 else Growth(lines[0], shift)
    {
      var newLine, diff := RewriteLine(lines[idx], shift);
      if idx == 0 {
        startOffset := startOffset + diff;
      }
      endOffset := endOffset + diff;
      assert lines[..idx + 1] == lines[..idx] + [lines[idx]];
      TotalGrowthAppend(lines[..idx], lines[idx], shift);
      NewLinesAppend(lines[..idx], lines[idx], shift);
      newLines := newLines + [newLine];
    }
    assert lines[..|lines|] == lines;
  }

  /** The textarea and its key handler. */
  class Editor {
    var value: string
    var selectionStart: nat
    var selectionEnd: nat

    function View(): Area reads this { Area(value, selectionStart, selectionEnd) }

    constructor (value: string)
      ensures View() == Area(value, 0, 0)
    {
      this.value, selectionStart, selectionEnd := value, 0, 0;
    }

    method HandleTabKey(shift: bool)
      requires View().Valid()
      modifies this
      ensures View() == TabKey(old(View()), shift)
    {
      hide Substring, LastIndexOf, LineEnd, Split, Join, NewLines, Growth, TotalGrowth, Select, Max;
      ghost var before := View();
      var start, end, v := selectionStart, selectionEnd, value;
      if start == end && !shift {
        value := v[..start] + "  " + v[end..];
        selectionStart, selectionEnd := start + 2, start + 2;
        assert value == v[..start] + "  " + v[end..] && selectionEnd <= |value|;
        SelectInside(value, selectionStart, selectionEnd);
        return;
      }
      var adjustedEnd := end;
      if end > start && v[end - 1] == '\n' {
        adjustedEnd := end - 1;
      }
      var lineStart: nat := LastIndexOf(v, start as int - 1) + 1;
      var lineEnd := LineEnd(v, adjustedEnd);
      var lines := Split(Substring(v, lineStart, lineEnd), '\n');
      var newLines, startOffset, endOffset := RewriteLines(lines, shift);
      var newValue := Substring(v, 0, lineStart) + Join(newLines, '\n') + Substring(v, lineEnd, |v|);
      var newStart := Max(lineStart, start + startOffset);
      var newEnd := Max(lineStart, end + endOffset);
      var area := Select(newValue, newStart, if start == end then newStart else newEnd);
      assert area == TabKey(before, shift);
      value, selectionStart, selectionEnd := area.value, area.start, area.end;
    }
  }

  // --------------------------------------------------------------------------- Tab, then Shift+Tab

  /** Indented lines: two longer each, same first line behind the spaces, same last line. */
  lemma {:induction false} IndentedGrowth(lines: seq<string>)
    ensures TotalGrowth(lines, false) == 2 * |lines|
  {
    if lines != [] {
      IndentedGrowth(lines[1..]);
    }
  }

  /** Joining from the first line on. */
  lemma {:induction false} JoinFirst(lines: seq<string>)
    requires |lines| >= 2
    ensures Join(lines, '\n') == lines[0] + ['\n'] + Join(lines[1..], '\n')
    ensures NewLines(lines, false)[0] == "  " + lines[0] && NewLines(lines, false)[1..] == NewLines(lines[1..], false)
    ensures Join(NewLines(lines, false), '\n') == "  " + lines[0] + ['\n'] + Join(NewLines(lines[1..], false), '\n')
  {
  }

  lemma {:induction false} IndentedOne(lines: seq<string>)
    requires |lines| == 1
    ensures Join(lines, '\n') == lines[0] && Join(NewLines(lines, false), '\n') == "  " + lines[0]
  {
    assert lines[1..] == [];
  }

  lemma {:induction false} IndentedShape(lines: seq<string>)
    requires lines != []
    ensures |Join(NewLines(lines, false), '\n')| == |Join(lines, '\n')| + 2 * |lines|
    ensures "  " + lines[0] <= Join(NewLines(lines, false), '\n') && lines[0] <= Join(lines, '\n')
    ensures var l, s, t := lines[|lines| - 1], Join(lines, '\n'), Join(NewLines(lines, false), '\n');
      |l| <= |s| && s[|s| - |l|..] == l && t[|t| - |l|..] == l
    ensures TotalGrowth(lines, false) == 2 * |lines|
  {
    IndentedGrowth(lines);
    hide TotalGrowth, Join, NewLines;
    if |lines| == 1 {
      IndentedOne(lines);
    } else {
      JoinFirst(lines);
      IndentedShape(lines[1..]);
    }
  }

  lemma {:induction false} UnindentIndented(lines: seq<string>)
    ensures NewLines(NewLines(lines, false), true) == lines
    ensures TotalGrowth(NewLines(lines, false), true) == -2 * |lines|
  {
    if lines != [] {
      var n := NewLines(lines, false);
      assert n[1..] == NewLines(lines[1..], false);
      UnindentIndented(lines[1..]);
      assert lines == [lines[0]] + lines[1..];
    }
  }

  /**
   * The touched lines of a selection: the text is before, the lines, after; the selection starts in
   * the first line and ends w characters before the end of the last line, or just behind the
   * newline that ends it.
   */
  ghost predicate InLines(a: Area, before: string, lines: seq<string>, after: string, w: nat) {
    && a.Valid() && a.start < a.end && !(a.start == 0 && a.value[0] == '\n')
    && lines != [] && (forall k :: 0 <= k < |lines| ==> Free(lines[k], '\n'))
    && a.value == before + Join(lines, '\n') + after
    && (before == "" || before[|before| - 1] == '\n') && (after == "" || after[0] == '\n')
    && |before| <= a.start <= |before| + |lines[0]|
    && var lineEnd := |before| + |Join(lines, '\n')|;
       (after != "" && a.end == lineEnd + 1) || (w < |lines[|lines| - 1]| && a.end == lineEnd - w)
  }

  lemma {:induction false} LineStartIs(v: string, start: nat, lineStart: nat)
    requires lineStart <= start <= |v| && !(start == 0 && v != "" && v[0] == '\n')
    requires lineStart > 0 ==> v[lineStart - 1] == '\n'
    requires forall k :: lineStart <= k < start ==> v[k] != '\n'
    ensures LastIndexOf(v, start - 1) + 1 == lineStart
  {
  }

  lemma {:induction false} LineEndIs(v: string, from: nat, lineEnd: nat)
    requires from <= lineEnd <= |v| && (lineEnd < |v| ==> v[lineEnd] == '\n')
    requires forall k :: from <= k < lineEnd ==> v[k] != '\n'
    ensures LineEnd(v, from) == lineEnd
  {
  }

  lemma {:induction false} JoinEnds(lines: seq<string>)
    requires lines != []
    ensures var s, l := Join(lines, '\n'), lines[|lines| - 1];
      lines[0] <= s && |l| <= |s| && s[|s| - |l|..] == l
  {
    if |lines| > 1 {
      JoinEnds(lines[1..]);
      assert lines[1..][|lines[1..]| - 1] == lines[|lines| - 1];
    }
  }

  /** The source finds exactly the touched lines. */
  lemma {:induction false} TouchedLinesFound(a: Area, before: string, lines: seq<string>, after: string, w: nat)
    requires InLines(a, before, lines, after, w)
    ensures LineStart(a) == |before|
    ensures LineEnd(a.value, AdjustedEnd(a)) == |before| + |Join(lines, '\n')|
  {
    hide Join, LineEnd, LastIndexOf;
    JoinEnds(lines);
    StartFound(a, before, lines[0], Join(lines, '\n') + after);
    EndFound(a, before, lines[|lines| - 1], Join(lines, '\n'), after, w);
  }

  lemma {:induction false} StartFound(a: Area, before: string, line: string, rest: string)
    requires a.Valid() && a.start < a.end && !(a.start == 0 && a.value[0] == '\n')
    requires a.value == before + rest && line <= rest && Free(line, '\n')
    requires before == "" || before[|before| - 1] == '\n'
    requires |before| <= a.start <= |before| + |line|
    ensures LineStart(a) == |before|
  {
    hide LastIndexOf;
    forall k | |before| <= k < a.start ensures a.value[k] != '\n' {
      assert a.value[k] == line[k - |before|];
    }
    assert before != "" ==> a.value[|before| - 1] == before[|before| - 1];
    LineStartIs(a.value, a.start, |before|);
  }

  lemma {:induction false} EndFound(a: Area, before: string, line: string, region: string, after: string, w: nat)
    requires a.Valid() && a.start < a.end && a.value == before + region + after
    requires |line| <= |region| && region[|region| - |line|..] == line && Free(line, '\n')
    requires after == "" || after[0] == '\n'
    requires (after != "" && a.end == |before| + |region| + 1) || (w < |line| && a.end == |before| + |region| - w)
    ensures LineEnd(a.value, AdjustedEnd(a)) == |before| + |region|
  {
    hide LineEnd;
    var v, lineEnd := a.value, |before| + |region|;
    assert after != "" ==> v[lineEnd] == after[0];
    if a.end == lineEnd + 1 {
      LineEndIs(v, lineEnd, lineEnd);
    } else {
      forall k | lineEnd - |line| <= k < lineEnd ensures v[k] != '\n' {
        assert v[k] == region[k - |before|] == line[k - (lineEnd - |line|)];
      }
      LineEndIs(v, a.end, lineEnd);
    }
  }

  lemma {:induction false} SubstringsAt(before: string, region: string, after: string)
    ensures var v := before + region + after;
      && Substring(v, 0, |before|) == before
      && Substring(v, |before|, |before| + |region|) == region
      && Substring(v, |before| + |region|, |v|) == after
  {
  }

  /** Tab and Shift+Tab rewrite the touched lines and nothing else. */
  lemma {:induction false} TabKeyRewrites(a: Area, before: string, lines: seq<string>, after: string, w: nat,
      shift: bool)
    requires InLines(a, before, lines, after, w)
    ensures TabKey(a, shift) == Select(
      before + Join(NewLines(lines, shift), '\n') + after,
      Max(|before|, a.start + Growth(lines[0], shift)), Max(|before|, a.end + TotalGrowth(lines, shift)))
  {
    hide Substring, Select, Growth, Max, AdjustedEnd;
    TouchedLinesFound(a, before, lines, after, w);
    SubstringsAt(before, Join(lines, '\n'), after);
    SplitJoin(lines, '\n');
  }

  /** After Tab the same lines are touched, each two characters longer. */
  lemma {:induction false} TabIndents(a: Area, before: string, lines: seq<string>, after: string, w: nat)
    requires InLines(a, before, lines, after, w)
    ensures TabKey(a, false)
            == Area(before + Join(NewLines(lines, false), '\n') + after, a.start + 2, a.end + 2 * |lines|)
    ensures InLines(TabKey(a, false), before, NewLines(lines, false), after, w)
  {
    hide TabKey, Join;
    TabKeyRewrites(a, before, lines, after, w, false);
    IndentedShape(lines);
    TouchedInBounds(a, before, lines, after, w);
    var b := Area(before + Join(NewLines(lines, false), '\n') + after, a.start + 2, a.end + 2 * |lines|);
    assert TabKey(a, false) == b;
    StillInLines(a, before, lines, after, w, b);
  }

  lemma {:induction false} TouchedInBounds(a: Area, before: string, lines: seq<string>, after: string, w: nat)
    requires InLines(a, before, lines, after, w)
    ensures |before| <= a.start && a.start + 2 <= a.end + 2 * |lines|
    ensures a.end <= |before| + |Join(lines, '\n')| + |after|
  {
  }

  lemma {:induction false} InLinesValue(a: Area, before: string, lines: seq<string>, after: string, w: nat)
    requires InLines(a, before, lines, after, w)
    ensures a.value == before + Join(lines, '\n') + after && lines != []
  {
  }

  lemma {:induction false} StillInLines(a: Area, before: string, lines: seq<string>, after: string, w: nat, b: Area)
    requires InLines(a, before, lines, after, w)
    requires b == Area(before + Join(NewLines(lines, false), '\n') + after, a.start + 2, a.end + 2 * |lines|)
    ensures InLines(b, before, NewLines(lines, false), after, w)
  {
    hide Join;
    IndentedShape(lines);
    TouchedInBounds(a, before, lines, after, w);
    IndentedLines(lines);
    AreTouched(b, before, NewLines(lines, false), after, w);
  }

  lemma {:induction false} IndentedLines(lines: seq<string>)
    requires lines != [] && forall k :: 0 <= k < |lines| ==> Free(lines[k], '\n')
    ensures var n := NewLines(lines, false);
      && (forall k :: 0 <= k < |n| ==> Free(n[k], '\n'))
      && |n[0]| == |lines[0]| + 2 && |n[|n| - 1]| == |lines[|lines| - 1]| + 2
  {
    var n := NewLines(lines, false);
    forall k | 0 <= k < |n| ensures Free(n[k], '\n') {
      assert n[k] == "  " + lines[k];
    }
    assert n[0] == "  " + lines[0] && n[|n| - 1] == "  " + lines[|lines| - 1];
  }

  lemma {:induction false} FirstLine(s: string, q: nat)
    requires q <= |s| && Free(s[..q], '\n')
    ensures s[..q] <= Split(s, '\n')[0]
  {
    if q > 0 {
      assert s[0] == s[..q][0] && s[1..][..q - 1] == s[..q][1..];
      FirstLine(s[1..], q - 1);
    }
  }

  lemma {:induction false} LastLine(s: string, p: nat)
    requires p <= |s| && Free(s[p..], '\n')
    ensures var parts := Split(s, '\n'); |parts[|parts| - 1]| >= |s| - p
    decreases |s|
  {
    if p > 0 {
      assert s[1..][p - 1..] == s[p..];
      LastLine(s[1..], p - 1);
    } else {
      assert s[0..] == s;
      SplitFree(s, '\n');
    }
  }

  /** Every non-empty selection outside the excepted case has its touched lines. */
  lemma {:induction false} TouchedLinesExist(a: Area)
    requires a.Valid() && a.start < a.end && !(a.start == 0 && a.value[0] == '\n')
    ensures exists before, lines, after, w :: InLines(a, before, lines, after, w)
  {
    hide InLines, LineEnd, LastIndexOf, Split;
    var v, ls, le := a.value, LineStart(a), LineEnd(a.value, AdjustedEnd(a));
    var w := if v[a.end - 1] == '\n' then 0 else le - a.end;
    RegionFound(a, ls, le);
    assert InLines(a, v[..ls], Split(v[ls..le], '\n'), v[le..], w);
  }

  lemma {:induction false} RegionBounds(a: Area, ls: nat, le: nat)
    requires a.Valid() && a.start < a.end && !(a.start == 0 && a.value[0] == '\n')
    requires ls == LineStart(a) && le == LineEnd(a.value, AdjustedEnd(a))
    ensures ls <= a.start <= le <= |a.value|
    ensures forall k :: ls <= k < a.start ==> a.value[k] != '\n'
    ensures ls > 0 ==> a.value[ls - 1] == '\n'
    ensures le < |a.value| ==> a.value[le] == '\n'
    ensures if a.value[a.end - 1] == '\n' then a.end == le + 1 else a.end <= le
    ensures forall k :: a.end <= k < le ==> a.value[k] != '\n'
  {
  }

  /** The text around the region, and its lines. */
  lemma {:induction false} RegionText(a: Area, ls: nat, le: nat)
    requires ls <= le <= |a.value|
    requires (ls > 0 ==> a.value[ls - 1] == '\n') && (le < |a.value| ==> a.value[le] == '\n')
    ensures var before, lines, after := a.value[..ls], Split(a.value[ls..le], '\n'), a.value[le..];
      && |before| == ls && a.value == before + Join(lines, '\n') + after && |Join(lines, '\n')| == le - ls
      && (before != "" ==> before[|before| - 1] == '\n')
      && (after != "" ==> after[0] == '\n') && (after == "" <==> le == |a.value|)
  {
    hide Split, Join;
    JoinSplit(a.value[ls..le], '\n');
    SliceInThree(a.value, ls, le);
  }

  /** Where the selection lies in the lines of the region. */
  lemma {:induction false} RegionSelection(a: Area, ls: nat, le: nat)
    requires a.Valid() && a.start < a.end && ls <= a.start <= le <= |a.value|
    requires forall k :: ls <= k < a.start ==> a.value[k] != '\n'
    requires if a.value[a.end - 1] == '\n' then a.end == le + 1 else a.end <= le
    requires forall k :: a.end <= k < le ==> a.value[k] != '\n'
    ensures var lines := Split(a.value[ls..le], '\n');
      && a.start - ls <= |lines[0]|
      && (a.value[a.end - 1] != '\n' ==> le - a.end < |lines[|lines| - 1]|)
  {
    hide Split;
    FirstOfRegion(a.value, ls, le, a.start);
    if a.value[a.end - 1] != '\n' {
      LastOfRegion(a.value, ls, le, a.end - 1);
    }
  }

  lemma {:induction false} RegionFound(a: Area, ls: nat, le: nat)
    requires a.Valid() && a.start < a.end && !(a.start == 0 && a.value[0] == '\n')
    requires ls == LineStart(a) && le == LineEnd(a.value, AdjustedEnd(a))
    ensures ls <= le <= |a.value|
    ensures InLines(a, a.value[..ls], Split(a.value[ls..le], '\n'), a.value[le..],
                    if a.value[a.end - 1] == '\n' then 0 else le - a.end)
  {
    hide Split, Join, LineEnd, LastIndexOf, LineStart, AdjustedEnd, InLines;
    RegionBounds(a, ls, le);
    RegionText(a, ls, le);
    RegionSelection(a, ls, le);
    AreTouched(a, a.value[..ls], Split(a.value[ls..le], '\n'), a.value[le..],
               if a.value[a.end - 1] == '\n' then 0 else le - a.end);
  }

  lemma {:induction false} AreTouched(a: Area, before: string, lines: seq<string>, after: string, w: nat)
    requires a.Valid() && a.start < a.end && !(a.start == 0 && a.value[0] == '\n')
    requires lines != [] && forall k :: 0 <= k < |lines| ==> Free(lines[k], '\n')
    requires a.value == before + Join(lines, '\n') + after
    requires before != "" ==> before[|before| - 1] == '\n'
    requires after != "" ==> after[0] == '\n'
    requires |before| <= a.start <= |before| + |lines[0]|
    requires var lineEnd := |before| + |Join(lines, '\n')|;
      (after != "" && a.end == lineEnd + 1) || (w < |lines[|lines| - 1]| && a.end == lineEnd - w)
    ensures InLines(a, before, lines, after, w)
  {
  }

  lemma {:induction false} SliceInThree(v: string, ls: nat, le: nat)
    requires ls <= le <= |v|
    ensures v == v[..ls] + v[ls..le] + v[le..]
    ensures ls > 0 ==> v[..ls] != "" && v[..ls][|v[..ls]| - 1] == v[ls - 1]
    ensures le < |v| ==> v[le..] != "" && v[le..][0] == v[le]
  {
  }

  lemma {:induction false} FirstOfRegion(v: string, ls: nat, le: nat, start: nat)
    requires ls <= start <= le <= |v| && forall k :: ls <= k < start ==> v[k] != '\n'
    ensures start - ls <= |Split(v[ls..le], '\n')[0]|
  {
    FirstLine(v[ls..le], start - ls);
  }

  lemma {:induction false} LastOfRegion(v: string, ls: nat, le: nat, from: nat)
    requires ls <= from <= le <= |v| && forall k :: from <= k < le ==> v[k] != '\n'
    ensures var lines := Split(v[ls..le], '\n'); le - from <= |lines[|lines| - 1]|
  {
    assert v[ls..le][from - ls..] == v[from..le];
    LastLine(v[ls..le], from - ls);
  }

  lemma {:induction false} TabUntabRestores(a: Area)
    requires a.Valid() && a.start < a.end && !(a.start == 0 && a.value[0] == '\n')
    ensures TabKey(TabKey(a, false), true) == a
  {
    hide TabKey, Join, InLines;
    TouchedLinesExist(a);
    var before, lines, after, w :| InLines(a, before, lines, after, w);
    var n := NewLines(lines, false);
    TabIndents(a, before, lines, after, w);
    TabKeyRewrites(TabKey(a, false), before, n, after, w, true);
    UnindentIndented(lines);
    TouchedInBounds(a, before, lines, after, w);
    assert a.value == before + Join(lines, '\n') + after && lines != [] by { InLinesValue(a, before, lines, after, w); }
    assert n[0] == "  " + lines[0];
  }

  /** lastIndexOf clamps -1 to 0, so a newline at the very start of the text moves the selection. */
  lemma {:induction false} TabUntabMoves(a: Area)
    requires a.Valid() && a.start < a.end && a.start == 0 && a.value[0] == '\n'
    ensures TabKey(TabKey(a, false), true).start >= 1
  {
    var b := TabKey(a, false);
    assert LineStart(a) == 1;
    StartsAtLine(a, false);
    assert b.value[0] == '\n' && b.start >= 1;
    assert LineStart(b) >= 1;
    StartsAtLine(b, true);
  }

  /** The key never moves the start of a selection in front of the first touched line. */
  lemma {:induction false} StartsAtLine(a: Area, shift: bool)
    requires a.Valid() && (a.start < a.end || shift) && a.end > 0 && a.value[0] == '\n' && LineStart(a) >= 1
    ensures var b := TabKey(a, shift); b.value != "" && b.value[0] == '\n' && b.start >= 1
  {
  }

  /**
   * For every non-empty selection, Tab followed by Shift+Tab restores text and selection, except
   * exactly for a selection that starts at offset 0 of a text beginning with a newline.
   */
  lemma {:induction false} TabUntab(a: Area)
    requires a.Valid() && a.start < a.end
    ensures TabKey(TabKey(a, false), true) == a <==> !(a.start == 0 && a.value[0] == '\n')
  {
    if a.start == 0 && a.value[0] == '\n' {
      TabUntabMoves(a);
    } else {
      TabUntabRestores(a);
    }
  }

  // ------------------------------------------------------------------- single lines and the caret

  /** What Shift+Tab takes from the front of a line: two spaces, or one, or a tab. */
  lemma {:induction false} UntabbedLine(line: string) returns (taken: string)
    ensures line == taken + NewLine(line, true) && taken in {"", " ", "  ", "\t"}
    ensures taken == "" ==> line == "" || line[0] !in {' ', '\t'}
    ensures taken == " " ==> |line| == 1 || line[1] != ' '
  {
    taken := if "  " <= line then "  " else if " " <= line then " " else if "\t" <= line then "\t" else "";
    assert line == taken + line[|taken|..];
    assert |line| >= 2 && line[0] == line[1] == ' ' ==> line[..2] == "  ";
  }

  /** With nothing selected Tab inserts two spaces and moves the caret behind them. */
  lemma {:induction false} CaretTab(v: string, caret: nat)
    requires caret <= |v|
    ensures var b := TabKey(Area(v, caret, caret), false);
      b.value == v[..caret] + "  " + v[caret..] && b.start == b.end == caret + 2
  {
  }

  /** With nothing selected Shift+Tab takes the indentation of the caret's line, and the caret stays in it. */
  lemma {:induction false} CaretUntab(before: string, line: string, after: string, offset: nat)
    requires Free(line, '\n') && offset <= |line|
    requires (before == "" || before[|before| - 1] == '\n') && (after == "" || after[0] == '\n')
    requires !(before == "" && offset == 0 && line == "" && after != "")
    ensures var caret := |before| + offset;
            var b := TabKey(Area(before + line + after, caret, caret), true);
      && b.value == before + NewLine(line, true) + after
      && b.start == b.end == |before| + Max(0, offset - (|line| - |NewLine(line, true)|))
  {
    hide Substring, Select, Growth, Max, LineEnd, LastIndexOf, NewLine;
    var v, caret := before + line + after, |before| + offset;
    CaretLine(before, line, after, offset);
    SubstringsAt(before, line, after);
    SplitFree(line, '\n');
    assert NewLines([line], true) == [NewLine(line, true)];
    CaretMoves(before, line, after, offset);
  }

  lemma {:induction false} CaretLine(before: string, line: string, after: string, offset: nat)
    requires Free(line, '\n') && offset <= |line|
    requires (before == "" || before[|before| - 1] == '\n') && (after == "" || after[0] == '\n')
    requires !(before == "" && offset == 0 && line == "" && after != "")
    ensures var v, caret := before + line + after, |before| + offset;
      LastIndexOf(v, caret - 1) + 1 == |before| && LineEnd(v, caret) == |before| + |line|
  {
    hide LineEnd, LastIndexOf;
    var v, caret := before + line + after, |before| + offset;
    forall k | |before| <= k < |before| + |line| ensures v[k] != '\n' {
      assert v[k] == line[k - |before|];
    }
    assert before != "" ==> v[|before| - 1] == before[|before| - 1];
    assert after != "" ==> v[|before| + |line|] == after[0];
    LineStartIs(v, caret, |before|);
    LineEndIs(v, caret, |before| + |line|);
  }

  lemma {:induction false} CaretMoves(before: string, line: string, after: string, offset: nat)
    requires offset <= |line|
    ensures var start := Max(|before|, |before| + offset + Growth(line, true));
            var value := before + NewLine(line, true) + after;
      && start == |before| + Max(0, offset - (|line| - |NewLine(line, true)|))
      && Select(value, start, start) == Area(value, start, start)
  {
    var taken := UntabbedLine(line);
  }
}
