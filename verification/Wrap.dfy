/** Wrapping and truncating text in terminal cells (apps/mutte/src/conversation_layout.rs). */
module Wrap {
  import opened Common

  /** A user-perceived character with its width in cells; `white` when all of it is white space. */
  datatype Grapheme = Grapheme(text: string, width: nat, white: bool)

  type Line = seq<Grapheme>

  const REPLACEMENT := Grapheme("\U{FFFD}", 1, false)
  const ELLIPSIS := Grapheme("\U{2026}", 1, false)

  function Cells(gs: Line): nat {
    if gs == [] then 0 else Cells(gs[..|gs| - 1]) + gs[|gs| - 1].width
  }

  lemma {:induction false} CellsConcat(a: Line, b: Line)
    ensures Cells(a + b) == Cells(a) + Cells(b)
  {
    if b == [] {
      assert a + b == a;
    } else {
      CellsConcat(a, b[..|b| - 1]);
      assert (a + b)[..|a + b| - 1] == a + b[..|b| - 1];
    }
  }

  lemma CellsPair(a: Grapheme, b: Grapheme)
    ensures Cells([a]) == a.width && Cells([a, b]) == a.width + b.width
  {
    assert [a, b][..1] == [a] && [a][..0] == [];
    assert Cells([a]) == Cells([]) + a.width;
  }

  lemma CellsNext(gs: Line, start: nat, end: nat)
    requires start <= end < |gs|
    ensures Cells(gs[start..end + 1]) == Cells(gs[start..end]) + gs[end].width
  {
    assert gs[start..end + 1][..end - start] == gs[start..end];
  }

  lemma CellsGrow(gs: Line, start: nat, mid: nat, end: nat)
    requires start <= mid <= end <= |gs|
    ensures Cells(gs[start..mid]) <= Cells(gs[start..end])
  {
    CellsConcat(gs[start..mid], gs[mid..end]);
    assert gs[start..mid] + gs[mid..end] == gs[start..end];
  }

  // ---------------------------------------------------------------- what the program computes

  datatype Scan = Scan(end: nat, space: Option<nat>)

  /** The inner loop: how far a line reaches, and its last break opportunity. */
  function ScanFrom(gs: Line, end: nat, cells: nat, space: Option<nat>, sawWord: bool, width: nat): (r: Scan)
    requires end <= |gs| && (space.Some? ==> space.value <= end)
    ensures end <= r.end <= |gs| && (r.space.Some? ==> r.space.value <= r.end)
    decreases |gs| - end
  {
    if end == |gs| || cells + gs[end].width > width then Scan(end, space)
    else
      var white := gs[end].white;
      ScanFrom(gs, end + 1, cells + gs[end].width,
               if white && sawWord then Some(end + 1) else space, sawWord || !white, width)
  }

  function ScanLine(gs: Line, start: nat, width: nat): Scan
    requires start <= |gs|
  {
    ScanFrom(gs, start, 0, None, false, width)
  }

  function Cut(gs: Line, start: nat, width: nat): (cut: nat)
    requires start <= |gs|
    ensures start <= cut <= |gs|
  {
    var s := ScanLine(gs, start, width);
    if s.end < |gs| && s.space.Some? && s.space.value > start then s.space.value else s.end
  }

  function WrapFrom(gs: Line, start: nat, width: nat): seq<Line>
    requires start <= |gs|
    decreases |gs| - start
  {
    if start == |gs| then []
    else if ScanLine(gs, start, width).end == start then [[REPLACEMENT]] + WrapFrom(gs, start + 1, width)
    else [gs[start..Cut(gs, start, width)]] + WrapFrom(gs, Cut(gs, start, width), width)
  }

  function WrapParagraph(gs: Line, width: nat): seq<Line> {
    if gs == [] then [[]] else WrapFrom(gs, 0, width)
  }

  /** A text is its paragraphs, each a sequence of graphemes. */
  function WrapText(text: seq<Line>, width: nat): seq<Line> {
    if text == [] then []
    else WrapText(text[..|text| - 1], width) + WrapParagraph(text[|text| - 1], Max(1, width))
  }

  /** The inner loop over one line. */
  method NextLine(gs: Line, start: nat, width: nat) returns (end: nat, lastSpace: Option<nat>)
    requires start < |gs|
    ensures ScanLine(gs, start, width) == Scan(end, lastSpace)
  {
    var cells: nat, sawWord := 0, false;
    end, lastSpace := start, None;
    while end < |gs|
      invariant start <= end <= |gs| && (lastSpace.Some? ==> lastSpace.value <= end)
      invariant ScanFrom(gs, end, cells, lastSpace, sawWord, width) == ScanLine(gs, start, width)
    {
      if cells + gs[end].width > width { break; }
      cells := cells + gs[end].width;
      var white := gs[end].white;
      if white && sawWord { lastSpace := Some(end + 1); }
      sawWord := sawWord || !white;
      end := end + 1;
    }
  }

  /** One line, and where the next one starts. */
  method TakeLine(gs: Line, start: nat, width: nat) returns (line: Line, next: nat)
    requires start < |gs|
    ensures start < next <= |gs| && WrapFrom(gs, start, width) == [line] + WrapFrom(gs, next, width)
  {
    var end, lastSpace := NextLine(gs, start, width);
    if end == start { return [REPLACEMENT], start + 1; }
    if end < |gs| && lastSpace.Some? && lastSpace.value > start {
      end := lastSpace.value;
    }
    return gs[start..end], end;
  }

  lemma WrapTextNext(text: seq<Line>, p: nat, width: nat)
    requires p < |text|
    ensures WrapText(text[..p + 1], width) == WrapText(text[..p], width) + WrapParagraph(text[p], Max(1, width))
  {
    assert text[..p + 1][..p] == text[..p];
  }

  lemma LineMoves(above: seq<Line>, part: seq<Line>, line: Line, rest: seq<Line>)
    ensures above + part + [line] == above + (part + [line])
    ensures part + ([line] + rest) == part + [line] + rest
  {
  }

  method WrapCells(text: seq<Line>, width: nat) returns (lines: seq<Line>)
    ensures lines == WrapText(text, width) && ShowsText(lines, text, width)
  {
    var room: nat := Max(1, width);
    lines := [];
    for p := 0 to |text|
      invariant lines == WrapText(text[..p], width)
    {
      WrapTextNext(text, p, width);
      var gs := text[p];
      if gs == [] {
        lines := lines + [[]];
        continue;
      }
      ghost var above, part: seq<Line> := lines, [];
      var start := 0;
      while start < |gs|
        invariant start <= |gs| && lines == above + part
        invariant part + WrapFrom(gs, start, room) == WrapParagraph(gs, room)
      {
        var line, next := TakeLine(gs, start, room);
        LineMoves(above, part, line, WrapFrom(gs, next, room));
        lines, part := lines + [line], part + [line];
        start := next;
      }
    }
    assert text[..|text|] == text;
    WrapTextIsTheOnlyText(text, lines, width);
  }

  // ---------------------------------------------------------------- where lines may end

  /** Just after white space that follows a word of the same line. */
  ghost predicate Break(gs: Line, start: nat, e: nat) {
    start < e <= |gs| && gs[e - 1].white && exists j :: start <= j < e - 1 && !gs[j].white
  }

  ghost predicate Fits(gs: Line, start: nat, e: nat, width: nat) {
    start <= e <= |gs| && Cells(gs[start..e]) <= width
  }

  /** A line ends with the paragraph when the rest fits; otherwise just after the last break
      that fits; and without one, before the grapheme that would overflow. */
  ghost predicate GoodEnd(gs: Line, start: nat, end: nat, width: nat) {
    && start < end && Fits(gs, start, end, width)
    && if Fits(gs, start, |gs|, width) then end == |gs|
       else if exists e :: Break(gs, start, e) && Fits(gs, start, e, width) then
         Break(gs, start, end) && forall e :: end < e && Break(gs, start, e) ==> !Fits(gs, start, e, width)
       else !Fits(gs, start, end + 1, width)
  }

  lemma GoodEndIsUnique(gs: Line, start: nat, d: nat, e: nat, width: nat)
    requires GoodEnd(gs, start, d, width) && GoodEnd(gs, start, e, width)
    ensures d == e
  {
    if d < e && e <= |gs| { CellsGrow(gs, start, d + 1, e); }
    if e < d && d <= |gs| { CellsGrow(gs, start, e + 1, d); }
  }

  ghost predicate LastBreak(gs: Line, start: nat, end: nat, space: Option<nat>) {
    match space
    case None => forall e: nat :: Break(gs, start, e) ==> e > end
    case Some(b) => Break(gs, start, b) && b <= end && forall e: nat :: Break(gs, start, e) && b < e ==> e > end
  }

  /** What the inner loop knows after looking at `gs[start..end]`. */
  ghost predicate Scanned(gs: Line, start: nat, end: nat, cells: nat, space: Option<nat>, sawWord: bool) {
    && start <= end <= |gs| && cells == Cells(gs[start..end])
    && (sawWord <==> exists j :: start <= j < end && !gs[j].white)
    && LastBreak(gs, start, end, space)
  }

  lemma ScannedNext(gs: Line, start: nat, end: nat, cells: nat, space: Option<nat>, sawWord: bool)
    requires Scanned(gs, start, end, cells, space, sawWord) && end < |gs|
    ensures Scanned(gs, start, end + 1, cells + gs[end].width,
                    if gs[end].white && sawWord then Some(end + 1) else space, sawWord || !gs[end].white)
  {
    CellsNext(gs, start, end);
    assert Break(gs, start, end + 1) <==> gs[end].white && sawWord;
  }

  ghost predicate Stopped(gs: Line, start: nat, r: Scan, width: nat) {
    && start <= r.end && Fits(gs, start, r.end, width)
    && (r.end < |gs| ==> !Fits(gs, start, r.end + 1, width))
    && LastBreak(gs, start, r.end, r.space)
  }

  lemma ScanEnds(gs: Line, start: nat, end: nat, cells: nat, space: Option<nat>, sawWord: bool, width: nat)
    requires Scanned(gs, start, end, cells, space, sawWord) && cells <= width
    requires end < |gs| ==> cells + gs[end].width > width
    ensures Stopped(gs, start, Scan(end, space), width)
  {
    if end < |gs| { CellsNext(gs, start, end); }
  }

  lemma {:induction false} ScanSpec(
      gs: Line, start: nat, end: nat, cells: nat, space: Option<nat>, sawWord: bool, width: nat)
    requires end <= |gs| && (space.Some? ==> space.value <= end)
    requires Scanned(gs, start, end, cells, space, sawWord) && cells <= width
    ensures Stopped(gs, start, ScanFrom(gs, end, cells, space, sawWord, width), width)
    decreases |gs| - end
  {
    if end < |gs| && cells + gs[end].width <= width {
      ScannedNext(gs, start, end, cells, space, sawWord);
      var more, saw := cells + gs[end].width, sawWord || !gs[end].white;
      var spot := if gs[end].white && sawWord then Some(end + 1) else space;
      ScanSpec(gs, start, end + 1, more, spot, saw, width);
      assert ScanFrom(gs, end, cells, space, sawWord, width) == ScanFrom(gs, end + 1, more, spot, saw, width);
    } else {
      ScanEnds(gs, start, end, cells, space, sawWord, width);
    }
  }

  lemma ScanLineSpec(gs: Line, start: nat, width: nat)
    requires start <= |gs|
    ensures Stopped(gs, start, ScanLine(gs, start, width), width)
  {
    assert gs[start..start] == [];
    ScanSpec(gs, start, start, 0, None, false, width);
  }

  lemma CutIsGood(gs: Line, start: nat, width: nat)
    requires start < |gs| && ScanLine(gs, start, width).end > start
    ensures GoodEnd(gs, start, Cut(gs, start, width), width)
  {
    var r := ScanLine(gs, start, width);
    ScanLineSpec(gs, start, width);
    forall e | r.end < e <= |gs| ensures !Fits(gs, start, e, width) {
      CellsGrow(gs, start, r.end + 1, e);
    }
    if r.end < |gs| && r.space.Some? {
      CellsGrow(gs, start, r.space.value, r.end);
    }
  }

  lemma ScanStops(gs: Line, start: nat, width: nat)
    requires start < |gs|
    ensures ScanLine(gs, start, width).end == start <==> gs[start].width > width
  {
    ScanLineSpec(gs, start, width);
    var r := ScanLine(gs, start, width);
    assert gs[start..start] == [];
    CellsNext(gs, start, start);
    if r.end > start { CellsGrow(gs, start, start + 1, r.end); }
  }

  /** `lines` cuts the paragraph from `start` on as the rules above demand. */
  ghost predicate Wrapping(gs: Line, start: nat, lines: seq<Line>, width: nat)
    decreases |lines|
  {
    if start >= |gs| then lines == []
    else
      && lines != []
      && if gs[start].width > width then
           lines[0] == [REPLACEMENT] && Wrapping(gs, start + 1, lines[1..], width)
         else
           exists end: nat :: GoodEnd(gs, start, end, width) && lines[0] == gs[start..end]
                         && Wrapping(gs, end, lines[1..], width)
  }

  /** The rules leave exactly one way to cut a paragraph, and the program finds it. */
  lemma {:induction false} WrapIsTheOnlyWrapping(gs: Line, start: nat, lines: seq<Line>, width: nat)
    requires start <= |gs|
    ensures Wrapping(gs, start, lines, width) <==> lines == WrapFrom(gs, start, width)
    decreases |gs| - start
  {
    if start < |gs| {
      ScanStops(gs, start, width);
      var tail := if lines == [] then [] else lines[1..];
      if gs[start].width > width {
        WrapIsTheOnlyWrapping(gs, start + 1, tail, width);
        assert lines != [] ==> lines == [lines[0]] + tail;
      } else {
        var cut := Cut(gs, start, width);
        CutIsGood(gs, start, width);
        WrapIsTheOnlyWrapping(gs, cut, tail, width);
        assert lines != [] ==> lines == [lines[0]] + tail;
        forall end: nat | GoodEnd(gs, start, end, width) ensures end == cut {
          GoodEndIsUnique(gs, start, end, cut, width);
        }
      }
    }
  }

  // ---------------------------------------------------------------- nothing overflows, nothing is lost

  lemma {:induction false} WrapFromFits(gs: Line, start: nat, width: nat)
    requires start <= |gs| && width >= 1
    ensures forall l :: l in WrapFrom(gs, start, width) ==> Cells(l) <= width
    decreases |gs| - start
  {
    if start < |gs| {
      if ScanLine(gs, start, width).end == start {
        WrapFromFits(gs, start + 1, width);
        assert Cells([REPLACEMENT]) == 1 by { assert [REPLACEMENT][..0] == []; }
      } else {
        CutIsGood(gs, start, width);
        WrapFromFits(gs, Cut(gs, start, width), width);
      }
    }
  }

  /** Every line of every paragraph fits. */
  lemma {:induction false} WrapTextFits(text: seq<Line>, width: nat)
    ensures forall l :: l in WrapText(text, width) ==> Cells(l) <= Max(1, width)
  {
    if text != [] {
      WrapTextFits(text[..|text| - 1], width);
      WrapFromFits(text[|text| - 1], 0, Max(1, width));
    }
  }

  function Concat(lines: seq<Line>): Line {
    if lines == [] then [] else lines[0] + Concat(lines[1..])
  }

  function Stand(g: Grapheme, width: nat): Grapheme {
    if g.width > width then REPLACEMENT else g
  }

  /** Graphemes too wide for any line give way to the replacement character. */
  function Standing(gs: Line, width: nat): (r: Line)
    ensures |r| == |gs| && forall i :: 0 <= i < |gs| ==> r[i] == Stand(gs[i], width)
  {
    seq(|gs|, i requires 0 <= i < |gs| => Stand(gs[i], width))
  }

  lemma FittingGraphemes(gs: Line, start: nat, end: nat, width: nat)
    requires Fits(gs, start, end, width)
    ensures forall i :: start <= i < end ==> gs[i].width <= width
  {
    forall i | start <= i < end ensures gs[i].width <= width {
      CellsGrow(gs, start, i + 1, end);
      CellsNext(gs, start, i);
    }
  }

  lemma ConcatFirst(line: Line, lines: seq<Line>)
    ensures Concat([line] + lines) == line + Concat(lines)
  {
    assert ([line] + lines)[1..] == lines;
  }

  lemma StandingSplits(gs: Line, start: nat, end: nat, width: nat)
    requires Fits(gs, start, end, width)
    ensures gs[start..end] + Standing(gs, width)[end..] == Standing(gs, width)[start..]
  {
    FittingGraphemes(gs, start, end, width);
    assert Standing(gs, width)[start..end] == gs[start..end];
  }

  lemma {:induction false} WrapFromKeeps(gs: Line, start: nat, width: nat)
    requires start <= |gs|
    ensures Concat(WrapFrom(gs, start, width)) == Standing(gs, width)[start..]
    decreases |gs| - start
  {
    if start < |gs| {
      ScanStops(gs, start, width);
      if ScanLine(gs, start, width).end == start {
        WrapFromKeeps(gs, start + 1, width);
        ConcatFirst([REPLACEMENT], WrapFrom(gs, start + 1, width));
      } else {
        var cut := Cut(gs, start, width);
        CutIsGood(gs, start, width);
        WrapFromKeeps(gs, cut, width);
        ConcatFirst(gs[start..cut], WrapFrom(gs, cut, width));
        StandingSplits(gs, start, cut, width);
      }
    }
  }

  /** The lines of a paragraph put together are the paragraph, with one replacement for each
      grapheme wider than a line; so they give it back exactly when every grapheme fits. */
  lemma ParagraphIsKept(gs: Line, width: nat)
    requires width >= 1
    ensures Concat(WrapParagraph(gs, width)) == Standing(gs, width)
    ensures Concat(WrapParagraph(gs, width)) == gs <==> forall g :: g in gs ==> g.width <= width
  {
    WrapFromKeeps(gs, 0, width);
    if gs == [] {
      var lines: seq<Line> := [[]];
      assert lines[1..] == [];
    }
    if Standing(gs, width) == gs {
      forall g | g in gs ensures g.width <= width {
        var i :| 0 <= i < |gs| && gs[i] == g;
        assert Standing(gs, width)[i] == g;
      }
    }
  }

  // ---------------------------------------------------------------- whole texts

  function Flatten(groups: seq<seq<Line>>): seq<Line> {
    if groups == [] then [] else Flatten(groups[..|groups| - 1]) + groups[|groups| - 1]
  }

  /** The lines of one paragraph; an empty one has an empty line. */
  ghost predicate ParagraphLines(gs: Line, lines: seq<Line>, width: nat) {
    if gs == [] then lines == [[]] else Wrapping(gs, 0, lines, width)
  }

  /** One group of lines for each paragraph, in order. */
  ghost predicate Grouped(text: seq<Line>, groups: seq<seq<Line>>, width: nat) {
    |groups| == |text| && forall p :: 0 <= p < |text| ==> ParagraphLines(text[p], groups[p], Max(1, width))
  }

  /** The lines show every paragraph of the text, one after the other, each by the rules above. */
  ghost predicate ShowsText(lines: seq<Line>, text: seq<Line>, width: nat) {
    exists groups :: Grouped(text, groups, width) && Flatten(groups) == lines
  }

  lemma ParagraphLinesAre(gs: Line, lines: seq<Line>, width: nat)
    requires width >= 1
    ensures ParagraphLines(gs, lines, width) <==> lines == WrapParagraph(gs, width)
    ensures ParagraphLines(gs, lines, width) ==> lines != []
  {
    WrapIsTheOnlyWrapping(gs, 0, lines, width);
  }

  lemma {:induction false} GroupsAre(text: seq<Line>, groups: seq<seq<Line>>, width: nat)
    requires Grouped(text, groups, width)
    ensures Flatten(groups) == WrapText(text, width)
  {
    if text != [] {
      var n := |text| - 1;
      GroupsAre(text[..n], groups[..n], width);
      ParagraphLinesAre(text[n], groups[n], Max(1, width));
    }
  }

  lemma {:induction false} TextHasGroups(text: seq<Line>, width: nat) returns (groups: seq<seq<Line>>)
    ensures Grouped(text, groups, width) && Flatten(groups) == WrapText(text, width)
  {
    groups := [];
    if text != [] {
      var n := |text| - 1;
      groups := TextHasGroups(text[..n], width);
      var last := WrapParagraph(text[n], Max(1, width));
      ParagraphLinesAre(text[n], last, Max(1, width));
      assert (groups + [last])[..n] == groups;
      groups := groups + [last];
    }
  }

  /** Exactly one sequence of lines shows the text, and it is the one computed. */
  lemma WrapTextIsTheOnlyText(text: seq<Line>, lines: seq<Line>, width: nat)
    ensures ShowsText(lines, text, width) <==> lines == WrapText(text, width)
  {
    if ShowsText(lines, text, width) {
      var groups :| Grouped(text, groups, width) && Flatten(groups) == lines;
      GroupsAre(text, groups, width);
    }
    var groups := TextHasGroups(text, width);
  }

  /** What a reader sees of a text, paragraph after paragraph. */
  function Seen(text: seq<Line>, width: nat): Line {
    if text == [] then [] else Seen(text[..|text| - 1], width) + Standing(text[|text| - 1], width)
  }

  lemma {:induction false} ConcatTwo(a: seq<Line>, b: seq<Line>)
    ensures Concat(a + b) == Concat(a) + Concat(b)
  {
    if a == [] {
      assert a + b == b;
    } else {
      assert (a + b)[1..] == a[1..] + b;
      ConcatTwo(a[1..], b);
    }
  }

  /** Nothing of any paragraph is left out, repeated or moved. */
  lemma {:induction false} TextIsKept(text: seq<Line>, width: nat)
    ensures Concat(WrapText(text, width)) == Seen(text, Max(1, width))
  {
    if text != [] {
      var n := |text| - 1;
      TextIsKept(text[..n], width);
      ParagraphIsKept(text[n], Max(1, width));
      ConcatTwo(WrapText(text[..n], width), WrapParagraph(text[n], Max(1, width)));
    }
  }

  // ---------------------------------------------------------------- truncation

  /** The text itself when it fits, else its longest prefix that leaves a cell for the ellipsis. */
  ghost predicate Truncates(gs: Line, width: nat, r: Line) {
    if Cells(gs) <= width then r == gs
    else if width == 0 then r == []
    else exists n: nat :: TruncatesAt(gs, width - 1, n) && r == gs[..n] + [ELLIPSIS]
  }

  ghost predicate TruncatesAt(gs: Line, room: nat, n: nat) {
    n < |gs| && Fits(gs, 0, n, room) && !Fits(gs, 0, n + 1, room)
  }

  /** How many graphemes from `i` on fit in `room` cells. */
  function Within(gs: Line, i: nat, used: nat, room: nat): (n: nat)
    requires i <= |gs|
    ensures i <= n <= |gs|
    decreases |gs| - i
  {
    if i < |gs| && used + gs[i].width <= room then Within(gs, i + 1, used + gs[i].width, room) else i
  }

  function Truncation(gs: Line, width: nat): Line {
    if Cells(gs) <= width then gs
    else if width == 0 then []
    else gs[..Within(gs, 0, 0, width - 1)] + [ELLIPSIS]
  }

  method TruncateCells(gs: Line, width: nat) returns (r: Line)
    ensures r == Truncation(gs, width)
  {
    if Cells(gs) <= width { return gs; }
    if width == 0 { return []; }
    var value: Line, used: nat := [], 0;
    var i := 0;
    while i < |gs| && used + gs[i].width <= width - 1
      invariant i <= |gs| && value == gs[..i]
      invariant Within(gs, i, used, width - 1) == Within(gs, 0, 0, width - 1)
    {
      value := value + [gs[i]];
      used := used + gs[i].width;
      i := i + 1;
    }
    r := value + [ELLIPSIS];
  }

  lemma {:induction false} WithinSpec(gs: Line, i: nat, used: nat, room: nat)
    requires Fits(gs, 0, i, room) && used == Cells(gs[..i])
    ensures var n := Within(gs, i, used, room); Fits(gs, 0, n, room) && (n < |gs| ==> !Fits(gs, 0, n + 1, room))
    decreases |gs| - i
  {
    assert gs[0..i] == gs[..i];
    if i < |gs| {
      CellsNext(gs, 0, i);
      if used + gs[i].width <= room {
        assert gs[0..i + 1] == gs[..i + 1];
        WithinSpec(gs, i + 1, used + gs[i].width, room);
      }
    }
  }

  /** A truncated text fits, and is what the rule says. */
  lemma TruncationFits(gs: Line, width: nat)
    ensures Truncates(gs, width, Truncation(gs, width)) && Cells(Truncation(gs, width)) <= width
  {
    if Cells(gs) > width > 0 {
      assert gs[0..0] == [] && gs[..0] == [] && gs[0..|gs|] == gs;
      WithinSpec(gs, 0, 0, width - 1);
      var n := Within(gs, 0, 0, width - 1);
      assert TruncatesAt(gs, width - 1, n);
      var r := Truncation(gs, width);
      assert r[..|r| - 1] == gs[..n] == gs[0..n];
    }
  }

  lemma TruncationIsUnique(gs: Line, width: nat, p: Line, q: Line)
    requires Truncates(gs, width, p) && Truncates(gs, width, q)
    ensures p == q
  {
    if Cells(gs) > width > 0 {
      var m: nat :| TruncatesAt(gs, width - 1, m) && p == gs[..m] + [ELLIPSIS];
      var n: nat :| TruncatesAt(gs, width - 1, n) && q == gs[..n] + [ELLIPSIS];
      if m < n { CellsGrow(gs, 0, m + 1, n); }
      if n < m { CellsGrow(gs, 0, n + 1, m); }
    }
  }
}
