/** One message's bubble: its width and its lines (apps/mutte/src/conversation_layout.rs). */
module Bubbles {
  import opened Common
  import opened Wrap

  const BLOCK_MAX_WIDTH: nat := 54
  const BLOCK_MIN_WIDTH: nat := 14
  const INSET: nat := 2
  const REFERENCE_WIDTH: nat := 9

  const BAR := Grapheme("\U{2502}", 1, false)
  const SPACE := Grapheme(" ", 1, true)

  /** A text has at least one paragraph. */
  type Text = t: seq<Line> | t != [] witness [[]]

  datatype Quote = Quote(author: Text, body: Option<Text>)

  datatype File = File(metadata: Text, location: Line)

  /** What a message shows, as texts ready for the screen. `textEmpty` and `generatedLabel`
      describe the message's own text; `body` is that text or a poll's summary. `date` is the local
      calendar date of the instant `timestamp`; where clocks change it is no function of it. */
  datatype Item = Item(
    id: nat, mine: bool, author: string, timestamp: int, date: int, threadRoot: Option<nat>,
    unread: bool, dateLabel: Line, byline: Text, reference: Line, quote: Option<Quote>, body: Text,
    textEmpty: bool, generatedLabel: bool, file: Option<File>, reactions: seq<Line>,
    replyLabel: Option<Text>, caption: Line)

  datatype Options = Options(references: bool, explicitOwnership: bool)

  // ---------------------------------------------------------------- width

  function Measure(text: seq<Line>): nat {
    if text == [] then 0 else Max(Measure(text[..|text| - 1]), Cells(text[|text| - 1]))
  }

  function TotalCells(chips: seq<Line>): nat {
    if chips == [] then 0 else TotalCells(chips[..|chips| - 1]) + Cells(chips[|chips| - 1])
  }

  function Cap(lane: nat): nat {
    if lane < 60 then Max(1, lane - 2) else Min(lane * 3 / 4, BLOCK_MAX_WIDTH)
  }

  function QuoteWidth(q: Option<Quote>): nat {
    match q
    case None => 0
    case Some(Quote(author, None)) => Measure(author) + 2
    case Some(Quote(author, Some(body))) => Max(Measure(body), Measure(author)) + 2
  }

  function Measured(m: Item, showAuthor: bool, cap: nat): nat {
    var footer := (match m.replyLabel case Some(l) => Measure(l) case None => Measure(m.body)) + 2 + Cells(m.caption);
    var widest :=
      Max(Measure(m.body),
      Max(QuoteWidth(m.quote),
      Max(if m.file.Some? then Measure(m.file.value.metadata) else 0,
      Max(TotalCells(m.reactions) + Max(0, |m.reactions| - 1) * 2,
      Max(Cells(m.caption),
      Max(if m.replyLabel.Some? then Measure(m.replyLabel.value) else 0,
          if showAuthor then Measure(m.byline) else 0))))));
    if m.file.None? && footer <= Max(0, cap - INSET * 2) then Max(widest, footer) else widest
  }

  /** A bubble's place in the lane. */
  datatype Frame = Frame(x: nat, width: nat, inset: nat, content: nat)

  function FrameOf(m: Item, lane: nat, showAuthor: bool): Frame {
    var width: nat := Min(Max(Measured(m, showAuthor, Cap(lane)) + INSET * 2, BLOCK_MIN_WIDTH), Cap(lane));
    var inset: nat := Min(INSET, Max(0, width - 1) / 2);
    Frame(if m.mine then Max(0, lane - width) else 0, width, inset, Max(1, width - inset * 2))
  }

  /** A bubble never leaves its lane, and its content never leaves the bubble. */
  lemma FrameStaysInLane(m: Item, lane: nat, showAuthor: bool)
    requires lane >= 1
    ensures
      var f := FrameOf(m, lane, showAuthor);
      && 1 <= f.width && f.x + f.width <= lane && (m.mine ==> f.x + f.width == lane) && (!m.mine ==> f.x == 0)
      && 1 <= f.content == f.width - 2 * f.inset
      && (lane >= 15 ==> f.content >= REFERENCE_WIDTH) && (lane >= 9 ==> f.content >= 3)
  {
  }

  /** Fifteen cells is the narrowest lane in which every bubble has room for a reference;
      nine the narrowest in which every bubble has room for a quotation bar and a letter. */
  lemma NarrowestLanes(lane: nat)
    requires lane >= 1
    ensures lane >= 15 <==> forall m, showAuthor :: FrameOf(m, lane, showAuthor).content >= REFERENCE_WIDTH
    ensures lane >= 9 <==> forall m, showAuthor :: FrameOf(m, lane, showAuthor).content >= 3
  {
    forall m, showAuthor | lane >= 9
      ensures FrameOf(m, lane, showAuthor).content >= 3
      ensures lane >= 15 ==> FrameOf(m, lane, showAuthor).content >= REFERENCE_WIDTH
    {
      FrameStaysInLane(m, lane, showAuthor);
    }
    var m := Item(0, true, "", 0, 0, None, false, [], [[]], [], None, [[]], true, false, None, [], None, []);
    var f := FrameOf(m, lane, false);
    assert lane < 15 ==> f.content < REFERENCE_WIDTH;
    assert lane < 9 ==> f.content < 3;
  }

  // ---------------------------------------------------------------- quotes

  function Barred(lines: seq<Line>): (r: seq<Line>)
    ensures |r| == |lines| && forall i :: 0 <= i < |lines| ==> r[i] == [BAR, SPACE] + lines[i]
  {
    seq(|lines|, i requires 0 <= i < |lines| => [BAR, SPACE] + lines[i])
  }

  /** At most two lines of the quoted text, the second marked when more follow. */
  function Excerpt(body: Text, width: nat): seq<Line> {
    var lines := WrapText(body, width);
    if |lines| > 2 then [lines[0], Truncation(lines[1] + [ELLIPSIS], width)] else lines
  }

  function QuoteLines(q: Quote, content: nat): seq<Line> {
    var width: nat := Max(1, content - 2);
    Barred(WrapText(q.author, width)) + Barred(if q.body.Some? then Excerpt(q.body.value, width) else [])
  }

  method LayExcerpt(body: Text, width: nat) returns (lines: seq<Line>)
    ensures lines == Excerpt(body, width)
  {
    lines := WrapCells(body, width);
    if |lines| > 2 {
      var second := TruncateCells(lines[1] + [ELLIPSIS], width);
      lines := [lines[0], second];
    }
  }

  ghost predicate AllFit(lines: seq<Line>, room: nat) {
    forall i :: 0 <= i < |lines| ==> Cells(lines[i]) <= room
  }

  lemma WrapFits(text: seq<Line>, width: nat)
    requires width >= 1
    ensures AllFit(WrapText(text, width), width)
  {
    WrapTextFits(text, width);
    var lines := WrapText(text, width);
    assert forall i :: 0 <= i < |lines| ==> lines[i] in lines;
  }

  lemma BarredFits(lines: seq<Line>, width: nat)
    requires AllFit(lines, width)
    ensures AllFit(Barred(lines), width + 2)
  {
    forall i | 0 <= i < |lines| ensures Cells(Barred(lines)[i]) <= width + 2 {
      CellsConcat([BAR, SPACE], lines[i]);
      CellsPair(BAR, SPACE);
    }
  }

  lemma ExcerptFits(body: Text, width: nat)
    requires width >= 1
    ensures AllFit(Excerpt(body, width), width)
  {
    WrapFits(body, width);
    var lines := WrapText(body, width);
    if |lines| > 2 { TruncationFits(lines[1] + [ELLIPSIS], width); }
  }

  lemma QuoteFits(q: Quote, content: nat)
    requires content >= 3
    ensures AllFit(QuoteLines(q, content), content)
  {
    var width: nat := content - 2;
    WrapFits(q.author, width);
    BarredFits(WrapText(q.author, width), width);
    if q.body.Some? { ExcerptFits(q.body.value, width); }
    BarredFits(if q.body.Some? then Excerpt(q.body.value, width) else [], width);
  }

  // ---------------------------------------------------------------- reactions

  /** Reactions are packed into lines, two cells apart. */
  datatype Packing = Packing(full: seq<seq<Line>>, current: seq<Line>, used: nat)

  function PackNext(p: Packing, chip: Line, width: nat): Packing {
    var q := if p.current != [] && p.used + 2 + Cells(chip) > width
             then Packing(p.full + [p.current], [], 0) else p;
    Packing(q.full, q.current + [Truncation(chip, Max(1, width))],
            q.used + (if q.current != [] then 2 else 0) + Min(Cells(chip), width))
  }

  function Pack(chips: seq<Line>, width: nat): Packing {
    if chips == [] then Packing([], [], 0)
    else PackNext(Pack(chips[..|chips| - 1], width), chips[|chips| - 1], width)
  }

  function Groups(chips: seq<Line>, width: nat): seq<seq<Line>> {
    var p := Pack(chips, width);
    if p.current != [] then p.full + [p.current] else p.full
  }

  function Spaced(chips: seq<Line>): Line {
    if chips == [] then []
    else if |chips| == 1 then chips[0]
    else Spaced(chips[..|chips| - 1]) + [SPACE, SPACE] + chips[|chips| - 1]
  }

  function ReactionLines(chips: seq<Line>, width: nat): (r: seq<Line>)
    ensures |r| == |Groups(chips, width)|
    ensures forall i :: 0 <= i < |r| ==> r[i] == Spaced(Groups(chips, width)[i])
  {
    var gs := Groups(chips, width);
    seq(|gs|, i requires 0 <= i < |gs| => Spaced(gs[i]))
  }

  ghost predicate SpacedOut(lines: seq<Line>, groups: seq<seq<Line>>) {
    |lines| == |groups| && forall j :: 0 <= j < |lines| ==> lines[j] == Spaced(groups[j])
  }

  lemma SpaceOneMore(lines: seq<Line>, groups: seq<seq<Line>>, group: seq<Line>)
    requires SpacedOut(lines, groups)
    ensures SpacedOut(lines + [Spaced(group)], groups + [group])
  {
  }

  lemma PackedNext(chips: seq<Line>, width: nat, i: nat)
    requires i < |chips|
    ensures Pack(chips[..i + 1], width) == PackNext(Pack(chips[..i], width), chips[i], width)
  {
    assert chips[..i + 1][..i] == chips[..i];
  }

  /** The loop over a message's reactions. */
  method LayReactions(chips: seq<Line>, width: nat) returns (lines: seq<Line>)
    ensures lines == ReactionLines(chips, width)
  {
    var full: seq<seq<Line>>, current: seq<Line>, used: nat := [], [], 0;
    lines := [];
    for i := 0 to |chips|
      invariant Packing(full, current, used) == Pack(chips[..i], width)
      invariant SpacedOut(lines, full)
    {
      PackedNext(chips, width, i);
      var chip := chips[i];
      if current != [] && used + 2 + Cells(chip) > width {
        SpaceOneMore(lines, full, current);
        lines, full := lines + [Spaced(current)], full + [current];
        current, used := [], 0;
      }
      if current != [] { used := used + 2; }
      var short := TruncateCells(chip, Max(1, width));
      current := current + [short];
      used := used + Min(Cells(chip), width);
    }
    assert chips[..|chips|] == chips;
    if current != [] {
      SpaceOneMore(lines, full, current);
      lines := lines + [Spaced(current)];
    }
  }

  lemma SpacedNext(chips: seq<Line>, chip: Line)
    ensures Cells(Spaced(chips + [chip])) == Cells(Spaced(chips)) + (if chips != [] then 2 else 0) + Cells(chip)
  {
    var more := chips + [chip];
    assert more[..|more| - 1] == chips;
    if chips != [] {
      CellsConcat(Spaced(chips) + [SPACE, SPACE], chip);
      CellsConcat(Spaced(chips), [SPACE, SPACE]);
      CellsPair(SPACE, SPACE);
    }
  }

  ghost predicate PackedWithin(p: Packing, width: nat) {
    && Cells(Spaced(p.current)) <= p.used <= width && (p.current == [] ==> p.used == 0)
    && forall i :: 0 <= i < |p.full| ==> Cells(Spaced(p.full[i])) <= width
  }

  lemma PackNextFits(p: Packing, chip: Line, width: nat)
    requires width >= 1 && PackedWithin(p, width)
    ensures PackedWithin(PackNext(p, chip, width), width)
  {
    var current := if p.current != [] && p.used + 2 + Cells(chip) > width then [] else p.current;
    TruncationFits(chip, width);
    SpacedNext(current, Truncation(chip, width));
  }

  lemma {:induction false} PackFits(chips: seq<Line>, width: nat)
    requires width >= 1
    ensures PackedWithin(Pack(chips, width), width)
  {
    if chips != [] {
      PackFits(chips[..|chips| - 1], width);
      PackNextFits(Pack(chips[..|chips| - 1], width), chips[|chips| - 1], width);
    }
  }

  lemma ReactionsFit(chips: seq<Line>, width: nat)
    requires width >= 1
    ensures AllFit(ReactionLines(chips, width), width)
  {
    PackFits(chips, width);
  }

  function Shortened(chips: seq<Line>, width: nat): (r: seq<Line>)
    ensures |r| == |chips| && forall i :: 0 <= i < |chips| ==> r[i] == Truncation(chips[i], Max(1, width))
  {
    seq(|chips|, i requires 0 <= i < |chips| => Truncation(chips[i], Max(1, width)))
  }

  function Packed(p: Packing): seq<Line> { Flatten(p.full) + p.current }

  lemma PackNextKeeps(p: Packing, chip: Line, width: nat)
    ensures Packed(PackNext(p, chip, width)) == Packed(p) + [Truncation(chip, Max(1, width))]
  {
    FlattenNext(p.full, p.current);
  }

  lemma {:induction false} PackKeeps(chips: seq<Line>, width: nat)
    ensures Packed(Pack(chips, width)) == Shortened(chips, width)
  {
    if chips != [] {
      var n := |chips| - 1;
      PackKeeps(chips[..n], width);
      PackNextKeeps(Pack(chips[..n], width), chips[n], width);
      ShortenedNext(chips, width);
    }
  }

  lemma FlattenNext(groups: seq<seq<Line>>, group: seq<Line>)
    ensures Flatten(groups + [group]) == Flatten(groups) + group
  {
    assert (groups + [group])[..|groups|] == groups;
  }

  lemma ShortenedNext(chips: seq<Line>, width: nat)
    requires chips != []
    ensures var n := |chips| - 1;
            Shortened(chips, width) == Shortened(chips[..n], width) + [Truncation(chips[n], Max(1, width))]
  {
  }

  /** Every reaction is shown once, in order, whole unless it alone is wider than a line. */
  lemma ReactionsAreKept(chips: seq<Line>, width: nat)
    ensures Flatten(Groups(chips, width)) == Shortened(chips, width)
    ensures forall i :: 0 <= i < |chips| && Cells(chips[i]) <= width ==> Shortened(chips, width)[i] == chips[i]
  {
    PackKeeps(chips, width);
    FlattenNext(Pack(chips, width).full, Pack(chips, width).current);
  }

  // ---------------------------------------------------------------- all lines

  function BodyShown(m: Item): bool {
    (!m.textEmpty && !m.generatedLabel) || m.file.None?
  }

  function Heading(m: Item, content: nat, showAuthor: bool, references: bool): seq<Line> {
    (if showAuthor then WrapText(m.byline, content) else [])
    + (if references then [m.reference] else [])
    + (if m.quote.Some? then QuoteLines(m.quote.value, content) else [])
  }

  function Contents(m: Item, content: nat): seq<Line> {
    (if BodyShown(m) then WrapText(m.body, content) else [])
    + (if m.file.Some? then WrapText(m.file.value.metadata + [m.file.value.location], content) else [])
  }

  function Footer(m: Item, content: nat): seq<Line> {
    ReactionLines(m.reactions, content)
    + (if m.replyLabel.Some? then WrapText(m.replyLabel.value, content) else [])
  }

  /** Everything above the caption. */
  function ContentLines(m: Item, content: nat, showAuthor: bool, references: bool): seq<Line> {
    Heading(m, content, showAuthor, references) + Contents(m, content) + Footer(m, content)
  }

  function Blank(n: nat): (r: Line)
    ensures |r| == n
  {
    seq(n, _ => SPACE)
  }

  /** The caption shares the last line when there is room, else has its own, else is wrapped. */
  function WithCaption(lines: seq<Line>, caption: Line, content: nat): (r: seq<Line>)
    requires lines != []
    ensures r != []
  {
    var last := lines[|lines| - 1];
    if Cells(last) + 2 + Cells(caption) <= content then
      lines[..|lines| - 1] + [last + Blank(content - Cells(last) - Cells(caption)) + caption]
    else if Cells(caption) <= content then lines + [caption]
    else lines + WrapText([caption], content)
  }

  lemma WrapNotEmpty(text: seq<Line>, width: nat)
    requires text != []
    ensures WrapText(text, width) != []
  {
    var gs := text[|text| - 1];
    assert WrapParagraph(gs, Max(1, width)) != [];
  }

  lemma ContentNotEmpty(m: Item, content: nat, showAuthor: bool, references: bool)
    ensures Contents(m, content) != [] && ContentLines(m, content, showAuthor, references) != []
  {
    if m.file.Some? {
      WrapNotEmpty(m.file.value.metadata + [m.file.value.location], content);
    } else {
      WrapNotEmpty(m.body, content);
    }
  }

  function Lines(m: Item, content: nat, showAuthor: bool, references: bool): (r: seq<Line>)
    ensures r != []
  {
    ContentNotEmpty(m, content, showAuthor, references);
    WithCaption(ContentLines(m, content, showAuthor, references), m.caption, content)
  }

  lemma {:induction false} BlankCells(n: nat)
    ensures Cells(Blank(n)) == n
  {
    if n > 0 {
      assert Blank(n)[..n - 1] == Blank(n - 1);
      BlankCells(n - 1);
    }
  }

  lemma CaptionFits(lines: seq<Line>, caption: Line, content: nat)
    requires content >= 1 && lines != [] && AllFit(lines, content)
    ensures AllFit(WithCaption(lines, caption, content), content)
  {
    var last := lines[|lines| - 1];
    if Cells(last) + 2 + Cells(caption) <= content {
      var gap := Blank(content - Cells(last) - Cells(caption));
      BlankCells(|gap|);
      CellsConcat(last + gap, caption);
      CellsConcat(last, gap);
    } else if Cells(caption) > content {
      WrapFits([caption], content);
    }
  }

  lemma HeadingFits(m: Item, content: nat, showAuthor: bool, references: bool)
    requires content >= 1
    requires references ==> Cells(m.reference) <= content
    requires m.quote.Some? ==> content >= 3
    ensures AllFit(Heading(m, content, showAuthor, references), content)
  {
    WrapFits(m.byline, content);
    if m.quote.Some? { QuoteFits(m.quote.value, content); }
  }

  lemma ContentsFit(m: Item, content: nat)
    requires content >= 1
    ensures AllFit(Contents(m, content), content)
  {
    WrapFits(m.body, content);
    if m.file.Some? { WrapFits(m.file.value.metadata + [m.file.value.location], content); }
  }

  lemma FooterFits(m: Item, content: nat)
    requires content >= 1
    ensures AllFit(Footer(m, content), content)
  {
    ReactionsFit(m.reactions, content);
    if m.replyLabel.Some? { WrapFits(m.replyLabel.value, content); }
  }

  lemma ThreeFit(a: seq<Line>, b: seq<Line>, c: seq<Line>, room: nat)
    requires AllFit(a, room) && AllFit(b, room) && AllFit(c, room)
    ensures AllFit(a + b + c, room)
  {
  }

  lemma ContentFits(m: Item, content: nat, showAuthor: bool, references: bool)
    requires content >= 1
    requires references ==> Cells(m.reference) <= content
    requires m.quote.Some? ==> content >= 3
    ensures AllFit(ContentLines(m, content, showAuthor, references), content)
  {
    HeadingFits(m, content, showAuthor, references);
    ContentsFit(m, content);
    FooterFits(m, content);
    ThreeFit(Heading(m, content, showAuthor, references), Contents(m, content), Footer(m, content), content);
  }

  /** Every line of a bubble fits between its insets, in any lane wide enough for what it
      shows. */
  lemma BubbleFits(m: Item, lane: nat, showAuthor: bool, references: bool)
    requires lane >= 1 && Cells(m.reference) == REFERENCE_WIDTH
    requires references ==> lane >= 15
    requires m.quote.Some? ==> lane >= 9
    ensures
      var f := FrameOf(m, lane, showAuthor);
      AllFit(Lines(m, f.content, showAuthor, references), f.width - 2 * f.inset)
  {
    FrameStaysInLane(m, lane, showAuthor);
    var f := FrameOf(m, lane, showAuthor);
    ContentNotEmpty(m, f.content, showAuthor, references);
    ContentFits(m, f.content, showAuthor, references);
    CaptionFits(ContentLines(m, f.content, showAuthor, references), m.caption, f.content);
  }
}
