/** What a bubble shows of its message, part by part
    (apps/mutte/src/conversation_layout.rs). */
module BubbleParts {
  import opened Common
  import opened Wrap
  import opened Bubbles
  import opened Transcript
  import opened TranscriptFacts

  datatype Parts = Parts(
    byline: seq<Line>, reference: seq<Line>, quoteAuthor: seq<Line>, quoteBody: seq<Line>, body: seq<Line>,
    file: seq<Line>, reactions: seq<Line>, reply: seq<Line>)

  function Stacked(p: Parts): seq<Line> {
    p.byline + p.reference + (p.quoteAuthor + p.quoteBody) + (p.body + p.file) + (p.reactions + p.reply)
  }

  ghost predicate Bars(lines: seq<Line>, inner: seq<Line>) {
    |lines| == |inner| && forall i :: 0 <= i < |lines| ==> lines[i] == [BAR, SPACE] + inner[i]
  }

  ghost predicate ShowsBarred(lines: seq<Line>, text: seq<Line>, width: nat) {
    exists inner :: ShowsText(inner, text, width) && Bars(lines, inner)
  }

  /** The first two lines of the text; the second ends in an ellipsis when there are more. */
  ghost predicate FirstTwo(lines: seq<Line>, whole: seq<Line>, width: nat) {
    if |whole| <= 2 then lines == whole
    else |lines| == 2 && lines[0] == whole[0] && Truncates(whole[1] + [ELLIPSIS], width, lines[1])
  }

  ghost predicate ShowsExcerpt(lines: seq<Line>, text: seq<Line>, width: nat) {
    exists whole, inner :: ShowsText(whole, text, width) && FirstTwo(inner, whole, width) && Bars(lines, inner)
  }

  /** The chips stand in a line two spaces apart. */
  ghost predicate Apart(line: Line, chips: seq<Line>)
    decreases |chips|
  {
    if |chips| <= 1 then line == if chips == [] then [] else chips[0]
    else exists rest :: line == chips[0] + [SPACE, SPACE] + rest && Apart(rest, chips[1..])
  }

  /** Every chip once, in order, whole unless it is wider than a line. */
  ghost predicate ShowsChips(lines: seq<Line>, chips: seq<Line>, width: nat) {
    exists groups, shown ::
      && |groups| == |lines| && (forall i :: 0 <= i < |lines| ==> Apart(lines[i], groups[i]))
      && Flatten(groups) == shown && |shown| == |chips|
      && forall i :: 0 <= i < |chips| ==> Truncates(chips[i], Max(1, width), shown[i])
  }

  ghost predicate ShowsIf(shown: bool, lines: seq<Line>, text: seq<Line>, width: nat) {
    if shown then ShowsText(lines, text, width) else lines == []
  }

  ghost predicate ShowsQuote(p: Parts, q: Option<Quote>, content: nat) {
    var room: nat := Max(1, content - 2);
    match q
    case None => p.quoteAuthor == p.quoteBody == []
    case Some(quote) =>
      && ShowsBarred(p.quoteAuthor, quote.author, room)
      && match quote.body
         case None => p.quoteBody == []
         case Some(text) => ShowsExcerpt(p.quoteBody, text, room)
  }

  /** A file's own label is not repeated as text; a message without a file always shows its text. */
  ghost predicate GoodParts(p: Parts, m: Item, content: nat, showAuthor: bool, references: bool) {
    && ShowsIf(showAuthor, p.byline, m.byline, content)
    && p.reference == (if references then [m.reference] else [])
    && ShowsQuote(p, m.quote, content)
    && ShowsIf(m.file.None? || !(m.textEmpty || m.generatedLabel), p.body, m.body, content)
    && (match m.file
        case None => p.file == []
        case Some(file) => ShowsText(p.file, file.metadata + [file.location], content))
    && ShowsChips(p.reactions, m.reactions, content)
    && (match m.replyLabel
        case None => p.reply == []
        case Some(text) => ShowsText(p.reply, text, content))
  }

  /** The caption ends the last line at its right edge when two cells stay free before it; else it
      stands below. */
  ghost predicate Captioned(lines: seq<Line>, above: seq<Line>, caption: Line, content: nat) {
    above != []
    && var n := |above| - 1;
       if Cells(above[n]) + 2 + Cells(caption) <= content then
         && |lines| == n + 1 && lines[..n] == above[..n] && Cells(lines[n]) == content
         && exists gap: Line :: lines[n] == above[n] + gap + caption && forall g :: g in gap ==> g == SPACE
       else
         exists more :: lines == above + more
                     && if Cells(caption) <= content then more == [caption] else ShowsText(more, [caption], content)
  }

  lemma TextShown(text: seq<Line>, width: nat)
    ensures ShowsText(WrapText(text, width), text, width)
  {
    WrapTextIsTheOnlyText(text, WrapText(text, width), width);
  }

  lemma {:induction false} SpacedFront(chips: seq<Line>)
    requires |chips| > 1
    ensures Spaced(chips) == chips[0] + [SPACE, SPACE] + Spaced(chips[1..])
  {
    var n := |chips| - 1;
    var front, rest := chips[..n], chips[1..];
    assert rest[|rest| - 1] == chips[n];
    if n == 1 {
      assert front == [chips[0]] && rest == [chips[1]];
    } else {
      SpacedFront(front);
      assert front[1..] == rest[..|rest| - 1];
      var a, b := chips[0] + [SPACE, SPACE], Spaced(rest[..|rest| - 1]);
      assert a + b + [SPACE, SPACE] + chips[n] == a + (b + [SPACE, SPACE] + chips[n]);
    }
  }

  lemma {:induction false} SpacedIsApart(chips: seq<Line>)
    ensures Apart(Spaced(chips), chips)
    decreases |chips|
  {
    if |chips| > 1 {
      SpacedFront(chips);
      SpacedIsApart(chips[1..]);
    }
  }

  lemma ChipsShown(chips: seq<Line>, width: nat)
    ensures ShowsChips(ReactionLines(chips, width), chips, width)
  {
    var groups, shown := Groups(chips, width), Shortened(chips, width);
    ReactionsAreKept(chips, width);
    forall i | 0 <= i < |groups| ensures Apart(Spaced(groups[i]), groups[i]) { SpacedIsApart(groups[i]); }
    forall i | 0 <= i < |chips| ensures Truncates(chips[i], Max(1, width), shown[i]) {
      TruncationFits(chips[i], Max(1, width));
    }
  }

  lemma ExcerptShown(body: Text, width: nat)
    ensures ShowsExcerpt(Barred(Excerpt(body, width)), body, width)
  {
    var whole := WrapText(body, width);
    TextShown(body, width);
    if |whole| > 2 { TruncationFits(whole[1] + [ELLIPSIS], width); }
    assert FirstTwo(Excerpt(body, width), whole, width);
    assert Bars(Barred(Excerpt(body, width)), Excerpt(body, width));
  }

  lemma QuoteShown(p: Parts, q: Quote, content: nat)
    requires
      var room: nat := Max(1, content - 2);
      && p.quoteAuthor == Barred(WrapText(q.author, room))
      && p.quoteBody == if q.body.Some? then Barred(Excerpt(q.body.value, room)) else []
    ensures ShowsQuote(p, Some(q), content)
  {
    var room: nat := Max(1, content - 2);
    TextShown(q.author, room);
    assert Bars(p.quoteAuthor, WrapText(q.author, room));
    if q.body.Some? { ExcerptShown(q.body.value, room); }
  }

  lemma CaptionShown(above: seq<Line>, caption: Line, content: nat)
    requires above != []
    ensures Captioned(WithCaption(above, caption, content), above, caption, content)
  {
    var last := above[|above| - 1];
    if Cells(last) + 2 + Cells(caption) <= content {
      var gap := Blank(content - Cells(last) - Cells(caption));
      BlankCells(|gap|);
      CellsConcat(last + gap, caption);
      CellsConcat(last, gap);
      assert WithCaption(above, caption, content)[|above| - 1] == last + gap + caption;
    } else if Cells(caption) > content {
      TextShown([caption], content);
      assert WithCaption(above, caption, content) == above + WrapText([caption], content);
    }
  }

  function PartsOf(m: Item, content: nat, showAuthor: bool, references: bool): Parts {
    var room: nat := Max(1, content - 2);
    Parts(
      if showAuthor then WrapText(m.byline, content) else [],
      if references then [m.reference] else [],
      if m.quote.Some? then Barred(WrapText(m.quote.value.author, room)) else [],
      if m.quote.Some? && m.quote.value.body.Some? then Barred(Excerpt(m.quote.value.body.value, room)) else [],
      if BodyShown(m) then WrapText(m.body, content) else [],
      if m.file.Some? then WrapText(m.file.value.metadata + [m.file.value.location], content) else [],
      ReactionLines(m.reactions, content),
      if m.replyLabel.Some? then WrapText(m.replyLabel.value, content) else [])
  }

  lemma PartsAreGood(m: Item, content: nat, showAuthor: bool, references: bool)
    ensures GoodParts(PartsOf(m, content, showAuthor, references), m, content, showAuthor, references)
  {
    TextShown(m.byline, content);
    TextShown(m.body, content);
    if m.quote.Some? { QuoteShown(PartsOf(m, content, showAuthor, references), m.quote.value, content); }
    if m.file.Some? { TextShown(m.file.value.metadata + [m.file.value.location], content); }
    ChipsShown(m.reactions, content);
    if m.replyLabel.Some? { TextShown(m.replyLabel.value, content); }
  }

  lemma PartsAreStacked(m: Item, content: nat, showAuthor: bool, references: bool)
    ensures Stacked(PartsOf(m, content, showAuthor, references)) == ContentLines(m, content, showAuthor, references)
  {
    var p := PartsOf(m, content, showAuthor, references);
    assert Barred([]) == [];
    assert Heading(m, content, showAuthor, references) == p.byline + p.reference + (p.quoteAuthor + p.quoteBody);
    assert Contents(m, content) == p.body + p.file;
  }

  /** The lines between the edges. */
  function Inner(rows: seq<Row>): (lines: seq<Line>)
    requires |rows| >= 2
    ensures |lines| == |rows| - 2 && forall i :: 0 <= i < |lines| ==> lines[i] == rows[i + 1].line
  {
    seq(|rows| - 2, i requires 0 <= i < |rows| - 2 => rows[i + 1].line)
  }

  ghost predicate Shows(lines: seq<Line>, m: Item, content: nat, showAuthor: bool, references: bool) {
    exists p :: GoodParts(p, m, content, showAuthor, references) && Captioned(lines, Stacked(p), m.caption, content)
  }

  /** The lines of a bubble are its parts from top to bottom, each the whole of its text by the
      rules of wrapping, with the caption at the end. */
  lemma LinesShowTheMessage(m: Item, content: nat, showAuthor: bool, references: bool)
    ensures Shows(Lines(m, content, showAuthor, references), m, content, showAuthor, references)
  {
    var p := PartsOf(m, content, showAuthor, references);
    PartsAreGood(m, content, showAuthor, references);
    PartsAreStacked(m, content, showAuthor, references);
    ContentNotEmpty(m, content, showAuthor, references);
    CaptionShown(ContentLines(m, content, showAuthor, references), m.caption, content);
  }

  lemma RawAt(lines: seq<Line>, f: Frame, id: nat, i: nat)
    requires i < |lines|
    ensures |RawBubble(lines, f, id)| == |lines| + 2 && RawBubble(lines, f, id)[i + 1].line == lines[i]
  {
    var rows := BlockRows(lines, f, id);
    assert rows[i] == BlockRow(lines[i], f, id);
    assert ([EdgeRow(f, id, Top)] + rows)[i + 1] == rows[i];
  }

  lemma InnerOfBubble(lines: seq<Line>, f: Frame, id: nat, outline: bool)
    requires lines != []
    ensures var rows := Finished(RawBubble(lines, f, id), outline); |rows| == |lines| + 2 && Inner(rows) == lines
  {
    var raw := RawBubble(lines, f, id);
    RawAt(lines, f, id, 0);
    var rows := Finished(raw, outline);
    var inner := Inner(rows);
    forall i | 0 <= i < |lines| ensures inner[i] == lines[i] {
      RawAt(lines, f, id, i);
      assert rows[i + 1].line == raw[i + 1].line;
    }
  }

  lemma InnerIsLines(m: Item, f: Frame, showAuthor: bool, options: Options)
    ensures
      var rows := BubbleIn(m, f, showAuthor, options);
      |rows| >= 3 && Inner(rows) == Lines(m, f.content, showAuthor, options.references)
  {
    InnerOfBubble(Lines(m, f.content, showAuthor, options.references), f, m.id, options.explicitOwnership);
  }

  lemma BubbleShows(m: Item, f: Frame, showAuthor: bool, options: Options)
    ensures
      var rows := BubbleIn(m, f, showAuthor, options);
      |rows| >= 3 && Shows(Inner(rows), m, f.content, showAuthor, options.references)
  {
    InnerIsLines(m, f, showAuthor, options);
    LinesShowTheMessage(m, f.content, showAuthor, options.references);
  }

  /** All rows stand in the frame, the edges over its whole width, the lines within its insets. */
  ghost predicate Framed(rows: seq<Row>, f: Frame, outline: bool) {
    forall r :: 0 <= r < |rows| ==>
      && rows[r].x == f.x && rows[r].width == f.width && rows[r].outline == outline
      && rows[r].inset == if r == 0 || r == |rows| - 1 then 0 else f.inset
  }

  /** The rows, edges included, show the message in its own frame, outlined when ownership is
      spelled out. */
  ghost predicate ShowsMessage(rows: seq<Row>, m: Item, lane: nat, showAuthor: bool, options: Options) {
    && |rows| >= 3 && Framed(rows, FrameOf(m, lane, showAuthor), options.explicitOwnership)
    && Shows(Inner(rows), m, FrameOf(m, lane, showAuthor).content, showAuthor, options.references)
  }

  lemma RawIsFramed(lines: seq<Line>, f: Frame, id: nat, outline: bool)
    ensures Framed(Finished(RawBubble(lines, f, id), outline), f, outline)
  {
    var raw := RawBubble(lines, f, id);
    forall r | 0 <= r < |raw|
      ensures raw[r].x == f.x && raw[r].width == f.width
      ensures raw[r].inset == if r == 0 || r == |raw| - 1 then 0 else f.inset
    {
      if 0 < r < |raw| - 1 { assert raw[r] == BlockRow(lines[r - 1], f, id); }
    }
  }

  lemma BlockShows(visible: seq<Item>, unread: Option<nat>, lane: nat, options: Options, i: nat, rows: seq<Row>)
    requires i < |visible| && rows == BlockOf(visible, unread, lane, options, i)
    ensures ShowsMessage(rows, visible[i], lane,
                         ShowsAuthor(visible[i], StartsGroup(visible, unread, i), options), options)
  {
    var showAuthor := ShowsAuthor(visible[i], StartsGroup(visible, unread, i), options);
    var f := FrameOf(visible[i], lane, showAuthor);
    BubbleShows(visible[i], f, showAuthor, options);
    RawIsFramed(Lines(visible[i], f.content, showAuthor, options.references), f, visible[i].id,
                options.explicitOwnership);
  }

  /** Message `i` has its own block of rows. */
  lemma RowsOfMessage(visible: seq<Item>, width: nat, hint: Text, options: Options, i: nat)
    requires i < |visible|
    ensures
      var l, lane := LayoutOf(visible, width, hint, options), Max(1, width);
      && |l.messages| == |visible| && l.messages[i].id == visible[i].id
      && l.messages[i].start <= l.messages[i].end <= |l.rows|
      && l.rows[l.messages[i].start..l.messages[i].end] == BlockOf(visible, FirstUnread(visible), lane, options, i)
  {
    var lane: nat, unread := Max(1, width), FirstUnread(visible);
    var blocks := Blocks(visible, unread, lane, options);
    LayoutIsTidy(visible, unread, lane, blocks, |visible|);
    assert Ranged(LayoutTo(visible, unread, lane, blocks, |visible|), visible, blocks, i);
  }

  /** In every transcript the rows of a message show it, with a byline exactly where a group opens
      with a message of somebody else, or of anybody when ownership is spelled out. */
  lemma TranscriptShowsMessage(visible: seq<Item>, width: nat, hint: Text, options: Options, i: nat)
    requires DistinctItems(visible) && i < |visible|
    ensures
      var l, m := LayoutOf(visible, width, hint, options), visible[i];
      var showAuthor := Opens(visible, i) && (!m.mine || options.explicitOwnership);
      && |l.messages| == |visible| && l.messages[i].id == m.id && l.messages[i].start <= l.messages[i].end <= |l.rows|
      && ShowsMessage(l.rows[l.messages[i].start..l.messages[i].end], m, Max(1, width), showAuthor, options)
  {
    RowsOfMessage(visible, width, hint, options, i);
    GroupsOpen(visible, i);
    var l := LayoutOf(visible, width, hint, options);
    BlockShows(visible, FirstUnread(visible), Max(1, width), options, i,
               l.rows[l.messages[i].start..l.messages[i].end]);
  }

  // ---------------------------------------------------------------- bubbles fit their message

  lemma {:induction false} MeasureIsWidest(text: seq<Line>)
    ensures forall l :: l in text ==> Cells(l) <= Measure(text)
    ensures Measure(text) > 0 ==> exists l :: l in text && Cells(l) == Measure(text)
  {
    if text != [] {
      var n := |text| - 1;
      MeasureIsWidest(text[..n]);
      assert text == text[..n] + [text[n]];
      if Measure(text) > 0 && Measure(text) == Measure(text[..n]) {
        var l :| l in text[..n] && Cells(l) == Measure(text);
        assert l in text;
      }
    }
  }

  lemma FittingParagraph(gs: Line, width: nat)
    requires width >= 1 && Cells(gs) <= width
    ensures ParagraphLines(gs, [gs], width)
  {
    if gs != [] {
      assert gs[0..|gs|] == gs;
      FittingGraphemes(gs, 0, |gs|, width);
      assert [gs][1..] == [];
      assert Wrapping(gs, |gs|, [], width);
      assert GoodEnd(gs, 0, |gs|, width);
    }
  }

  /** The text has a line of at least so many cells. */
  ghost predicate Reaches(text: seq<Line>, cells: int) { cells <= 0 || exists l :: l in text && Cells(l) >= cells }

  lemma MeasureReaches(text: seq<Line>, cells: int)
    ensures Measure(text) >= cells <==> Reaches(text, cells)
  {
    MeasureIsWidest(text);
  }

  /** Something the bubble shows on one line, if it can, takes at least so many cells. */
  ghost predicate Needs(m: Item, showAuthor: bool, cells: nat) {
    || Reaches(m.body, cells) || Cells(m.caption) >= cells || (showAuthor && Reaches(m.byline, cells))
    || (match m.quote
        case None => false
        case Some(q) => Reaches(q.author, cells - 2) || (q.body.Some? && Reaches(q.body.value, cells - 2)))
    || (m.file.Some? && Reaches(m.file.value.metadata, cells))
    || TotalCells(m.reactions) + Max(0, |m.reactions| - 1) * 2 >= cells
    || (m.replyLabel.Some? && Reaches(m.replyLabel.value, cells))
    || (m.file.None?
        && Reaches(if m.replyLabel.Some? then m.replyLabel.value else m.body, cells - 2 - Cells(m.caption)))
  }

  lemma MeasuredIsNeeded(m: Item, showAuthor: bool, cap: nat, cells: nat)
    requires 0 < cells <= Measured(m, showAuthor, cap)
    ensures Needs(m, showAuthor, cells)
  {
    MeasureReaches(m.body, cells);
    MeasureReaches(m.byline, cells);
    match m.quote {
      case None =>
      case Some(q) =>
        MeasureReaches(q.author, cells - 2);
        if q.body.Some? { MeasureReaches(q.body.value, cells - 2); }
    }
    if m.file.Some? { MeasureReaches(m.file.value.metadata, cells); }
    if m.replyLabel.Some? { MeasureReaches(m.replyLabel.value, cells); }
    MeasureReaches(if m.replyLabel.Some? then m.replyLabel.value else m.body, cells - 2 - Cells(m.caption));
  }

  /** A bubble below its largest width leaves every paragraph of its text and of its byline on a
      line of its own, and the caption whole; and one above its smallest width is no wider than
      something in it needs. */
  lemma BubbleFitsItsMessage(m: Item, lane: nat, showAuthor: bool)
    ensures
      var f := FrameOf(m, lane, showAuthor);
      && (f.width < Cap(lane) ==>
            && (forall i :: 0 <= i < |m.body| ==> ParagraphLines(m.body[i], [m.body[i]], f.content))
            && (showAuthor ==>
                  forall i :: 0 <= i < |m.byline| ==> ParagraphLines(m.byline[i], [m.byline[i]], f.content))
            && Cells(m.caption) <= f.content)
      && (f.width > BLOCK_MIN_WIDTH ==> Needs(m, showAuthor, f.content))
  {
    var f := FrameOf(m, lane, showAuthor);
    MeasureIsWidest(m.body);
    MeasureIsWidest(m.byline);
    if f.width > BLOCK_MIN_WIDTH { MeasuredIsNeeded(m, showAuthor, Cap(lane), f.content); }
    if f.width < Cap(lane) {
      forall i | 0 <= i < |m.body| ensures ParagraphLines(m.body[i], [m.body[i]], f.content) {
        assert m.body[i] in m.body;
        FittingParagraph(m.body[i], f.content);
      }
      if showAuthor {
        forall i | 0 <= i < |m.byline| ensures ParagraphLines(m.byline[i], [m.byline[i]], f.content) {
          assert m.byline[i] in m.byline;
          FittingParagraph(m.byline[i], f.content);
        }
      }
    }
  }

  lemma EmptyRowsAre(first: Line, hint: Text, lane: nat)
    ensures
      var rows, lines := EmptyRows([first], hint, lane), WrapText(hint, lane);
      && |rows| == |lines| + 1 && rows[0] == LaneRow(first, lane)
      && forall r :: 0 <= r < |lines| ==> rows[r + 1] == LaneRow(lines[r], lane)
  {
    var rows, lines := EmptyRows([first], hint, lane), WrapText(hint, lane);
    var all := [first] + lines;
    assert |rows| == |all| && rows[0] == LaneRow(all[0], lane);
    forall r | 0 <= r < |lines| ensures rows[r + 1] == LaneRow(lines[r], lane) {
      assert all[r + 1] == lines[r];
    }
  }

  ghost predicate ShowsHint(rows: seq<Row>, hint: Text, lane: nat) {
    exists lines :: ShowsText(lines, hint, lane) && |lines| == |rows|
                    && forall r :: 0 <= r < |lines| ==> rows[r] == LaneRow(lines[r], lane)
  }

  /** An empty conversation says so and then shows the hint, over the whole lane. */
  lemma EmptyTranscript(width: nat, hint: Text, options: Options)
    ensures
      var l, lane := LayoutOf([], width, hint, options), Max(1, width);
      && l.messages == [] && l.rows != [] && l.rows[0] == LaneRow([Grapheme("No messages yet", 15, false)], lane)
      && ShowsHint(l.rows[1..], hint, lane)
  {
    var lane: nat := Max(1, width);
    EmptyRowsAre(NO_MESSAGES[0], hint, lane);
    TextShown(hint, lane);
    var rows := EmptyRows(NO_MESSAGES, hint, lane);
    assert NO_MESSAGES == [NO_MESSAGES[0]];
    HintShown(rows[1..], WrapText(hint, lane), hint, lane);
  }

  lemma HintShown(rows: seq<Row>, lines: seq<Line>, hint: Text, lane: nat)
    requires ShowsText(lines, hint, lane) && |lines| == |rows|
    requires forall r :: 0 <= r < |lines| ==> rows[r] == LaneRow(lines[r], lane)
    ensures ShowsHint(rows, hint, lane)
  {
  }
}
