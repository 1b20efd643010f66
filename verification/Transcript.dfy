/** The rows of a conversation: day lines, bubbles and which message owns which rows
    (apps/mutte/src/conversation_layout.rs). */
module Transcript {
  import opened Common
  import opened Wrap
  import opened Bubbles

  datatype Edge = Top | Bottom

  datatype Row = Row(
    line: Line, x: nat, width: nat, inset: nat, owner: Option<nat>, messageStart: bool,
    edge: Option<Edge>, outline: bool)

  datatype MessageRows = MessageRows(id: nat, start: nat, end: nat, groupStart: nat)

  function LaneRow(line: Line, lane: nat): Row {
    Row(line, 0, lane, 0, None, false, None, false)
  }

  function BlockRow(line: Line, f: Frame, id: nat): Row {
    Row(line, f.x, f.width, f.inset, Some(id), false, None, false)
  }

  function EdgeRow(f: Frame, id: nat, edge: Edge): Row {
    Row([], f.x, f.width, 0, Some(id), false, Some(edge), false)
  }

  function BlockRows(lines: seq<Line>, f: Frame, id: nat): (r: seq<Row>)
    ensures |r| == |lines| && forall i :: 0 <= i < |r| ==> r[i] == BlockRow(lines[i], f, id)
  {
    seq(|lines|, i requires 0 <= i < |lines| => BlockRow(lines[i], f, id))
  }

  /** The finished rows of a bubble: marked at its first line, outlined when asked for. */
  function Finished(rows: seq<Row>, outline: bool): (r: seq<Row>)
    ensures |r| == |rows|
    ensures forall i :: 0 <= i < |r| ==> r[i] == rows[i].(messageStart := i == 1, outline := outline)
  {
    seq(|rows|, i requires 0 <= i < |rows| => rows[i].(messageStart := i == 1, outline := outline))
  }

  function RawBubble(lines: seq<Line>, f: Frame, id: nat): seq<Row> {
    [EdgeRow(f, id, Top)] + BlockRows(lines, f, id) + [EdgeRow(f, id, Bottom)]
  }

  function BubbleIn(m: Item, f: Frame, showAuthor: bool, options: Options): seq<Row> {
    Finished(RawBubble(Lines(m, f.content, showAuthor, options.references), f, m.id), options.explicitOwnership)
  }

  function Bubble(m: Item, lane: nat, showAuthor: bool, options: Options): seq<Row> {
    BubbleIn(m, FrameOf(m, lane, showAuthor), showAuthor, options)
  }

  // ---------------------------------------------------------------- grouping

  const FIVE_MINUTES: nat := 300_000

  /** Same author, local date and thread, at most five minutes later and never earlier. */
  predicate ContinuesSenderGroup(previous: Item, m: Item) {
    && previous.mine == m.mine && previous.author == m.author
    && previous.date == m.date
    && previous.threadRoot == m.threadRoot
    && 0 <= m.timestamp - previous.timestamp <= FIVE_MINUTES
  }

  function FirstUnread(visible: seq<Item>): Option<nat> {
    if visible == [] then None
    else
      match FirstUnread(visible[..|visible| - 1])
      case Some(id) => Some(id)
      case None => if visible[|visible| - 1].unread then Some(visible[|visible| - 1].id) else None
  }

  predicate StartsGroup(visible: seq<Item>, unread: Option<nat>, i: nat)
    requires i < |visible|
  {
    i == 0 || unread == Some(visible[i].id) || !ContinuesSenderGroup(visible[i - 1], visible[i])
  }

  const MARKER: Line
    := [Grapheme("\U{2500}\U{2500} New messages \U{2500}\U{2500}", 18, false)]

  /** The lane rows before a group. */
  function Lead(visible: seq<Item>, unread: Option<nat>, i: nat, lane: nat): seq<Row>
    requires i < |visible|
  {
    (if i > 0 then [LaneRow([], lane)] else [])
    + (if i == 0 || visible[i - 1].date != visible[i].date
       then [LaneRow(visible[i].dateLabel, lane), LaneRow([], lane)] else [])
    + (if unread == Some(visible[i].id) then [LaneRow(MARKER, lane)] else [])
  }

  // ---------------------------------------------------------------- the layout, message by message

  datatype Layout = Layout(rows: seq<Row>, messages: seq<MessageRows>)

  function ShowsAuthor(m: Item, starts: bool, options: Options): bool {
    starts && (!m.mine || options.explicitOwnership)
  }

  function Place(l: Layout, id: nat, lead: seq<Row>, block: seq<Row>, starts: bool): Layout {
    var start := |l.rows| + |lead|;
    var group := if starts || l.messages == [] then start else l.messages[|l.messages| - 1].groupStart;
    Layout(l.rows + lead + block, l.messages + [MessageRows(id, start, start + |block|, group)])
  }

  /** The layout of the first `n` messages, given each one's block of rows. */
  function LayoutTo(visible: seq<Item>, unread: Option<nat>, lane: nat, blocks: seq<seq<Row>>, n: nat): (l: Layout)
    requires n <= |visible| == |blocks|
    ensures |l.messages| == n
  {
    if n == 0 then Layout([], [])
    else
      var starts := StartsGroup(visible, unread, n - 1);
      Place(LayoutTo(visible, unread, lane, blocks, n - 1), visible[n - 1].id,
            if starts then Lead(visible, unread, n - 1, lane) else [], blocks[n - 1], starts)
  }

  function BlockOf(visible: seq<Item>, unread: Option<nat>, lane: nat, options: Options, i: nat): seq<Row>
    requires i < |visible|
  {
    Bubble(visible[i], lane, ShowsAuthor(visible[i], StartsGroup(visible, unread, i), options), options)
  }

  function Blocks(visible: seq<Item>, unread: Option<nat>, lane: nat, options: Options): seq<seq<Row>> {
    seq(|visible|, i requires 0 <= i < |visible| => BlockOf(visible, unread, lane, options, i))
  }

  /** Marks the messages whose block a proof looks into. */
  predicate Due(i: nat) { true }

  /** Every block is its message's bubble. */
  ghost predicate Drawn(visible: seq<Item>, unread: Option<nat>, lane: nat, options: Options, blocks: seq<seq<Row>>) {
    |blocks| == |visible|
    && forall i: nat {:trigger Due(i)} :: Due(i) && i < |visible| ==> blocks[i] == BlockOf(visible, unread, lane, options, i)
  }

  lemma BlocksAreDrawn(visible: seq<Item>, unread: Option<nat>, lane: nat, options: Options)
    ensures Drawn(visible, unread, lane, options, Blocks(visible, unread, lane, options))
  {
  }

  function EmptyRows(empty: seq<Line>, hint: Text, lane: nat): (r: seq<Row>)
    ensures forall i :: 0 <= i < |r| ==> r[i].owner == None && r[i].x == 0 && r[i].width == lane
  {
    var lines := empty + WrapText(hint, lane);
    seq(|lines|, i requires 0 <= i < |lines| => LaneRow(lines[i], lane))
  }

  /** The words of an empty conversation. */
  const NO_MESSAGES: seq<Line> := [[Grapheme("No messages yet", 15, false)]]

  function LayoutOf(visible: seq<Item>, width: nat, hint: Text, options: Options): Layout {
    var lane: nat := Max(1, width);
    if visible == [] then Layout(EmptyRows(NO_MESSAGES, hint, lane), [])
    else
      var unread := FirstUnread(visible);
      LayoutTo(visible, unread, lane, Blocks(visible, unread, lane, options), |visible|)
  }

  // ---------------------------------------------------------------- the program

  class Transcript {
    var rows: seq<Row>
    var messages: seq<MessageRows>

    ghost function Laid(): Layout reads this { Layout(rows, messages) }

    method PushBlock(lines: seq<Line>, f: Frame, id: nat)
      modifies this`rows
      ensures rows == old(rows) + BlockRows(lines, f, id)
    {
      for i := 0 to |lines|
        invariant rows == old(rows) + BlockRows(lines[..i], f, id)
      {
        rows := rows + [BlockRow(lines[i], f, id)];
        assert BlockRows(lines[..i + 1], f, id) == BlockRows(lines[..i], f, id) + [BlockRow(lines[i], f, id)];
      }
      assert lines[..|lines|] == lines;
    }

    method PushQuote(q: Quote, f: Frame, id: nat)
      modifies this`rows
      ensures rows == old(rows) + BlockRows(QuoteLines(q, f.content), f, id)
    {
      var room: nat := Max(1, f.content - 2);
      var author := WrapCells(q.author, room);
      var body: seq<Line> := [];
      if q.body.Some? { body := LayExcerpt(q.body.value, room); }
      PushBlock(Barred(author), f, id);
      PushBlock(Barred(body), f, id);
      Joined2(old(rows), Barred(author), Barred(body), f, id);
    }

    method PushHeading(m: Item, f: Frame, showAuthor: bool, references: bool)
      modifies this`rows
      ensures rows == old(rows) + BlockRows(Heading(m, f.content, showAuthor, references), f, m.id)
    {
      var byline: seq<Line> := [];
      if showAuthor { byline := WrapCells(m.byline, f.content); }
      PushBlock(byline, f, m.id);
      var reference: seq<Line> := if references then [m.reference] else [];
      PushBlock(reference, f, m.id);
      if m.quote.Some? { PushQuote(m.quote.value, f, m.id); }
      ghost var quote := if m.quote.Some? then QuoteLines(m.quote.value, f.content) else [];
      Joined3(byline, reference, quote, f, m.id, old(rows));
    }

    method PushContents(m: Item, f: Frame)
      modifies this`rows
      ensures rows == old(rows) + BlockRows(Contents(m, f.content), f, m.id)
    {
      ghost var above: seq<Line> := [];
      if BodyShown(m) {
        var lines := WrapCells(m.body, f.content);
        PushBlock(lines, f, m.id);
        above := lines;
      }
      if m.file.Some? {
        var lines := WrapCells(m.file.value.metadata + [m.file.value.location], f.content);
        PushBlock(lines, f, m.id);
        Joined2(old(rows), above, lines, f, m.id);
      }
    }

    method PushFooter(m: Item, f: Frame)
      modifies this`rows
      ensures rows == old(rows) + BlockRows(Footer(m, f.content), f, m.id)
    {
      var lines := LayReactions(m.reactions, f.content);
      PushBlock(lines, f, m.id);
      if m.replyLabel.Some? {
        var more := WrapCells(m.replyLabel.value, f.content);
        PushBlock(more, f, m.id);
        Joined2(old(rows), lines, more, f, m.id);
      }
    }

    method PushCaption(ghost above: seq<Row>, ghost lines: seq<Line>, caption: Line, f: Frame, id: nat)
      requires lines != [] && rows == above + BlockRows(lines, f, id)
      modifies this`rows
      ensures rows == above + BlockRows(WithCaption(lines, caption, f.content), f, id)
    {
      var last := rows[|rows| - 1];
      assert last == BlockRow(lines[|lines| - 1], f, id);
      if Cells(last.line) + 2 + Cells(caption) <= f.content {
        var line := last.line + Blank(f.content - Cells(last.line) - Cells(caption)) + caption;
        rows := rows[..|rows| - 1] + [last.(line := line)];
        LastReplaced(above, lines, line, f, id);
      } else {
        var more := [caption];
        if Cells(caption) > f.content { more := WrapCells([caption], f.content); }
        PushBlock(more, f, id);
        Joined2(above, lines, more, f, id);
      }
    }

    /** Everything between the edges. */
    method PushLines(m: Item, f: Frame, showAuthor: bool, references: bool)
      modifies this`rows
      ensures rows == old(rows) + BlockRows(Lines(m, f.content, showAuthor, references), f, m.id)
    {
      PushHeading(m, f, showAuthor, references);
      PushContents(m, f);
      PushFooter(m, f);
      Joined3(Heading(m, f.content, showAuthor, references), Contents(m, f.content), Footer(m, f.content),
              f, m.id, old(rows));
      ContentNotEmpty(m, f.content, showAuthor, references);
      PushCaption(old(rows), ContentLines(m, f.content, showAuthor, references), m.caption, f, m.id);
    }

    /** One message: its edges, its lines and its marks. */
    method PushBubble(m: Item, f: Frame, showAuthor: bool, options: Options)
      modifies this`rows
      ensures rows == old(rows) + BubbleIn(m, f, showAuthor, options)
    {
      var start := |rows|;
      rows := rows + [EdgeRow(f, m.id, Top)];
      PushLines(m, f, showAuthor, options.references);
      FinishBubble(start, old(rows), Lines(m, f.content, showAuthor, options.references),
                   f, m.id, options.explicitOwnership);
    }

    /** The bottom edge, the mark on the first line, and the outline of every row. */
    method FinishBubble(start: nat, ghost above: seq<Row>, ghost lines: seq<Line>, f: Frame, id: nat, outline: bool)
      requires rows == above + [EdgeRow(f, id, Top)] + BlockRows(lines, f, id) && lines != [] && start == |above|
      modifies this`rows
      ensures rows == above + Finished(RawBubble(lines, f, id), outline)
    {
      ghost var raw := RawBubble(lines, f, id);
      rows := rows + [EdgeRow(f, id, Bottom)];
      assert rows == above + raw;
      rows := rows[start + 1 := rows[start + 1].(messageStart := true)];
      for i := start to |rows|
        invariant |rows| == start + |raw|
        invariant rows[..start] == above
        invariant forall j :: start <= j < i ==> rows[j] == raw[j - start].(messageStart := j == start + 1, outline := outline)
        invariant forall j :: i <= j < |rows| ==> rows[j] == raw[j - start].(messageStart := j == start + 1)
      {
        rows := rows[i := rows[i].(outline := outline)];
      }
    }

    /** The lane rows before the group that starts at `index`. */
    method PushLead(visible: seq<Item>, unread: Option<nat>, index: nat, lane: nat)
      requires index < |visible|
      modifies this`rows
      ensures rows == old(rows) + Lead(visible, unread, index, lane)
    {
      if index > 0 { rows := rows + [LaneRow([], lane)]; }
      if index == 0 || visible[index - 1].date != visible[index].date {
        rows := rows + [LaneRow(visible[index].dateLabel, lane)];
        rows := rows + [LaneRow([], lane)];
      }
      if unread == Some(visible[index].id) { rows := rows + [LaneRow(MARKER, lane)]; }
    }

    method PushDrawn(
        visible: seq<Item>, unread: Option<nat>, lane: nat, options: Options, i: nat, ghost blocks: seq<seq<Row>>)
      requires i < |visible| && Drawn(visible, unread, lane, options, blocks)
      modifies this`rows
      ensures rows == old(rows) + blocks[i]
    {
      var m := visible[i];
      var author := ShowsAuthor(m, StartsGroup(visible, unread, i), options);
      PushBubble(m, FrameOf(m, lane, author), author, options);
      assert Due(i);
    }

    /** One message of a group, after the lane rows before it. */
    method PushMessage(
        visible: seq<Item>, unread: Option<nat>, lane: nat, options: Options, i: nat, groupStart: nat,
        ghost lead: seq<Row>, ghost blocks: seq<seq<Row>>)
      requires i < |visible| && Drawn(visible, unread, lane, options, blocks)
      requires Placing(LayoutTo(visible, unread, lane, blocks, i), lead)
      requires lead == if StartsGroup(visible, unread, i) then Lead(visible, unread, i, lane) else []
      requires groupStart == if StartsGroup(visible, unread, i) then |rows| else messages[i - 1].groupStart
      modifies this
      ensures Laid() == LayoutTo(visible, unread, lane, blocks, i + 1)
      ensures messages[i].groupStart == groupStart
    {
      var start := |rows|;
      PushDrawn(visible, unread, lane, options, i, blocks);
      messages := messages + [MessageRows(visible[i].id, start, |rows|, groupStart)];
    }

    /** The lane rows of `lead` stand after layout `l`. */
    ghost predicate Placing(l: Layout, lead: seq<Row>)
      reads this
    {
      rows == l.rows + lead && messages == l.messages
    }

    /** The group that starts at `index`, as far as it reaches. */
    method PushGroup(
        visible: seq<Item>, unread: Option<nat>, lane: nat, options: Options, index: nat, ghost blocks: seq<seq<Row>>)
      returns (end: nat)
      requires index < |visible| && StartsGroup(visible, unread, index)
      requires Drawn(visible, unread, lane, options, blocks)
      requires Laid() == LayoutTo(visible, unread, lane, blocks, index)
      modifies this
      ensures index < end <= |visible| && (end == |visible| || StartsGroup(visible, unread, end))
      ensures Laid() == LayoutTo(visible, unread, lane, blocks, end)
    {
      PushLead(visible, unread, index, lane);
      end := GroupEnd(visible, unread, index);
      var groupStart := |rows|;
      PushMessage(visible, unread, lane, options, index, groupStart, Lead(visible, unread, index, lane), blocks);
      for i := index + 1 to end
        invariant Laid() == LayoutTo(visible, unread, lane, blocks, i)
        invariant messages[i - 1].groupStart == groupStart
      {
        PushMessage(visible, unread, lane, options, i, groupStart, [], blocks);
      }
    }

    method PushAll(
        visible: seq<Item>, unread: Option<nat>, lane: nat, options: Options, ghost blocks: seq<seq<Row>>)
      requires Drawn(visible, unread, lane, options, blocks) && rows == [] && messages == []
      modifies this
      ensures Laid() == LayoutTo(visible, unread, lane, blocks, |visible|)
    {
      var index := 0;
      while index < |visible|
        invariant index <= |visible| && Laid() == LayoutTo(visible, unread, lane, blocks, index)
        invariant index == |visible| || StartsGroup(visible, unread, index)
      {
        index := PushGroup(visible, unread, lane, options, index, blocks);
      }
    }

    constructor (visible: seq<Item>, width: nat, hint: Text, options: Options)
      ensures Laid() == LayoutOf(visible, width, hint, options)
    {
      rows, messages := [], [];
      new;
      var lane: nat := Max(1, width);
      var unread := FirstUnread(visible);
      BlocksAreDrawn(visible, unread, lane, options);
      PushAll(visible, unread, lane, options, Blocks(visible, unread, lane, options));
      if visible == [] {
        rows := EmptyRows(NO_MESSAGES, hint, lane);
      }
    }
  }

  /** How far the group that starts at `index` reaches. */
  method GroupEnd(visible: seq<Item>, unread: Option<nat>, index: nat) returns (end: nat)
    requires index < |visible|
    ensures index < end <= |visible| && (end == |visible| || StartsGroup(visible, unread, end))
    ensures forall i :: index < i < end ==> !StartsGroup(visible, unread, i)
  {
    end := index + 1;
    while end < |visible| && unread != Some(visible[end].id) && ContinuesSenderGroup(visible[end - 1], visible[end])
      invariant index < end <= |visible|
      invariant forall i :: index < i < end ==> !StartsGroup(visible, unread, i)
    {
      end := end + 1;
    }
  }

  lemma Joined2(base: seq<Row>, a: seq<Line>, b: seq<Line>, f: Frame, id: nat)
    ensures base + BlockRows(a + b, f, id) == base + BlockRows(a, f, id) + BlockRows(b, f, id)
  {
    Joined(a, b, f, id);
  }

  lemma Joined3(a: seq<Line>, b: seq<Line>, c: seq<Line>, f: Frame, id: nat, base: seq<Row>)
    ensures base + BlockRows(a + b + c, f, id) == base + BlockRows(a, f, id) + BlockRows(b, f, id) + BlockRows(c, f, id)
  {
    Joined(a + b, c, f, id);
    Joined(a, b, f, id);
  }

  lemma LastReplaced(above: seq<Row>, lines: seq<Line>, line: Line, f: Frame, id: nat)
    requires lines != []
    ensures
      var rows := above + BlockRows(lines, f, id);
      rows[..|rows| - 1] + [BlockRow(line, f, id)] == above + BlockRows(lines[..|lines| - 1] + [line], f, id)
  {
    assert BlockRows(lines[..|lines| - 1], f, id) == BlockRows(lines, f, id)[..|lines| - 1];
    Joined(lines[..|lines| - 1], [line], f, id);
  }

  lemma Joined(a: seq<Line>, b: seq<Line>, f: Frame, id: nat)
    ensures BlockRows(a + b, f, id) == BlockRows(a, f, id) + BlockRows(b, f, id)
  {
  }
}
