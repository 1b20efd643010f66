/** What every transcript guarantees about its rows
    (apps/mutte/src/conversation_layout.rs). */
module TranscriptFacts {
  import opened Common
  import opened Wrap
  import opened Bubbles
  import opened Transcript

  // ---------------------------------------------------------------- one bubble

  /** An upper edge, some lines, a lower edge; one owner; nothing outside lane or insets. */
  ghost predicate GoodBlock(block: seq<Row>, id: nat, lane: nat) {
    && |block| >= 3
    && forall r :: 0 <= r < |block| ==>
         && block[r].owner == Some(id)
         && block[r].x + block[r].width <= lane
         && block[r].edge == (if r == 0 then Some(Top) else if r == |block| - 1 then Some(Bottom) else None)
         && (block[r].messageStart <==> r == 1)
         && Cells(block[r].line) + 2 * block[r].inset <= block[r].width
  }

  /** The lane is wide enough for what the message shows. */
  ghost predicate Roomy(m: Item, lane: nat, options: Options) {
    && lane >= 1 && Cells(m.reference) == REFERENCE_WIDTH
    && (options.references ==> lane >= 15) && (m.quote.Some? ==> lane >= 9)
  }

  lemma FinishedIsGood(lines: seq<Line>, f: Frame, id: nat, lane: nat, outline: bool)
    requires lines != [] && f.x + f.width <= lane && 2 * f.inset <= f.width && AllFit(lines, f.width - 2 * f.inset)
    ensures GoodBlock(Finished(RawBubble(lines, f, id), outline), id, lane)
  {
  }

  lemma BubbleIsGood(m: Item, lane: nat, showAuthor: bool, options: Options)
    requires Roomy(m, lane, options)
    ensures GoodBlock(Bubble(m, lane, showAuthor, options), m.id, lane)
  {
    var f := FrameOf(m, lane, showAuthor);
    FrameStaysInLane(m, lane, showAuthor);
    BubbleFits(m, lane, showAuthor, options.references);
    FinishedIsGood(Lines(m, f.content, showAuthor, options.references), f, m.id, lane, options.explicitOwnership);
  }

  // ---------------------------------------------------------------- ranges

  predicate Within(l: Layout, i: nat, r: nat)
    requires i < |l.messages|
  {
    l.messages[i].start <= r < l.messages[i].end
  }

  /** A day line, a spacer or the marker of new messages. */
  predicate LaneLike(row: Row, lane: nat) {
    row.owner == None && row.edge == None && row.x == 0 && row.width == lane
  }

  ghost predicate Covered(l: Layout, r: nat, lane: nat)
    requires r < |l.rows|
  {
    LaneLike(l.rows[r], lane) || exists i: nat :: i < |l.messages| && Within(l, i, r)
  }

  /** Message `i` has the rows of its block, after all rows of the message before it. */
  ghost predicate Ranged(l: Layout, visible: seq<Item>, blocks: seq<seq<Row>>, i: nat)
    requires i < |l.messages| <= |visible| == |blocks|
  {
    var m := l.messages[i];
    && m.id == visible[i].id
    && (if i == 0 then 0 else l.messages[i - 1].end) <= m.start <= m.end <= |l.rows|
    && l.rows[m.start..m.end] == blocks[i]
  }

  ghost predicate Tidy(l: Layout, visible: seq<Item>, blocks: seq<seq<Row>>, lane: nat)
    requires |l.messages| <= |visible| == |blocks|
  {
    && (forall i: nat :: i < |l.messages| ==> Ranged(l, visible, blocks, i))
    && (if l.messages == [] then l.rows == [] else l.messages[|l.messages| - 1].end == |l.rows|)
    && forall r: nat :: r < |l.rows| ==> Covered(l, r, lane)
  }

  lemma LeadIsLane(visible: seq<Item>, unread: Option<nat>, i: nat, lane: nat)
    requires i < |visible|
    ensures forall r :: 0 <= r < |Lead(visible, unread, i, lane)| ==> LaneLike(Lead(visible, unread, i, lane)[r], lane)
  {
  }

  lemma PlaceIsTidy(
      l: Layout, visible: seq<Item>, blocks: seq<seq<Row>>, lane: nat, lead: seq<Row>, starts: bool)
    requires |l.messages| < |visible| == |blocks| && Tidy(l, visible, blocks, lane)
    requires forall r :: 0 <= r < |lead| ==> LaneLike(lead[r], lane)
    ensures Tidy(Place(l, visible[|l.messages|].id, lead, blocks[|l.messages|], starts), visible, blocks, lane)
  {
    var n := |l.messages|;
    var k := Place(l, visible[n].id, lead, blocks[n], starts);
    forall i: nat | i < |k.messages| ensures Ranged(k, visible, blocks, i) {
      if i < n {
        assert Ranged(l, visible, blocks, i);
        assert k.rows[..|l.rows|] == l.rows;
      }
    }
    forall r: nat | r < |k.rows| ensures Covered(k, r, lane) {
      if r < |l.rows| {
        assert Covered(l, r, lane);
        if !LaneLike(l.rows[r], lane) {
          var i: nat :| i < |l.messages| && Within(l, i, r);
          assert Within(k, i, r);
        }
      } else if r >= |l.rows| + |lead| {
        assert Within(k, n, r);
      } else {
        assert k.rows[r] == lead[r - |l.rows|];
      }
    }
  }

  lemma {:induction false} LayoutIsTidy(
      visible: seq<Item>, unread: Option<nat>, lane: nat, blocks: seq<seq<Row>>, n: nat)
    requires n <= |visible| == |blocks|
    ensures Tidy(LayoutTo(visible, unread, lane, blocks, n), visible, blocks, lane)
  {
    if n > 0 {
      LayoutIsTidy(visible, unread, lane, blocks, n - 1);
      LeadIsLane(visible, unread, n - 1, lane);
      PlaceIsTidy(LayoutTo(visible, unread, lane, blocks, n - 1), visible, blocks, lane,
                  if StartsGroup(visible, unread, n - 1) then Lead(visible, unread, n - 1, lane) else [],
                  StartsGroup(visible, unread, n - 1));
    }
  }

  lemma {:induction false} EndsGrow(l: Layout, visible: seq<Item>, blocks: seq<seq<Row>>, lane: nat, i: nat, j: nat)
    requires |l.messages| <= |visible| == |blocks| && Tidy(l, visible, blocks, lane) && i < j < |l.messages|
    ensures l.messages[i].end <= l.messages[j].start
  {
    assert Ranged(l, visible, blocks, j);
    if i < j - 1 {
      EndsGrow(l, visible, blocks, lane, i, j - 1);
      assert Ranged(l, visible, blocks, j - 1);
    }
  }

  ghost predicate DistinctItems(visible: seq<Item>) {
    forall i, j :: 0 <= i < j < |visible| ==> visible[i].id != visible[j].id
  }

  ghost predicate AllRoomy(visible: seq<Item>, lane: nat, options: Options) {
    forall i :: 0 <= i < |visible| ==> Roomy(visible[i], lane, options)
  }

  /** One entry for each message, in order; its rows are a bubble of its own. */
  ghost predicate Bubbled(l: Layout, visible: seq<Item>, lane: nat) {
    && |l.messages| == |visible|
    && (forall i :: 0 <= i < |visible| ==>
         var m := l.messages[i];
         && m.id == visible[i].id && m.start + 3 <= m.end <= |l.rows|
         && GoodBlock(l.rows[m.start..m.end], m.id, lane))
    && (forall i, j :: 0 <= i < j < |visible| ==> l.messages[i].end <= l.messages[j].start)
  }

  /** A transcript's bubbles stand in order without overlapping, each bounded by its edges,
      and none leaves its lane or its insets. */
  lemma TranscriptIsBubbled(visible: seq<Item>, width: nat, hint: Text, options: Options)
    requires AllRoomy(visible, Max(1, width), options)
    ensures Bubbled(LayoutOf(visible, width, hint, options), visible, Max(1, width))
  {
    if visible != [] {
      var lane: nat, unread := Max(1, width), FirstUnread(visible);
      var blocks := Blocks(visible, unread, lane, options);
      var l := LayoutTo(visible, unread, lane, blocks, |visible|);
      LayoutIsTidy(visible, unread, lane, blocks, |visible|);
      forall i: nat | i < |visible|
        ensures var m := l.messages[i];
                && m.id == visible[i].id && m.start + 3 <= m.end <= |l.rows|
                && GoodBlock(l.rows[m.start..m.end], m.id, lane)
      {
        assert Ranged(l, visible, blocks, i);
        BlockIsGood(visible, unread, lane, options, i);
      }
      forall i: nat, j: nat | i < j < |visible| ensures l.messages[i].end <= l.messages[j].start {
        EndsGrow(l, visible, blocks, lane, i, j);
      }
    }
  }

  lemma BlockIsGood(visible: seq<Item>, unread: Option<nat>, lane: nat, options: Options, i: nat)
    requires i < |visible| && Roomy(visible[i], lane, options)
    ensures GoodBlock(Blocks(visible, unread, lane, options)[i], visible[i].id, lane)
  {
    BubbleIsGood(visible[i], lane, ShowsAuthor(visible[i], StartsGroup(visible, unread, i), options), options);
  }

  /** A message owns exactly the rows of its range. */
  lemma OwnsExactly(visible: seq<Item>, width: nat, hint: Text, options: Options, i: nat, r: nat)
    requires AllRoomy(visible, Max(1, width), options) && DistinctItems(visible)
    requires i < |visible| && r < |LayoutOf(visible, width, hint, options).rows|
    ensures var l := LayoutOf(visible, width, hint, options);
            |l.messages| == |visible| && (l.rows[r].owner == Some(visible[i].id) <==> Within(l, i, r))
  {
    var lane: nat, unread := Max(1, width), FirstUnread(visible);
    var blocks := Blocks(visible, unread, lane, options);
    var l := LayoutOf(visible, width, hint, options);
    TranscriptIsBubbled(visible, width, hint, options);
    LayoutIsTidy(visible, unread, lane, blocks, |visible|);
    assert Covered(l, r, lane);
    OwnerOf(l, visible, lane, i, r);
  }

  lemma OwnerOf(l: Layout, visible: seq<Item>, lane: nat, i: nat, r: nat)
    requires Bubbled(l, visible, lane) && DistinctItems(visible) && i < |visible| && r < |l.rows| && Covered(l, r, lane)
    ensures l.rows[r].owner == Some(visible[i].id) <==> Within(l, i, r)
  {
    if !LaneLike(l.rows[r], lane) {
      var j: nat :| j < |l.messages| && Within(l, j, r);
      var m := l.messages[j];
      assert l.rows[m.start..m.end][r - m.start] == l.rows[r];
      assert l.rows[r].owner == Some(visible[j].id);
      if i < j || j < i { assert visible[i].id != visible[j].id; }
    }
    if Within(l, i, r) {
      var m := l.messages[i];
      assert l.rows[m.start..m.end][r - m.start] == l.rows[r];
    }
  }

  // ---------------------------------------------------------------- groups

  /** The message that opened the group of message `i`. */
  function GroupHead(visible: seq<Item>, i: nat): (h: nat)
    requires i < |visible|
    ensures h <= i
  {
    if StartsGroup(visible, FirstUnread(visible), i) then i else GroupHead(visible, i - 1)
  }

  /** Each message remembers the first row of its group. */
  lemma {:induction false} GroupStartsAtHead(
      visible: seq<Item>, lane: nat, blocks: seq<seq<Row>>, n: nat, i: nat)
    requires i < n <= |visible| == |blocks|
    ensures
      var l := LayoutTo(visible, FirstUnread(visible), lane, blocks, n);
      l.messages[i].groupStart == l.messages[GroupHead(visible, i)].start
  {
    if i < n - 1 {
      GroupStartsAtHead(visible, lane, blocks, n - 1, i);
    } else if !StartsGroup(visible, FirstUnread(visible), i) {
      GroupStartsAtHead(visible, lane, blocks, n - 1, i - 1);
    }
  }

  // ---------------------------------------------------------------- what stands between bubbles

  ghost predicate IsFirstUnread(visible: seq<Item>, i: nat)
    requires i < |visible|
  {
    visible[i].unread && forall j :: 0 <= j < i ==> !visible[j].unread
  }

  ghost predicate NewDate(visible: seq<Item>, i: nat)
    requires i < |visible|
  {
    i == 0 || visible[i - 1].date != visible[i].date
  }

  /** A message opens a group unless it follows one of the same author, side, date and thread by
      no more than five minutes; the first unread one always does. */
  ghost predicate Opens(visible: seq<Item>, i: nat)
    requires i < |visible|
  {
    || NewDate(visible, i) || IsFirstUnread(visible, i)
    || visible[i - 1].mine != visible[i].mine || visible[i - 1].author != visible[i].author
    || visible[i - 1].threadRoot != visible[i].threadRoot
    || visible[i].timestamp < visible[i - 1].timestamp
    || visible[i].timestamp > visible[i - 1].timestamp + 300_000
  }

  lemma {:induction false} FirstUnreadIsFirst(visible: seq<Item>)
    ensures match FirstUnread(visible)
            case None => forall j :: 0 <= j < |visible| ==> !visible[j].unread
            case Some(id) => exists i: nat :: i < |visible| && visible[i].id == id && IsFirstUnread(visible, i)
  {
    if visible != [] {
      var n := |visible| - 1;
      FirstUnreadIsFirst(visible[..n]);
      if FirstUnread(visible[..n]).Some? {
        var i: nat :| i < n && visible[..n][i].id == FirstUnread(visible[..n]).value && IsFirstUnread(visible[..n], i);
        assert IsFirstUnread(visible, i);
      } else {
        assert visible[n].unread ==> IsFirstUnread(visible, n);
      }
    }
  }

  lemma FirstUnreadIs(visible: seq<Item>, i: nat)
    requires DistinctItems(visible) && i < |visible|
    ensures FirstUnread(visible) == Some(visible[i].id) <==> IsFirstUnread(visible, i)
  {
    FirstUnreadIsFirst(visible);
    if FirstUnread(visible).Some? {
      var k: nat :| k < |visible| && visible[k].id == FirstUnread(visible).value && IsFirstUnread(visible, k);
      assert k != i ==> visible[k].id != visible[i].id by {
        if k < i { assert visible[k].id != visible[i].id; } else if i < k { assert visible[i].id != visible[k].id; }
      }
    }
  }

  lemma GroupsOpen(visible: seq<Item>, i: nat)
    requires DistinctItems(visible) && i < |visible|
    ensures StartsGroup(visible, FirstUnread(visible), i) <==> Opens(visible, i)
  {
    FirstUnreadIs(visible, i);
  }

  predicate HasGap(l: Layout, i: nat) {
    i < |l.messages| && (if i == 0 then 0 else l.messages[i - 1].end) <= l.messages[i].start <= |l.rows|
  }

  /** The rows between message `i` and the one before it. */
  function Gap(l: Layout, i: nat): seq<Row>
    requires HasGap(l, i)
  {
    l.rows[if i == 0 then 0 else l.messages[i - 1].end..l.messages[i].start]
  }

  lemma PlacedGap(k: Layout, id: nat, lead: seq<Row>, block: seq<Row>, starts: bool, i: nat)
    requires if k.messages == [] then k.rows == [] else k.messages[|k.messages| - 1].end == |k.rows|
    requires i == |k.messages| || HasGap(k, i)
    ensures
      var l := Place(k, id, lead, block, starts);
      HasGap(l, i) && Gap(l, i) == if i == |k.messages| then lead else Gap(k, i)
  {
    var l := Place(k, id, lead, block, starts);
    if i < |k.messages| {
      assert l.rows[..|k.rows|] == k.rows;
    }
  }

  lemma {:induction false} GapIsLead(
      visible: seq<Item>, unread: Option<nat>, lane: nat, blocks: seq<seq<Row>>, n: nat, i: nat)
    requires i < n <= |visible| == |blocks|
    ensures
      var l := LayoutTo(visible, unread, lane, blocks, n);
      HasGap(l, i) && Gap(l, i) == if StartsGroup(visible, unread, i) then Lead(visible, unread, i, lane) else []
  {
    LayoutIsTidy(visible, unread, lane, blocks, n - 1);
    if i < n - 1 { GapIsLead(visible, unread, lane, blocks, n - 1, i); }
    var starts := StartsGroup(visible, unread, n - 1);
    PlacedGap(LayoutTo(visible, unread, lane, blocks, n - 1), visible[n - 1].id,
              if starts then Lead(visible, unread, n - 1, lane) else [], blocks[n - 1], starts, i);
  }

  /** Between two bubbles stand, in this order: an empty row where a group opens, the day with an
      empty row where a new date begins, and the marker before the first unread message. Inside a
      group nothing does. */
  lemma RowsBetween(visible: seq<Item>, width: nat, hint: Text, options: Options, i: nat)
    requires DistinctItems(visible) && i < |visible|
    ensures
      var l, lane := LayoutOf(visible, width, hint, options), Max(1, width);
      && |l.messages| == |visible| && HasGap(l, i)
      && Gap(l, i)
         == (if i > 0 && Opens(visible, i) then [LaneRow([], lane)] else [])
          + (if NewDate(visible, i) then [LaneRow(visible[i].dateLabel, lane), LaneRow([], lane)] else [])
          + (if IsFirstUnread(visible, i) then [LaneRow(MARKER, lane)] else [])
  {
    var lane: nat, unread := Max(1, width), FirstUnread(visible);
    GapIsLead(visible, unread, lane, Blocks(visible, unread, lane, options), |visible|, i);
    GroupsOpen(visible, i);
    FirstUnreadIs(visible, i);
  }

  /** So a message shown without a byline stands in a group whose first message has the same
      author, side, date and thread, and none of the group was written before the one above it. */
  lemma {:induction false} GroupIsOfOne(visible: seq<Item>, i: nat)
    requires DistinctItems(visible) && i < |visible|
    ensures
      var h := GroupHead(visible, i);
      && visible[h].mine == visible[i].mine && visible[h].author == visible[i].author
      && visible[h].date == visible[i].date && visible[h].threadRoot == visible[i].threadRoot
      && visible[h].timestamp <= visible[i].timestamp <= visible[h].timestamp + (i - h) * 300_000
      && Opens(visible, h) && forall j :: h < j <= i ==> !Opens(visible, j)
  {
    GroupsOpen(visible, i);
    if !StartsGroup(visible, FirstUnread(visible), i) { GroupIsOfOne(visible, i - 1); }
  }

  // ---------------------------------------------------------------- growing

  /** `k` only adds rows and messages after those of `l`. */
  ghost predicate Extends(l: Layout, k: Layout) {
    l.rows <= k.rows && l.messages <= k.messages
  }

  lemma SamePlaces(visible: seq<Item>, m: Item, options: Options, lane: nat, i: nat)
    requires DistinctItems(visible + [m]) && i < |visible|
    ensures
      var more := visible + [m];
      var u, v := FirstUnread(visible), FirstUnread(more);
      && (StartsGroup(more, v, i) <==> StartsGroup(visible, u, i))
      && Lead(more, v, i, lane) == Lead(visible, u, i, lane)
  {
    var more := visible + [m];
    assert more[..|visible|] == visible;
    assert more[i].id != more[|visible|].id;
  }

  lemma {:induction false} SameLayout(
      visible: seq<Item>, m: Item, options: Options, lane: nat, blocks: seq<seq<Row>>, grown: seq<seq<Row>>, n: nat)
    requires DistinctItems(visible + [m]) && n <= |visible| == |blocks| == |grown| - 1 && blocks <= grown
    ensures LayoutTo(visible + [m], FirstUnread(visible + [m]), lane, grown, n)
         == LayoutTo(visible, FirstUnread(visible), lane, blocks, n)
  {
    if n > 0 {
      SameLayout(visible, m, options, lane, blocks, grown, n - 1);
      SamePlaces(visible, m, options, lane, n - 1);
      assert (visible + [m])[n - 1] == visible[n - 1];
    }
  }

  lemma BlocksGrow(visible: seq<Item>, m: Item, lane: nat, options: Options)
    requires DistinctItems(visible + [m])
    ensures Blocks(visible, FirstUnread(visible), lane, options)
         <= Blocks(visible + [m], FirstUnread(visible + [m]), lane, options)
  {
    var u, v := FirstUnread(visible), FirstUnread(visible + [m]);
    forall i: nat | i < |visible|
      ensures BlockOf(visible + [m], v, lane, options, i) == BlockOf(visible, u, lane, options, i)
    {
      SamePlaces(visible, m, options, lane, i);
    }
  }

  /** A further message only adds rows below those already there. */
  lemma AppendingExtends(visible: seq<Item>, m: Item, width: nat, hint: Text, options: Options)
    requires visible != [] && DistinctItems(visible + [m])
    ensures Extends(LayoutOf(visible, width, hint, options), LayoutOf(visible + [m], width, hint, options))
  {
    var lane: nat := Max(1, width);
    var u, v := FirstUnread(visible), FirstUnread(visible + [m]);
    var blocks, grown := Blocks(visible, u, lane, options), Blocks(visible + [m], v, lane, options);
    BlocksGrow(visible, m, lane, options);
    SameLayout(visible, m, options, lane, blocks, grown, |visible|);
    PlaceExtends(LayoutTo(visible + [m], v, lane, grown, |visible|), visible + [m], v, lane, grown);
  }

  lemma PlaceExtends(l: Layout, more: seq<Item>, v: Option<nat>, lane: nat, grown: seq<seq<Row>>)
    requires more != [] && |grown| == |more| && l == LayoutTo(more, v, lane, grown, |more| - 1)
    ensures Extends(l, LayoutTo(more, v, lane, grown, |more|))
  {
  }
}
