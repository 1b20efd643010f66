/** The window onto a transcript: anchored to a message, clamped, and moved by a signed
    offset (apps/mutte/src/conversation_layout.rs, apps/mutte/src/app.rs). */
module Viewport {
  import opened Common
  import opened Bubbles
  import opened Transcript
  import opened TranscriptFacts

  const U16_MAX: nat := 0xFFFF
  const USIZE_MAX: nat := 0xFFFF_FFFF_FFFF_FFFF

  datatype Anchor = Anchor(id: nat, offset: int)

  datatype View = View(anchor: Option<Anchor>, top: nat, maxTop: nat, manualBack: nat, initialized: bool)

  function Clamp(n: int): nat { Min(Max(0, n), USIZE_MAX) }

  function RangeIn(messages: seq<MessageRows>, id: nat): Option<MessageRows> {
    if messages == [] then None
    else if messages[0].id == id then Some(messages[0])
    else RangeIn(messages[1..], id)
  }

  /** The first message that reaches below row `top`. */
  function Reaching(messages: seq<MessageRows>, top: nat): Option<MessageRows> {
    if messages == [] then None
    else if messages[0].end > top then Some(messages[0])
    else Reaching(messages[1..], top)
  }

  function MaxTop(rows: nat, height: nat): nat { Max(0, rows - Max(1, height)) }

  /** Where the view would stay without any wish to move. */
  function Resting(v: View, l: Layout, maxTop: nat, back: nat): nat {
    var anchored :=
      match v.anchor
      case None => v.top
      case Some(a) =>
        match RangeIn(l.messages, a.id)
        case None => v.top
        case Some(m) => Clamp(m.start + a.offset);
    if !v.initialized then Max(0, maxTop - back) else Min(anchored, maxTop)
  }

  function Wanted(v: View, resting: nat, shown: Option<MessageRows>, height: nat, maxTop: nat, back: nat): nat {
    match shown
    case Some(m) =>
      if m.start < resting || m.end - m.start >= height then m.start
      else if m.end > resting + height then Max(0, m.end - height)
      else resting
    case None =>
      if back == 0 then maxTop
      else if v.initialized && back != v.manualBack then Clamp(resting + (v.manualBack - back))
      else resting
  }

  function Shown(l: Layout, selected: Option<nat>): Option<MessageRows> {
    match selected
    case None => None
    case Some(id) => RangeIn(l.messages, id)
  }

  function AnchorAt(l: Layout, top: nat): Option<Anchor> {
    match Reaching(l.messages, top)
    case None => None
    case Some(m) => Some(Anchor(m.id, top - m.start))
  }

  function Position(v: View, l: Layout, height: nat, selected: Option<nat>, back: nat): View {
    var h: nat := Max(1, height);
    var maxTop := MaxTop(|l.rows|, height);
    var top: nat := Min(Wanted(v, Resting(v, l, maxTop, back), Shown(l, selected), h, maxTop, back), maxTop);
    View(AnchorAt(l, top), top, maxTop, back, true)
  }

  function ScrollOffset(v: View, current: nat, older: bool, rows: nat): nat {
    if older then Min(current + Min(rows, v.top), U16_MAX)
    else if rows >= Max(0, v.maxTop - v.top) then 0
    else Max(0, current - rows)
  }

  class TranscriptViewport {
    var anchor: Option<Anchor>
    var top: nat
    var maxTop: nat
    var manualBack: nat
    var initialized: bool

    ghost function Now(): View reads this { View(anchor, top, maxTop, manualBack, initialized) }

    constructor ()
      ensures Now() == View(None, 0, 0, 0, false)
    {
      anchor, top, maxTop, manualBack, initialized := None, 0, 0, 0, false;
    }

    /** Wheel movement, clamped to what there is to see. */
    method Offset(current: nat, older: bool, rows: nat) returns (next: nat)
      requires current <= U16_MAX && rows <= U16_MAX
      ensures next == ScrollOffset(Now(), current, older, rows) <= U16_MAX
    {
      if older {
        next := Min(current + Min(rows, top), U16_MAX);
      } else if rows >= Max(0, maxTop - top) {
        next := 0;
      } else {
        next := Max(0, current - rows);
      }
    }

    /** As far as needed for the selected message, to the tail, or by the change of the offset. */
    method Wish(resting: nat, shown: Option<MessageRows>, h: nat, limit: nat, back: nat) returns (now: nat)
      ensures now == Wanted(Now(), resting, shown, h, limit, back)
    {
      now := resting;
      if shown.Some? {
        var range := shown.value;
        if range.start < now || range.end - range.start >= h {
          now := range.start;
        } else if range.end > now + h {
          now := Max(0, range.end - h);
        }
      } else if back == 0 {
        now := limit;
      } else if initialized && back != manualBack {
        now := Clamp(now + (manualBack - back));
      }
    }

    method Place(l: Layout, height: nat, selected: Option<nat>, back: nat) returns (now: nat)
      modifies this
      ensures Now() == Position(old(Now()), l, height, selected, back) && now == top
    {
      var h: nat := Max(1, height);
      var limit := MaxTop(|l.rows|, height);
      var anchored := top;
      if anchor.Some? {
        var range := RangeIn(l.messages, anchor.value.id);
        if range.Some? { anchored := Clamp(range.value.start + anchor.value.offset); }
      }
      now := if !initialized then Max(0, limit - back) else Min(anchored, limit);
      now := Wish(now, Shown(l, selected), h, limit, back);
      now := Min(now, limit);
      var reach := Reaching(l.messages, now);
      anchor := if reach.Some? then Some(Anchor(reach.value.id, now - reach.value.start)) else None;
      top, maxTop, manualBack, initialized := now, limit, back, true;
    }
  }

  // ---------------------------------------------------------------- ranges of a layout

  ghost predicate DistinctRanges(l: Layout) {
    forall i, j :: 0 <= i < j < |l.messages| ==> l.messages[i].id != l.messages[j].id
  }

  /** Ranges lie within the rows; a machine holds no more rows than it can count. */
  ghost predicate Proper(l: Layout) {
    && DistinctRanges(l) && |l.rows| <= USIZE_MAX
    && forall i :: 0 <= i < |l.messages| ==> l.messages[i].start <= l.messages[i].end <= |l.rows|
  }

  lemma {:induction false} RangeInFinds(messages: seq<MessageRows>, id: nat)
    ensures match RangeIn(messages, id)
            case None => forall m :: m in messages ==> m.id != id
            case Some(m) => m in messages && m.id == id
  {
    if messages != [] { RangeInFinds(messages[1..], id); }
  }

  lemma {:induction false} ReachingFinds(messages: seq<MessageRows>, top: nat)
    ensures match Reaching(messages, top)
            case None => forall m :: m in messages ==> m.end <= top
            case Some(m) => m in messages && m.end > top
  {
    if messages != [] { ReachingFinds(messages[1..], top); }
  }

  lemma RangeOfMember(l: Layout, m: MessageRows)
    requires DistinctRanges(l) && m in l.messages
    ensures RangeIn(l.messages, m.id) == Some(m)
  {
    RangeInFinds(l.messages, m.id);
    var i :| 0 <= i < |l.messages| && l.messages[i] == m;
    var n := RangeIn(l.messages, m.id).value;
    var j :| 0 <= j < |l.messages| && l.messages[j] == n;
  }

  /** An anchor remembers where the view was. */
  lemma AnchorHolds(v: View, l: Layout, k: Layout)
    requires Proper(l) && Proper(k) && l.messages <= k.messages
    requires v.initialized && v.anchor == AnchorAt(l, v.top) && v.top <= USIZE_MAX
    ensures forall maxTop: nat, back: nat :: v.top <= maxTop ==> Resting(v, k, maxTop, back) == v.top
  {
    ReachingFinds(l.messages, v.top);
    match Reaching(l.messages, v.top) {
      case None =>
      case Some(m) =>
        assert m in k.messages;
        RangeOfMember(k, m);
    }
  }

  // ---------------------------------------------------------------- one positioning

  /** `v` is the outcome of a positioning in `l`. */
  ghost predicate Positioned(v: View, l: Layout, height: nat) {
    && v.initialized && v.maxTop == MaxTop(|l.rows|, height) && v.top <= v.maxTop
    && v.anchor == AnchorAt(l, v.top)
  }

  /** A message in view: wholly when it is shorter than the window, else from its first line. */
  ghost predicate InView(m: MessageRows, top: nat, height: nat) {
    if m.end - m.start < height then top <= m.start && m.end <= top + height else top == m.start
  }

  /** Whatever the view was before, it ends inside the transcript, with the selected message
      in view, or at the tail when nothing is selected and nothing scrolled back. */
  lemma PositionLands(v: View, l: Layout, height: nat, selected: Option<nat>, back: nat)
    requires Proper(l)
    ensures
      var w := Position(v, l, height, selected, back);
      && Positioned(w, l, height) && w.manualBack == back
      && (Shown(l, selected).Some? ==> InView(Shown(l, selected).value, w.top, Max(1, height)))
      && (Shown(l, selected).None? && back == 0 ==> w.top == w.maxTop)
      && (Shown(l, selected).None? && !v.initialized ==> w.top == Max(0, w.maxTop - back))
  {
    if selected.Some? { RangeInFinds(l.messages, selected.value); }
  }

  function Distance(a: nat, b: nat): nat { if a < b then b - a else a - b }

  /** A view that already stands somewhere moves no further than it must to bring the selected
      message into view; so it stays where it is when the message is in view already. */
  lemma PositionMovesLeast(
      v: View, l: Layout, height: nat, selected: Option<nat>, back: nat, id: nat, later: nat, t: nat)
    requires Proper(l) && Shown(l, Some(id)).Some?
    requires t <= MaxTop(|l.rows|, height) && InView(Shown(l, Some(id)).value, t, Max(1, height))
    ensures
      var w := Position(v, l, height, selected, back);
      Distance(Position(w, l, height, Some(id), later).top, w.top) <= Distance(t, w.top)
  {
    var w := Position(v, l, height, selected, back);
    PositionLands(v, l, height, selected, back);
    AnchorHolds(w, l, l);
    RangeInFinds(l.messages, id);
  }

  /** A further message below, with the same window, moves nothing: neither the view of a kept
      selection, nor that of an unchanged offset other than zero. */
  lemma AppendingKeepsTop(
      v: View, l: Layout, k: Layout, height: nat, selected: Option<nat>, next: Option<nat>, back: nat, later: nat)
    requires Proper(l) && Proper(k) && l.rows <= k.rows && l.messages <= k.messages
    requires
      || (next == selected && Shown(l, selected).Some?)
      || (Shown(l, selected).None? && Shown(k, next).None? && back == later != 0)
    ensures
      var w := Position(v, l, height, selected, back);
      Position(w, k, height, next, later).top == w.top
  {
    var w := Position(v, l, height, selected, back);
    PositionLands(v, l, height, selected, back);
    AnchorHolds(w, l, k);
    if Shown(l, selected).Some? {
      RangeInFinds(l.messages, selected.value);
      RangeOfMember(k, Shown(l, selected).value);
    }
  }

  /** Whatever changes above or below, with nothing selected and the offset unchanged, the view
      stays at the same row of the message it is anchored to, as long as that row can be at the
      top: the view moves by exactly the rows that came or went above that message. */
  lemma ViewFollowsItsMessage(v: View, l: Layout, k: Layout, height: nat, back: nat, m: MessageRows, n: MessageRows)
    requires Proper(l) && Proper(k) && back != 0
    requires
      var w := Position(v, l, height, None, back);
      && Reaching(l.messages, w.top) == Some(m) && n in k.messages && n.id == m.id
      && 0 <= n.start + (w.top - m.start) <= MaxTop(|k.rows|, height)
    ensures
      var w := Position(v, l, height, None, back);
      Position(w, k, height, None, back).top - n.start == w.top - m.start
  {
    PositionLands(v, l, height, None, back);
    RangeOfMember(k, n);
  }

  /** Positioning again changes nothing at all. */
  lemma PositionIsIdempotent(v: View, l: Layout, height: nat, selected: Option<nat>, back: nat)
    requires Proper(l)
    ensures
      var w := Position(v, l, height, selected, back);
      Position(w, l, height, selected, back) == w
  {
    var w := Position(v, l, height, selected, back);
    PositionLands(v, l, height, selected, back);
    if Shown(l, selected).Some? || back != 0 {
      AppendingKeepsTop(v, l, l, height, selected, selected, back, back);
    }
  }

  // ---------------------------------------------------------------- the wheel

  /** A turn of the wheel by some rows; every turn is followed by a drawing of the same
      transcript in the same window, with nothing selected. */
  datatype Turn = Turn(older: bool, rows: nat)

  datatype Wheel = Wheel(view: View, back: nat)

  function Rolled(w: Wheel, l: Layout, height: nat, t: Turn): Wheel {
    var back := ScrollOffset(w.view, w.back, t.older, t.rows);
    Wheel(Position(w.view, l, height, None, back), back)
  }

  function Roll(w: Wheel, l: Layout, height: nat, turns: seq<Turn>): Wheel {
    if turns == [] then w else Rolled(Roll(w, l, height, turns[..|turns| - 1]), l, height, turns[|turns| - 1])
  }

  /** Offset and position agree: no offset beyond what is shown ever builds up. */
  ghost predicate Balanced(w: Wheel, l: Layout, height: nat) {
    && Positioned(w.view, l, height) && w.view.manualBack == w.back <= U16_MAX
    && w.view.top + w.back == w.view.maxTop
  }

  /** One turn keeps the balance and moves by exactly the rows there are: up by what remains
      above (and what the offset can still count), down by what remains below. */
  lemma TurnMoves(w: Wheel, l: Layout, height: nat, t: Turn)
    requires Proper(l) && Balanced(w, l, height)
    ensures
      var x := Rolled(w, l, height, t);
      && Balanced(x, l, height)
      && x.back == (if t.older then w.back + Min(Min(t.rows, w.view.top), U16_MAX - w.back)
                    else w.back - Min(t.rows, w.back))
  {
    AnchorHolds(w.view, l, l);
    PositionLands(w.view, l, height, None, ScrollOffset(w.view, w.back, t.older, t.rows));
  }

  /** In a transcript whose scroll range a sixteen-bit offset can count, an upward turn moves
      by exactly the rows asked for or left; and only in such a transcript is that so at
      every balance. */
  lemma UpwardTurnIsExact(l: Layout, height: nat, w: Wheel, rows: nat)
    requires Proper(l) && Balanced(w, l, height)
    ensures Rolled(w, l, height, Turn(true, rows)).view.top == w.view.top - Min(rows, w.view.top)
       <==> w.back + Min(rows, w.view.top) <= U16_MAX
    ensures MaxTop(|l.rows|, height) <= U16_MAX ==> w.back + Min(rows, w.view.top) <= U16_MAX
  {
    TurnMoves(w, l, height, Turn(true, rows));
  }

  /** The wheel at the tail, with nothing scrolled back. */
  function Tail(v: View, l: Layout, height: nat): Wheel { Wheel(Position(v, l, height, None, 0), 0) }

  /** From the tail, every run of turns stays balanced. */
  lemma {:induction false} RunsStayBalanced(v: View, l: Layout, height: nat, turns: seq<Turn>)
    requires Proper(l)
    ensures Balanced(Roll(Tail(v, l, height), l, height, turns), l, height)
  {
    if turns == [] {
      PositionLands(v, l, height, None, 0);
    } else {
      var before := turns[..|turns| - 1];
      RunsStayBalanced(v, l, height, before);
      TurnMoves(Roll(Tail(v, l, height), l, height, before), l, height, turns[|turns| - 1]);
    }
  }

  function RowsOf(turns: seq<Turn>): nat {
    if turns == [] then 0 else RowsOf(turns[..|turns| - 1]) + turns[|turns| - 1].rows
  }

  /** Downward turns bring the offset back row for row, to zero and the tail in the end. */
  lemma {:induction false} DownwardTurnsReturn(w: Wheel, l: Layout, height: nat, turns: seq<Turn>)
    requires Proper(l) && Balanced(w, l, height) && forall t :: t in turns ==> !t.older
    ensures
      var x := Roll(w, l, height, turns);
      && Balanced(x, l, height) && x.back == Max(0, w.back - RowsOf(turns))
      && (RowsOf(turns) >= w.back ==> x.view.top == x.view.maxTop)
  {
    if turns != [] {
      var before := turns[..|turns| - 1];
      DownwardTurnsReturn(w, l, height, before);
      assert turns[|turns| - 1] in turns;
      TurnMoves(Roll(w, l, height, before), l, height, turns[|turns| - 1]);
    }
  }

  /** Upward turns from the tail add up to the end of the scroll range or of the offset. */
  lemma {:induction false} UpwardTurnsAddUp(v: View, l: Layout, height: nat, turns: seq<Turn>)
    requires Proper(l) && forall t :: t in turns ==> t.older
    ensures
      var x := Roll(Tail(v, l, height), l, height, turns);
      && Balanced(x, l, height)
      && x.back == Min(RowsOf(turns), Min(MaxTop(|l.rows|, height), U16_MAX))
  {
    RunsStayBalanced(v, l, height, turns);
    if turns != [] {
      var before := turns[..|turns| - 1];
      UpwardTurnsAddUp(v, l, height, before);
      assert turns[|turns| - 1] in turns;
      TurnMoves(Roll(Tail(v, l, height), l, height, before), l, height, turns[|turns| - 1]);
    }
  }

  /** The wheel can reach the first row of a transcript exactly when the sixteen-bit offset can
      count its scroll range. */
  lemma WheelReachesTheFirstRow(v: View, l: Layout, height: nat)
    requires Proper(l)
    ensures (exists turns :: Roll(Tail(v, l, height), l, height, turns).view.top == 0)
       <==> MaxTop(|l.rows|, height) <= U16_MAX
  {
    forall turns ensures Balanced(Roll(Tail(v, l, height), l, height, turns), l, height) {
      RunsStayBalanced(v, l, height, turns);
    }
    var all := [Turn(true, MaxTop(|l.rows|, height))];
    UpwardTurnsAddUp(v, l, height, all);
    assert all[..0] == [];
    assert RowsOf(all) == MaxTop(|l.rows|, height);
  }

  // ---------------------------------------------------------------- real transcripts

  lemma LayoutIsProper(visible: seq<Item>, width: nat, hint: Text, options: Options)
    requires DistinctItems(visible) && |LayoutOf(visible, width, hint, options).rows| <= USIZE_MAX
    ensures Proper(LayoutOf(visible, width, hint, options))
  {
    if visible != [] {
      var lane: nat, unread := Max(1, width), FirstUnread(visible);
      var blocks := Blocks(visible, unread, lane, options);
      var l := LayoutTo(visible, unread, lane, blocks, |visible|);
      LayoutIsTidy(visible, unread, lane, blocks, |visible|);
      forall i: nat | i < |visible| ensures l.messages[i].id == visible[i].id
                                    ensures l.messages[i].start <= l.messages[i].end <= |l.rows| {
        assert Ranged(l, visible, blocks, i);
      }
    }
  }

  /** A message that arrives while one reads further up, or while a message shown is selected,
      does not move what is on the screen. */
  lemma NewMessageKeepsView(
      v: View, visible: seq<Item>, m: Item, width: nat, hint: Text, options: Options,
      height: nat, selected: Option<nat>, back: nat)
    requires visible != [] && DistinctItems(visible + [m])
    requires |LayoutOf(visible + [m], width, hint, options).rows| <= USIZE_MAX
    requires match selected case Some(id) => exists x :: x in visible && x.id == id case None => back != 0
    ensures
      var l, k := LayoutOf(visible, width, hint, options), LayoutOf(visible + [m], width, hint, options);
      var w := Position(v, l, height, selected, back);
      Position(w, k, height, selected, back).top == w.top
  {
    var l, k := LayoutOf(visible, width, hint, options), LayoutOf(visible + [m], width, hint, options);
    AppendingExtends(visible, m, width, hint, options);
    assert DistinctItems(visible) by {
      forall i, j | 0 <= i < j < |visible| ensures visible[i].id != visible[j].id {
        assert (visible + [m])[i].id != (visible + [m])[j].id;
      }
    }
    LayoutIsProper(visible, width, hint, options);
    LayoutIsProper(visible + [m], width, hint, options);
    if selected.Some? { ItemIsShown(visible, width, hint, options, selected.value); }
    AppendingKeepsTop(v, l, k, height, selected, selected, back, back);
  }

  lemma ItemIsShown(visible: seq<Item>, width: nat, hint: Text, options: Options, id: nat)
    requires visible != [] && exists x :: x in visible && x.id == id
    ensures RangeIn(LayoutOf(visible, width, hint, options).messages, id).Some?
  {
    var lane: nat, unread := Max(1, width), FirstUnread(visible);
    var blocks := Blocks(visible, unread, lane, options);
    var l := LayoutTo(visible, unread, lane, blocks, |visible|);
    LayoutIsTidy(visible, unread, lane, blocks, |visible|);
    var x :| x in visible && x.id == id;
    var i: nat :| i < |visible| && visible[i] == x;
    assert Ranged(l, visible, blocks, i);
    assert l.messages[i] in l.messages;
    RangeInFinds(l.messages, id);
  }

  /** A bubble has a line between its edges. */
  lemma BubbleRows(m: Item, lane: nat, showAuthor: bool, options: Options)
    ensures |Bubble(m, lane, showAuthor, options)| >= 3
  {
    ContentNotEmpty(m, FrameOf(m, lane, showAuthor).content, showAuthor, options.references);
  }

  lemma {:induction false} RowsAddUp(
      visible: seq<Item>, unread: Option<nat>, lane: nat, blocks: seq<seq<Row>>, n: nat)
    requires n <= |visible| == |blocks| && forall i :: 0 <= i < |blocks| ==> |blocks[i]| >= 3
    ensures |LayoutTo(visible, unread, lane, blocks, n).rows| >= 3 * n
  {
    if n > 0 { RowsAddUp(visible, unread, lane, blocks, n - 1); }
  }

  lemma RowsCount(visible: seq<Item>, width: nat, hint: Text, options: Options)
    ensures |LayoutOf(visible, width, hint, options).rows| >= 3 * |visible|
  {
    var lane: nat, unread := Max(1, width), FirstUnread(visible);
    var blocks := Blocks(visible, unread, lane, options);
    forall i: nat | i < |visible| ensures |blocks[i]| >= 3 {
      BubbleRows(visible[i], lane, ShowsAuthor(visible[i], StartsGroup(visible, unread, i), options), options);
    }
    RowsAddUp(visible, unread, lane, blocks, |visible|);
  }

  /** In a conversation of some twenty-two thousand messages or more the wheel never shows the
      beginning: upward turns of three rows go as far as the offset counts, and there they stop,
      with rows left above. */
  lemma OffsetRunsOut(
      v: View, visible: seq<Item>, width: nat, hint: Text, options: Options, height: nat, turns: seq<Turn>)
    requires DistinctItems(visible) && |LayoutOf(visible, width, hint, options).rows| <= USIZE_MAX
    requires 3 * |visible| > U16_MAX + Max(1, height)
    ensures
      var l := LayoutOf(visible, width, hint, options);
      var x := Roll(Tail(v, l, height), l, height, turns);
      && x.view.top == MaxTop(|l.rows|, height) - x.back > 0
      && ((forall t :: t in turns ==> t == Turn(true, 3)) ==> x.back == Min(3 * |turns|, U16_MAX))
  {
    var l := LayoutOf(visible, width, hint, options);
    RowsCount(visible, width, hint, options);
    LayoutIsProper(visible, width, hint, options);
    RunsStayBalanced(v, l, height, turns);
    if forall t :: t in turns ==> t == Turn(true, 3) {
      ThreesAddUp(turns);
      UpwardTurnsAddUp(v, l, height, turns);
    }
  }

  lemma {:induction false} ThreesAddUp(turns: seq<Turn>)
    requires forall t :: t in turns ==> t == Turn(true, 3)
    ensures RowsOf(turns) == 3 * |turns|
  {
    if turns != [] {
      assert turns[|turns| - 1] in turns;
      var before := turns[..|turns| - 1];
      assert forall t :: t in before ==> t in turns;
      ThreesAddUp(before);
    }
  }
}
