/** The reaction list under a message, and what toggling a reaction does to it
    (crates/mutte-client/src/engine.rs). */
module ReactionLists {
  import opened Common
  import opened Messages
  import opened Reactions

  function ActiveKeys(state: map<Key, bool>): set<Key> {
    set k | k in state && state[k]
  }

  function Active(target: nat, messages: seq<Message>): set<Key> {
    ActiveKeys(StateFor(target, messages))
  }

  // ---------------------------------------------------------------- the program

  method StateOf(messages: seq<Message>, target: nat) returns (state: map<Key, bool>)
    ensures state == StateFor(target, messages)
  {
    ghost var f := Meaning(target);
    var kept := [];
    for i := 0 to |messages|
      invariant kept == Kept(f, messages[..i])
    {
      assert messages[..i + 1][..i] == messages[..i];
      if EventOf(target, messages[i]).Some? {
        kept := kept + [messages[i]];
      }
    }
    assert messages[..|messages|] == messages;
    var events := SortByTime(kept);
    state := map[];
    for i := 0 to |events|
      invariant state == Replay(f, events[..i])
    {
      assert events[..i + 1][..i] == events[..i];
      var event := EventOf(target, events[i]);
      if event.Some? {
        state := state[event.value.key := event.value.active];
      }
    }
    assert events[..|events|] == events;
  }

  datatype Total = Total(count: nat, mine: bool)

  function SaturatingInc(n: nat): nat { if n < 255 then n + 1 else 255 }

  ghost predicate Counts(totals: map<string, Total>, on: set<Key>) {
    forall e ::
      if Side(on, false, e) + Side(on, true, e) == 0 then e !in totals
      else e in totals && Shows(Reaction(e, totals[e].count, totals[e].mine), on)
  }

  function Add(totals: map<string, Total>, k: Key): map<string, Total> {
    var t := if k.emoji in totals then totals[k.emoji] else Total(0, false);
    totals[k.emoji := Total(SaturatingInc(t.count), t.mine || k.mine)]
  }

  lemma AddCounts(totals: map<string, Total>, on: set<Key>, k: Key)
    requires Counts(totals, on) && k !in on
    ensures Counts(Add(totals, k), on + {k})
  {
    forall e ensures
        Side(on + {k}, false, e) == Side(on, false, e) + (if k == Key(false, e) then 1 else 0)
        && Side(on + {k}, true, e) == Side(on, true, e) + (if k == Key(true, e) then 1 else 0)
    {
    }
  }

  method TotalsOf(state: map<Key, bool>) returns (totals: map<string, Total>)
    ensures Counts(totals, ActiveKeys(state))
  {
    totals := map[];
    var todo := state.Keys;
    ghost var seen: set<Key> := {};
    ghost var on := ActiveKeys(state);
    while todo != {}
      invariant todo !! seen && todo + seen == state.Keys
      invariant Counts(totals, seen * on)
      decreases todo
    {
      var k :| k in todo;
      if state[k] {
        AddCounts(totals, seen * on, k);
        totals := Add(totals, k);
        assert (seen + {k}) * on == seen * on + {k};
      } else {
        assert (seen + {k}) * on == seen * on;
      }
      todo, seen := todo - {k}, seen + {k};
    }
    assert seen * on == on;
  }

  /** The lines of `list` are those of the emoji in `seen`. */
  ghost predicate Lines(list: seq<Reaction>, seen: set<string>, on: set<Key>) {
    DistinctEmoji(list) && forall r :: r in list <==> r.emoji in seen && Shows(r, on)
  }

  lemma OneMoreLine(list: seq<Reaction>, seen: set<string>, on: set<Key>, r: Reaction)
    requires Lines(list, seen, on) && r.emoji !in seen && Shows(r, on)
    ensures Lines(list + [r], seen + {r.emoji}, on)
  {
    forall i | 0 <= i < |list| ensures list[i].emoji != r.emoji {
      assert list[i] in list;
    }
    forall x ensures x in list + [r] <==> x.emoji in seen + {r.emoji} && Shows(x, on) {
    }
  }

  method LinesOf(totals: map<string, Total>, ghost on: set<Key>) returns (list: seq<Reaction>)
    requires Counts(totals, on)
    ensures Lines(list, totals.Keys, on)
  {
    list := [];
    var todo := totals.Keys;
    ghost var seen: set<string> := {};
    while todo != {}
      invariant todo !! seen && todo + seen == totals.Keys
      invariant Lines(list, seen, on)
      decreases todo
    {
      var e :| e in todo;
      var r := Reaction(e, totals[e].count, totals[e].mine);
      OneMoreLine(list, seen, on, r);
      list := list + [r];
      todo, seen := todo - {e}, seen + {e};
    }
    assert seen == totals.Keys;
  }

  /** The list shown, whatever order the two tables are walked in. */
  method ReactionsFor(messages: seq<Message>, target: nat) returns (list: seq<Reaction>)
    ensures Listing(list, Active(target, messages))
    ensures DistinctIds(messages) ==> ListsWhatStands(list, messages, target)
  {
    var state := StateOf(messages, target);
    ghost var on := ActiveKeys(state);
    var totals := TotalsOf(state);
    var lines := LinesOf(totals, on);
    SortRanks(lines);
    list := SortReactions(lines);
    assert forall r :: Shows(r, on) ==> r.emoji in totals;
    if DistinctIds(messages) { ListingStands(list, messages, target); }
  }

  // ---------------------------------------------------------------- what the list means

  /** Neither the order of the messages nor the order of the tables shows in the list. */
  lemma ListingIgnoresOrder(target: nat, p: seq<Message>, q: seq<Message>, l: seq<Reaction>, r: seq<Reaction>)
    requires DistinctIds(p) && DistinctIds(q) && forall m :: m in p <==> m in q
    requires Listing(l, Active(target, p)) && Listing(r, Active(target, q))
    ensures l == r
  {
    var f := Meaning(target);
    StateForReads(target, p);
    StateForReads(target, q);
    assert forall e :: Last(f, p, e) <==> Last(f, q, e);
    StateReadsIsUnique(f, p, StateFor(target, p), StateFor(target, q));
    ListingIsUnique(l, r);
  }

  lemma ActiveReads(target: nat, messages: seq<Message>, k: Key)
    requires DistinctIds(messages)
    ensures k in Active(target, messages)
       <==> exists e :: Last(Meaning(target), messages, e) && EventOf(target, e) == Some(Event(k, true))
  {
    var f := Meaning(target);
    StateForReads(target, messages);
    if k in Active(target, messages) {
      var e :| Last(f, messages, e) && f(e).value.key == k;
      assert EventOf(target, e) == Some(Event(k, true));
    }
  }

  ghost predicate Mine(list: seq<Reaction>, emoji: string) {
    exists r :: r in list && r.emoji == emoji && r.mine
  }

  lemma MineIsActive(list: seq<Reaction>, on: set<Key>, emoji: string)
    requires Listing(list, on)
    ensures Mine(list, emoji) <==> Key(true, emoji) in on
  {
    var r := Reaction(emoji, Side(on, false, emoji) + Side(on, true, emoji), true);
    if Key(true, emoji) in on {
      assert Shows(r, on);
      assert r in list;
    }
  }

  /** The own flag is the last own event about the emoji that was not cancelled; a line
      counts sides, so it never exceeds two and the eight-bit counter never saturates. */
  lemma LinesReadLastEvents(target: nat, messages: seq<Message>, list: seq<Reaction>, emoji: string)
    requires DistinctIds(messages) && Listing(list, Active(target, messages))
    ensures Mine(list, emoji)
       <==> exists e :: Last(Meaning(target), messages, e) && EventOf(target, e) == Some(Event(Key(true, emoji), true))
    ensures forall r :: r in list ==> 1 <= r.count <= 2
  {
    MineIsActive(list, Active(target, messages), emoji);
    ActiveReads(target, messages, Key(true, emoji));
  }

  // ---------------------------------------------------------------- in the messages' own fields

  /** The message adds, or removes, this emoji under the target for its side: a reply with just
      that text. An own message that was cancelled says nothing. */
  ghost predicate Says(m: Message, target: nat, mine: bool, emoji: string, added: bool) {
    && m.replyTo == Some(target) && m.mine == mine && !(mine && m.cancelled)
    && ValidReaction(emoji) && m.text == (if added then ADDED else REMOVED) + emoji
  }

  /** The last message of that side about the emoji added it. */
  ghost predicate Stands(messages: seq<Message>, target: nat, mine: bool, emoji: string) {
    exists m :: m in messages && Says(m, target, mine, emoji, true)
             && forall x, b :: x in messages && Says(x, target, mine, emoji, b) && x != m ==> Earlier(x, m)
  }

  lemma SaysIsEvent(m: Message, target: nat, mine: bool, emoji: string, added: bool)
    ensures Says(m, target, mine, emoji, added) <==> EventOf(target, m) == Some(Event(Key(mine, emoji), added))
  {
    ParseInvertsCompose(m, Mark(emoji, added));
  }

  lemma EarlierOrSame(messages: seq<Message>, a: Message, b: Message)
    requires DistinctIds(messages) && a in messages && b in messages
    ensures a == b || Earlier(a, b) || Earlier(b, a)
  {
    var i :| 0 <= i < |messages| && messages[i] == a;
    var j :| 0 <= j < |messages| && messages[j] == b;
    if i < j { assert messages[i].id != messages[j].id; } else if j < i { assert messages[j].id != messages[i].id; }
  }

  lemma LastSays(messages: seq<Message>, target: nat, mine: bool, emoji: string, m: Message)
    requires DistinctIds(messages) && m in messages && Says(m, target, mine, emoji, true)
    ensures Last(Meaning(target), messages, m)
       <==> forall x, b :: x in messages && Says(x, target, mine, emoji, b) && x != m ==> Earlier(x, m)
  {
    var f := Meaning(target);
    SaysIsEvent(m, target, mine, emoji, true);
    forall x, b ensures Says(x, target, mine, emoji, b) <==> f(x) == Some(Event(Key(mine, emoji), b)) {
      SaysIsEvent(x, target, mine, emoji, b);
    }
    if Last(f, messages, m) {
      forall x, b | x in messages && Says(x, target, mine, emoji, b) && x != m ensures Earlier(x, m) {
        EarlierOrSame(messages, x, m);
      }
    }
    if forall x, b :: x in messages && Says(x, target, mine, emoji, b) && x != m ==> Earlier(x, m) {
      forall g | g in messages && f(g).Some? && f(g).value.key == Key(mine, emoji) ensures !Earlier(m, g) {
        assert Says(g, target, mine, emoji, f(g).value.active);
      }
    }
  }

  /** A side's reaction is active exactly when its last word about the emoji was to add it. */
  lemma ActiveStands(target: nat, messages: seq<Message>, mine: bool, emoji: string)
    requires DistinctIds(messages)
    ensures Key(mine, emoji) in Active(target, messages) <==> Stands(messages, target, mine, emoji)
  {
    var k := Key(mine, emoji);
    ActiveReads(target, messages, k);
    if k in Active(target, messages) {
      var e :| Last(Meaning(target), messages, e) && EventOf(target, e) == Some(Event(k, true));
      SaysIsEvent(e, target, mine, emoji, true);
      LastSays(messages, target, mine, emoji, e);
    }
    if Stands(messages, target, mine, emoji) {
      var m :| m in messages && Says(m, target, mine, emoji, true)
               && forall x, b :: x in messages && Says(x, target, mine, emoji, b) && x != m ==> Earlier(x, m);
      SaysIsEvent(m, target, mine, emoji, true);
      LastSays(messages, target, mine, emoji, m);
    }
  }

  /** The list under a message: one line for each emoji that stands on some side, in rank order,
      with the own flag and the number of sides on which it stands. */
  ghost predicate ListsWhatStands(list: seq<Reaction>, messages: seq<Message>, target: nat) {
    && Ranked(list)
    && forall r: Reaction :: r in list <==>
         && (r.mine <==> Stands(messages, target, true, r.emoji))
         && r.count > 0
         && r.count == (if Stands(messages, target, true, r.emoji) then 1 else 0)
                     + (if Stands(messages, target, false, r.emoji) then 1 else 0)
  }

  lemma ListingStands(list: seq<Reaction>, messages: seq<Message>, target: nat)
    requires DistinctIds(messages)
    ensures Listing(list, Active(target, messages)) <==> ListsWhatStands(list, messages, target)
  {
    var on := Active(target, messages);
    forall r: Reaction
      ensures Key(true, r.emoji) in on <==> Stands(messages, target, true, r.emoji)
      ensures Key(false, r.emoji) in on <==> Stands(messages, target, false, r.emoji)
    {
      ActiveStands(target, messages, true, r.emoji);
      ActiveStands(target, messages, false, r.emoji);
    }
  }

  // ---------------------------------------------------------------- toggling

  datatype Outgoing = Outgoing(text: string, replyTo: nat, threadRoot: Option<nat>)

  predicate Reactable(messages: seq<Message>, target: nat) {
    exists m :: m in messages && m.id == target && ParseReaction(m).None?
  }

  /** The reply to send, or None when the emoji or the target is refused. */
  method ToggleReaction(messages: seq<Message>, activeThread: Option<nat>, target: nat, emoji: string)
    returns (r: Option<Outgoing>)
    ensures r.Some? <==> ValidReaction(emoji) && Reactable(messages, target)
    ensures r.Some? ==>
      && r.value.replyTo == target
      && r.value.text == Compose(Mark(emoji, Key(true, emoji) !in Active(target, messages)))
      && exists m :: m in messages && m.id == target && ParseReaction(m).None?
          && r.value.threadRoot ==
             if m.threadRoot.Some? then m.threadRoot
             else if activeThread == Some(target) then Some(target) else None
  {
    if !ValidReaction(emoji) { return None; }
    var i := 0;
    while i < |messages| && (messages[i].id != target || ParseReaction(messages[i]).Some?)
      invariant i <= |messages|
      invariant forall j :: 0 <= j < i ==> messages[j].id != target || ParseReaction(messages[j]).Some?
    {
      i := i + 1;
    }
    if i == |messages| { return None; }
    var found := messages[i];
    var list := ReactionsFor(messages, target);
    var remove := exists x :: x in list && x.emoji == emoji && x.mine;
    MineIsActive(list, Active(target, messages), emoji);
    var text := Compose(Mark(emoji, !remove));
    var thread :=
      if found.threadRoot.Some? then found.threadRoot
      else if activeThread == Some(target) then Some(target) else None;
    r := Some(Outgoing(text, target, thread));
  }

  /** The own message a toggle adds, ordered after the earlier own events for the emoji. */
  ghost predicate Toggles(messages: seq<Message>, target: nat, emoji: string, x: Message) {
    && DistinctIds(messages + [x]) && ValidReaction(emoji)
    && x.mine && !x.cancelled && x.replyTo == Some(target)
    && x.text == Compose(Mark(emoji, Key(true, emoji) !in Active(target, messages)))
    && forall g :: g in messages && EventOf(target, g).Some? && EventOf(target, g).value.key == Key(true, emoji)
         ==> Earlier(g, x)
  }

  function Flip(on: set<Key>, k: Key): set<Key> {
    if k in on then on - {k} else on + {k}
  }

  lemma DistinctPrefix(messages: seq<Message>, x: Message)
    requires DistinctIds(messages + [x])
    ensures DistinctIds(messages)
  {
    forall i, j | 0 <= i < j < |messages| ensures messages[i].id != messages[j].id {
      assert (messages + [x])[i].id != (messages + [x])[j].id;
    }
  }

  lemma OwnMarkIsEvent(x: Message, target: nat, mark: Mark)
    requires x.mine && !x.cancelled && x.replyTo == Some(target)
    requires ValidReaction(mark.emoji) && x.text == Compose(mark)
    ensures EventOf(target, x) == Some(Event(Key(true, mark.emoji), mark.active))
  {
    ParseInvertsCompose(x, mark);
  }

  /** `x` is the last word on its key. */
  ghost predicate LastWord(f: Message -> Option<Event>, messages: seq<Message>, x: Message, e: Event) {
    f(x) == Some(e) && forall g :: g in messages && f(g).Some? && f(g).value.key == e.key ==> Earlier(g, x)
  }

  lemma LastWordDecides(
      f: Message -> Option<Event>, messages: seq<Message>, x: Message, e: Event,
      s: map<Key, bool>, t: map<Key, bool>)
    requires StateReads(f, messages, s) && StateReads(f, messages + [x], t) && LastWord(f, messages, x, e)
    ensures t == s[e.key := e.active]
  {
    LaterEventOverwrites(f, messages, x, s);
    StateReadsIsUnique(f, messages + [x], t, Step(f, s, x));
  }

  lemma SetOne(s: map<Key, bool>, k: Key, active: bool)
    ensures ActiveKeys(s[k := active]) == if active then ActiveKeys(s) + {k} else ActiveKeys(s) - {k}
  {
  }

  lemma LastWordUpdates(messages: seq<Message>, target: nat, x: Message, e: Event)
    requires DistinctIds(messages + [x]) && LastWord(Meaning(target), messages, x, e)
    ensures StateFor(target, messages + [x]) == StateFor(target, messages)[e.key := e.active]
  {
    DistinctPrefix(messages, x);
    StateForReads(target, messages);
    StateForReads(target, messages + [x]);
    LastWordDecides(Meaning(target), messages, x, e, StateFor(target, messages), StateFor(target, messages + [x]));
  }

  lemma LastWordSetsKey(messages: seq<Message>, target: nat, x: Message, e: Event)
    requires DistinctIds(messages + [x]) && LastWord(Meaning(target), messages, x, e)
    ensures Active(target, messages + [x])
         == if e.active then Active(target, messages) + {e.key} else Active(target, messages) - {e.key}
  {
    LastWordUpdates(messages, target, x, e);
    SetOne(StateFor(target, messages), e.key, e.active);
  }

  lemma ToggleIsLastWord(messages: seq<Message>, target: nat, emoji: string, x: Message, active: bool)
    requires Toggles(messages, target, emoji, x) && active == (Key(true, emoji) !in Active(target, messages))
    ensures LastWord(Meaning(target), messages, x, Event(Key(true, emoji), active))
  {
    OwnMarkIsEvent(x, target, Mark(emoji, active));
  }

  lemma ToggleFlipsKey(messages: seq<Message>, target: nat, emoji: string, x: Message)
    requires Toggles(messages, target, emoji, x)
    ensures Active(target, messages + [x]) == Flip(Active(target, messages), Key(true, emoji))
  {
    var k := Key(true, emoji);
    var active := k !in Active(target, messages);
    ToggleIsLastWord(messages, target, emoji, x, active);
    LastWordSetsKey(messages, target, x, Event(k, active));
  }

  lemma FlipShows(on: set<Key>, emoji: string, r: Reaction)
    ensures r.emoji != emoji ==> (Shows(r, Flip(on, Key(true, emoji))) <==> Shows(r, on))
    ensures r.emoji == emoji && Shows(r, on) && !r.mine
        ==> Shows(Reaction(emoji, r.count + 1, true), Flip(on, Key(true, emoji)))
    ensures r.emoji == emoji && Shows(r, on) && r.mine && r.count > 1
        ==> Shows(Reaction(emoji, r.count - 1, false), Flip(on, Key(true, emoji)))
  {
  }

  ghost predicate Listed(list: seq<Reaction>, emoji: string) {
    exists r :: r in list && r.emoji == emoji
  }

  lemma ListedIsActive(list: seq<Reaction>, on: set<Key>, emoji: string)
    requires Listing(list, on)
    ensures Listed(list, emoji) <==> Key(true, emoji) in on || Key(false, emoji) in on
  {
    var r := Reaction(emoji, Side(on, false, emoji) + Side(on, true, emoji), Key(true, emoji) in on);
    if Key(true, emoji) in on || Key(false, emoji) in on {
      assert Shows(r, on);
      assert r in list;
    }
  }

  lemma FirstAndLastLine(on: set<Key>, emoji: string, before: seq<Reaction>, after: seq<Reaction>)
    requires Listing(before, on) && Listing(after, Flip(on, Key(true, emoji)))
    ensures forall r :: r in before && r.emoji == emoji && r.mine && r.count == 1 ==> !Listed(after, emoji)
    ensures !Listed(before, emoji) ==> Reaction(emoji, 1, true) in after
  {
    ListedIsActive(before, on, emoji);
    ListedIsActive(after, Flip(on, Key(true, emoji)), emoji);
    if !Listed(before, emoji) { assert Shows(Reaction(emoji, 1, true), Flip(on, Key(true, emoji))); }
  }

  /** A toggle flips exactly the own reaction: every other line stays as it is, the emoji's
      own flag turns over, and the others' side of its count is untouched. */
  lemma ToggleFlipsOwnReaction(
      messages: seq<Message>, target: nat, emoji: string, x: Message, before: seq<Reaction>, after: seq<Reaction>)
    requires Toggles(messages, target, emoji, x)
    requires Listing(before, Active(target, messages)) && Listing(after, Active(target, messages + [x]))
    ensures Mine(after, emoji) <==> !Mine(before, emoji)
    ensures forall r: Reaction :: r.emoji != emoji ==> (r in after <==> r in before)
    ensures forall r :: r in before && r.emoji == emoji && !r.mine ==> Reaction(emoji, r.count + 1, true) in after
    ensures forall r ::
      r in before && r.emoji == emoji && r.mine && r.count > 1 ==> Reaction(emoji, r.count - 1, false) in after
    ensures forall r :: r in before && r.emoji == emoji && r.mine && r.count == 1 ==> !Listed(after, emoji)
    ensures !Listed(before, emoji) ==> Reaction(emoji, 1, true) in after
  {
    ToggleFlipsKey(messages, target, emoji, x);
    MineIsActive(before, Active(target, messages), emoji);
    MineIsActive(after, Active(target, messages + [x]), emoji);
    FirstAndLastLine(Active(target, messages), emoji, before, after);
    forall r: Reaction { FlipShows(Active(target, messages), emoji, r); }
  }

  lemma SameKeysSameList(on: set<Key>, k: Key, before: seq<Reaction>, after: seq<Reaction>)
    requires Listing(before, on) && Listing(after, Flip(Flip(on, k), k))
    ensures before == after
  {
    assert Flip(Flip(on, k), k) == on;
    ListingIsUnique(before, after);
  }

  /** Toggling twice restores the list. */
  lemma TogglesCancelOut(
      messages: seq<Message>, target: nat, emoji: string, x: Message, y: Message,
      before: seq<Reaction>, after: seq<Reaction>)
    requires Toggles(messages, target, emoji, x) && Toggles(messages + [x], target, emoji, y)
    requires Listing(before, Active(target, messages)) && Listing(after, Active(target, messages + [x] + [y]))
    ensures before == after
  {
    ToggleFlipsKey(messages, target, emoji, x);
    ToggleFlipsKey(messages + [x], target, emoji, y);
    SameKeysSameList(Active(target, messages), Key(true, emoji), before, after);
  }
}
