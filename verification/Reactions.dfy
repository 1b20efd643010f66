/** Reactions folded from a conversation's messages (crates/mutte-client/src/engine.rs). */
module Reactions {
  import opened Common
  import opened Messages
  import opened Chars

  // ---------------------------------------------------------------- reaction texts

  predicate ValidReaction(emoji: string) {
    && emoji != [] && Utf8Length(emoji) <= 64 && |emoji| <= 12
    && (forall c :: c in emoji ==> !IsControl(c) && !IsWhitespace(c))
    && exists c :: c in emoji && !IsAsciiAlphanumeric(c)
  }

  datatype Mark = Mark(emoji: string, active: bool)

  const ADDED := "Reaction: "
  const REMOVED := "Reaction removed: "

  /** The fallback text under which a reaction travels. */
  function Compose(mark: Mark): string {
    (if mark.active then ADDED else REMOVED) + mark.emoji
  }

  function StripPrefix(text: string, prefix: string): Option<string> {
    if prefix <= text then Some(text[|prefix|..]) else None
  }

  function ParseReaction(m: Message): Option<Mark> {
    if m.replyTo.None? || '\r' in m.text || '\n' in m.text then None
    else
      var mark :=
        match StripPrefix(m.text, ADDED)
        case Some(emoji) => Some(Mark(emoji, true))
        case None =>
          match StripPrefix(m.text, REMOVED)
          case Some(emoji) => Some(Mark(emoji, false))
          case None => None;
      if mark.Some? && ValidReaction(mark.value.emoji) then mark else None
  }

  lemma StripInverts(text: string, prefix: string, rest: string)
    ensures StripPrefix(text, prefix) == Some(rest) <==> text == prefix + rest
    ensures StripPrefix(text, prefix).None? ==> forall r :: text != prefix + r
  {
    if prefix <= text {
      assert text == prefix + text[|prefix|..];
    }
    assert (prefix + rest)[|prefix|..] == rest;
  }

  lemma PrefixesDiffer(text: string, emoji: string)
    requires text == REMOVED + emoji
    ensures StripPrefix(text, ADDED).None?
  {
    assert ADDED[8] == ':' && text[8] == ' ';
  }

  lemma NoLineBreaks(mark: Mark)
    requires ValidReaction(mark.emoji)
    ensures '\r' !in Compose(mark) && '\n' !in Compose(mark)
  {
    assert IsControl('\r') && IsControl('\n');
  }

  /** Reading inverts writing: a message is read as a mark exactly when it is the mark's own
      text, sent as a reply, with a valid emoji. */
  lemma ParseInvertsCompose(m: Message, mark: Mark)
    ensures ParseReaction(m) == Some(mark)
       <==> m.replyTo.Some? && ValidReaction(mark.emoji) && m.text == Compose(mark)
  {
    StripInverts(m.text, ADDED, mark.emoji);
    StripInverts(m.text, REMOVED, mark.emoji);
    if m.text == REMOVED + mark.emoji { PrefixesDiffer(m.text, mark.emoji); }
    if ValidReaction(mark.emoji) { NoLineBreaks(mark); }
  }

  // ---------------------------------------------------------------- events

  /** The program keeps one entry for this device's owner and one for everybody else. */
  datatype Key = Key(mine: bool, emoji: string)

  datatype Event = Event(key: Key, active: bool)

  function EventOf(target: nat, m: Message): Option<Event> {
    if m.replyTo != Some(target) || (m.mine && m.cancelled) then None
    else
      match ParseReaction(m)
      case Some(mark) => Some(Event(Key(m.mine, mark.emoji), mark.active))
      case None => None
  }

  function Meaning(target: nat): Message -> Option<Event> {
    m => EventOf(target, m)
  }

  function Step(f: Message -> Option<Event>, state: map<Key, bool>, m: Message): map<Key, bool> {
    if f(m).Some? then state[f(m).value.key := f(m).value.active] else state
  }

  function Replay(f: Message -> Option<Event>, es: seq<Message>): map<Key, bool> {
    if es == [] then map[] else Step(f, Replay(f, es[..|es| - 1]), es[|es| - 1])
  }

  ghost predicate Last(f: Message -> Option<Event>, ms: seq<Message>, e: Message) {
    && e in ms && f(e).Some?
    && forall g :: g in ms && f(g).Some? && f(g).value.key == f(e).value.key ==> !Earlier(e, g)
  }

  /** Each key holds what its last event says. */
  ghost predicate StateReads(f: Message -> Option<Event>, ms: seq<Message>, state: map<Key, bool>) {
    && (forall e :: Last(f, ms, e) ==> f(e).value.key in state && state[f(e).value.key] == f(e).value.active)
    && (forall k :: k in state ==> exists e :: Last(f, ms, e) && f(e).value.key == k)
  }

  lemma StateReadsIsUnique(f: Message -> Option<Event>, ms: seq<Message>, s: map<Key, bool>, t: map<Key, bool>)
    requires StateReads(f, ms, s) && StateReads(f, ms, t)
    ensures s == t
  {
    StatesAgree(f, ms, s, t);
    StatesAgree(f, ms, t, s);
  }

  lemma StatesAgree(f: Message -> Option<Event>, ms: seq<Message>, s: map<Key, bool>, t: map<Key, bool>)
    requires StateReads(f, ms, s) && StateReads(f, ms, t)
    ensures forall k :: k in s ==> k in t && t[k] == s[k]
  {
    forall k | k in s ensures k in t && t[k] == s[k] {
      var e :| Last(f, ms, e) && f(e).value.key == k;
    }
  }

  /** An event later than every event of its key overwrites that key and nothing else. */
  lemma LaterEventOverwrites(f: Message -> Option<Event>, ms: seq<Message>, x: Message, state: map<Key, bool>)
    requires StateReads(f, ms, state)
    requires forall g :: g in ms && f(g).Some? && f(x).Some? && f(g).value.key == f(x).value.key ==> Earlier(g, x)
    ensures StateReads(f, ms + [x], Step(f, state, x))
  {
    var more := ms + [x];
    assert forall m :: m in more <==> m in ms || m == x;
    forall e ensures Last(f, more, e) <==>
                     if f(x).Some? && f(e).Some? && f(e).value.key == f(x).value.key then e == x else Last(f, ms, e) {
    }
    forall k | k in Step(f, state, x) ensures exists e :: Last(f, more, e) && f(e).value.key == k {
      if f(x).Some? && k == f(x).value.key {
        assert Last(f, more, x);
      } else {
        var e :| Last(f, ms, e) && f(e).value.key == k;
        assert Last(f, more, e);
      }
    }
  }

  lemma {:induction false} ReplayReads(f: Message -> Option<Event>, es: seq<Message>)
    requires StrictlyOrdered(es)
    ensures StateReads(f, es, Replay(f, es))
  {
    if es != [] {
      var n := |es| - 1;
      ReplayReads(f, es[..n]);
      LaterEventOverwrites(f, es[..n], es[n], Replay(f, es[..n]));
      assert es == es[..n] + [es[n]];
    }
  }

  function Kept(f: Message -> Option<Event>, ms: seq<Message>): (r: seq<Message>)
    ensures forall m :: m in r <==> m in ms && f(m).Some?
  {
    if ms == [] then []
    else
      var rest := Kept(f, ms[..|ms| - 1]);
      assert forall m :: m in ms <==> m in ms[..|ms| - 1] || m == ms[|ms| - 1];
      if f(ms[|ms| - 1]).Some? then rest + [ms[|ms| - 1]] else rest
  }

  lemma {:induction false} KeptIsDistinct(f: Message -> Option<Event>, ms: seq<Message>)
    requires DistinctIds(ms)
    ensures DistinctIds(Kept(f, ms))
  {
    if ms != [] {
      var n := |ms| - 1;
      KeptIsDistinct(f, ms[..n]);
      forall m | m in Kept(f, ms[..n]) ensures m.id != ms[n].id {
        assert m in ms[..n];
      }
    }
  }

  /** The table the program builds. */
  function StateFor(target: nat, messages: seq<Message>): map<Key, bool> {
    Replay(Meaning(target), SortByTime(Kept(Meaning(target), messages)))
  }

  /** It holds, for this owner and for the others, what the last event about each emoji says,
      however the messages are listed. */
  lemma StateForReads(target: nat, messages: seq<Message>)
    requires DistinctIds(messages)
    ensures StateReads(Meaning(target), messages, StateFor(target, messages))
  {
    var f := Meaning(target);
    KeptIsDistinct(f, messages);
    SortSpec(Kept(f, messages));
    SortIsStrict(Kept(f, messages));
    var es := SortByTime(Kept(f, messages));
    ReplayReads(f, es);
    assert forall e :: Last(f, messages, e) <==> Last(f, es, e);
  }

  // ---------------------------------------------------------------- the list shown

  datatype Reaction = Reaction(emoji: string, count: nat, mine: bool)

  /** thumbs up, heart, tears of joy, open mouth, crying, thumbs down */
  const PREFERRED := ["\U{1F44D}", "\U{2764}\U{FE0F}", "\U{1F602}", "\U{1F62E}", "\U{1F622}", "\U{1F44E}"]

  const USIZE_MAX: nat := 0xFFFF_FFFF_FFFF_FFFF

  function Position(list: seq<string>, x: string): Option<nat> {
    if list == [] then None
    else if list[0] == x then Some(0)
    else
      match Position(list[1..], x)
      case Some(i) => Some(i + 1)
      case None => None
  }

  function Rank(emoji: string): nat { Position(PREFERRED, emoji).GetOr(USIZE_MAX) }

  /** String comparison; on UTF-8 bytes it is the same order as on code points. */
  predicate Less(a: string, b: string) {
    b != [] && (a == [] || a[0] < b[0] || (a[0] == b[0] && Less(a[1..], b[1..])))
  }

  lemma {:induction false} LessIsStrict(a: string, b: string, c: string)
    ensures !Less(a, a)
    ensures Less(a, b) && Less(b, c) ==> Less(a, c)
    ensures a == b || Less(a, b) || Less(b, a)
    decreases |a|
  {
    if a != [] {
      var b' := if b == [] then [] else b[1..];
      LessIsStrict(a[1..], b', if c == [] then [] else c[1..]);
      assert a == [a[0]] + a[1..] && (b != [] ==> b == [b[0]] + b');
    }
  }

  /** `Before` for a given ranking. */
  predicate Precedes(i: nat, a: string, j: nat, b: string) {
    i < j || (i == j && Less(a, b))
  }

  predicate Before(l: Reaction, r: Reaction) {
    Precedes(Rank(l.emoji), l.emoji, Rank(r.emoji), r.emoji)
  }

  lemma BeforeIsStrict(a: Reaction, b: Reaction, c: Reaction)
    ensures !Before(a, a)
    ensures Before(a, b) && Before(b, c) ==> Before(a, c)
    ensures a.emoji == b.emoji || Before(a, b) || Before(b, a)
  {
    LessIsStrict(a.emoji, b.emoji, c.emoji);
    PrecedesIsStrict(Rank(a.emoji), a.emoji, Rank(b.emoji), b.emoji, Rank(c.emoji), c.emoji);
  }

  lemma PrecedesIsStrict(i: nat, a: string, j: nat, b: string, k: nat, c: string)
    ensures !Precedes(i, a, i, a)
    ensures Precedes(i, a, j, b) && Precedes(j, b, k, c) ==> Precedes(i, a, k, c)
    ensures a == b || Precedes(i, a, j, b) || Precedes(j, b, i, a)
  {
    LessIsStrict(a, b, c);
  }

  ghost predicate Ranked(list: seq<Reaction>) {
    forall i, j :: 0 <= i < j < |list| ==> Before(list[i], list[j])
  }

  lemma {:induction false} PositionFinds(list: seq<string>, x: string)
    ensures match Position(list, x)
            case None => x !in list
            case Some(i) => i < |list| && list[i] == x && forall j :: 0 <= j < i ==> list[j] != x
  {
    if list != [] {
      PositionFinds(list[1..], x);
      assert list == [list[0]] + list[1..];
    }
  }

  /** The six preferred emoji come first, in their own order; all others follow in the order of
      their text. */
  lemma RankedMeans(list: seq<Reaction>, i: nat, j: nat)
    requires Ranked(list) && i < j < |list|
    ensures list[j].emoji in PREFERRED ==>
      exists p, q :: 0 <= p < q < |PREFERRED| && PREFERRED[p] == list[i].emoji && PREFERRED[q] == list[j].emoji
    ensures list[i].emoji !in PREFERRED ==> list[j].emoji !in PREFERRED && Less(list[i].emoji, list[j].emoji)
  {
    var a, b := list[i].emoji, list[j].emoji;
    PositionFinds(PREFERRED, a);
    PositionFinds(PREFERRED, b);
    assert Before(list[i], list[j]);
    if b in PREFERRED {
      LessIsStrict(a, a, a);
      assert Position(PREFERRED, a).Some?;
      var p, q := Position(PREFERRED, a).value, Position(PREFERRED, b).value;
      assert p < q && PREFERRED[p] == a && PREFERRED[q] == b;
    }
  }

  function Side(on: set<Key>, mine: bool, emoji: string): nat {
    if Key(mine, emoji) in on then 1 else 0
  }

  /** What one line of the list says about the active keys. */
  predicate Shows(r: Reaction, on: set<Key>) {
    && 0 < r.count == Side(on, false, r.emoji) + Side(on, true, r.emoji)
    && (r.mine <==> Key(true, r.emoji) in on)
  }

  /** The list for a set of active keys: one line an emoji, in rank order. */
  ghost predicate Listing(list: seq<Reaction>, on: set<Key>) {
    Ranked(list) && forall r :: r in list <==> Shows(r, on)
  }

  lemma {:induction false} ListingIsUnique(p: seq<Reaction>, q: seq<Reaction>)
    requires Ranked(p) && Ranked(q) && forall r :: r in p <==> r in q
    ensures p == q
  {
    if p == [] {
      if q != [] { SameFirst(q, p); }
    } else {
      SameFirst(p, q);
      forall r ensures r in p[1..] <==> r in q[1..] {
        TailMember(p, r);
        TailMember(q, r);
      }
      ListingIsUnique(p[1..], q[1..]);
      assert p == [p[0]] + p[1..] && q == [q[0]] + q[1..];
    }
  }

  lemma TailMember(p: seq<Reaction>, r: Reaction)
    requires Ranked(p) && p != []
    ensures r in p[1..] <==> r in p && r != p[0]
  {
    assert p == [p[0]] + p[1..];
    BeforeIsStrict(p[0], p[0], p[0]);
  }

  lemma SameFirst(p: seq<Reaction>, q: seq<Reaction>)
    requires Ranked(p) && Ranked(q) && p != [] && forall r :: r in p <==> r in q
    ensures q != [] && p[0] == q[0]
  {
    assert p[0] in p;
    assert q[0] in q;
    var i :| 0 <= i < |q| && q[i] == p[0];
    var j :| 0 <= j < |p| && p[j] == q[0];
    BeforeIsStrict(p[0], q[0], p[0]);
  }

  function Insert(r: Reaction, list: seq<Reaction>): seq<Reaction> {
    if list != [] && Before(list[0], r) then [list[0]] + Insert(r, list[1..]) else [r] + list
  }

  function SortReactions(list: seq<Reaction>): seq<Reaction> {
    if list == [] then [] else Insert(list[0], SortReactions(list[1..]))
  }

  lemma {:induction false} InsertRanks(r: Reaction, list: seq<Reaction>)
    requires Ranked(list) && forall x :: x in list ==> x.emoji != r.emoji
    ensures Ranked(Insert(r, list)) && forall x :: x in Insert(r, list) <==> x == r || x in list
  {
    if list != [] {
      assert list == [list[0]] + list[1..];
      BeforeIsStrict(r, list[0], r);
      if Before(list[0], r) {
        InsertRanks(r, list[1..]);
        var rest := Insert(r, list[1..]);
        assert forall j :: 0 <= j < |rest| ==> rest[j] in rest;
      } else {
        forall j | 0 <= j < |list| ensures Before(r, list[j]) {
          BeforeIsStrict(r, list[0], list[j]);
        }
      }
    }
  }

  ghost predicate DistinctEmoji(list: seq<Reaction>) {
    forall i, j :: 0 <= i < j < |list| ==> list[i].emoji != list[j].emoji
  }

  lemma {:induction false} SortRanks(list: seq<Reaction>)
    requires DistinctEmoji(list)
    ensures Ranked(SortReactions(list)) && forall x :: x in SortReactions(list) <==> x in list
  {
    if list != [] {
      SortRanks(list[1..]);
      assert list == [list[0]] + list[1..];
      InsertRanks(list[0], SortReactions(list[1..]));
    }
  }
}
