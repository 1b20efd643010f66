/** Polls folded from a conversation's authenticated events (crates/mutte-client/src/polls.rs). */
module Polls {
  import opened Common
  import opened Messages

  const LOCAL_VOTER := "\U{0}mutte-local-author"

  predicate ValidCreate(w: Wire) {
    && w.question.Some? && w.options.Some?
    && !w.question.value.blank && w.question.value.graphemes <= 120
    && 2 <= |w.options.value| <= 5
    && (forall o :: o in w.options.value ==> !o.blank && o.graphemes <= 60)
    && |set o | o in w.options.value :: o.canonical| == |w.options.value|
    && w.multiple.Some? && w.selections.None?
  }

  function Members<T>(s: seq<T>): set<T> { set x | x in s }

  predicate ValidVote(w: Wire) {
    && w.selections.Some?
    && |w.selections.value| <= 5
    && (forall i :: i in w.selections.value ==> i < 5)
    && |Members(w.selections.value)| == |w.selections.value|
    && w.question.None? && w.options.None? && w.multiple.None?
  }

  predicate ValidClose(w: Wire) {
    w.question.None? && w.options.None? && w.multiple.None? && w.selections.None?
  }

  function Parse(m: Message): Option<Wire> {
    if m.wire.None? || m.wire.value.version != 1 then None
    else
      var w := m.wire.value;
      if (w.kind == "create" && ValidCreate(w)) || (w.kind == "vote" && ValidVote(w)) || (w.kind == "close" && ValidClose(w))
      then Some(w) else None
  }

  datatype PollState = PollState(
    question: Label, options: seq<Label>, multiple: bool, closed: bool, votes: map<string, seq<nat>>)

  function Voter(m: Message): string { if m.mine then LOCAL_VOTER else m.handle }

  function Opened(root: Message): Option<PollState> {
    if root.attachment || root.cancelled then None
    else
      var w := Parse(root);
      if w.None? || w.value.kind != "create" then None
      else Some(PollState(w.value.question.value, w.value.options.value, w.value.multiple.value, false, map[]))
  }

  predicate InScope(root: Message, e: Message) {
    && e.replyTo == Some(root.id)
    && e.threadRoot == root.threadRoot
    && !e.attachment && !e.cancelled
  }

  predicate Allowed(s: PollState, selections: seq<nat>) {
    (forall i :: i in selections ==> i < |s.options|) && (!s.multiple ==> |selections| <= 1)
  }

  /** One event of the sorted list. */
  function Apply(root: Message, s: PollState, e: Message): PollState {
    if s.closed || !InScope(root, e) || Parse(e).None? then s
    else
      var w := Parse(e).value;
      if w.kind == "close" then
        if Voter(e) == Voter(root) then s.(closed := true) else s
      else if w.kind == "vote" && Allowed(s, w.selections.value) then
        if w.selections.value == [] then s.(votes := s.votes - {Voter(e)})
        else s.(votes := s.votes[Voter(e) := w.selections.value])
      else s
  }

  function ApplyAll(root: Message, s: PollState, es: seq<Message>): PollState {
    if es == [] then s else Apply(root, ApplyAll(root, s, es[..|es| - 1]), es[|es| - 1])
  }

  function Folded(root: Message, messages: seq<Message>): Option<PollState> {
    if Opened(root).None? then None else Some(ApplyAll(root, Opened(root).value, SortByTime(messages)))
  }

  lemma ApplyAllNext(root: Message, s: PollState, es: seq<Message>, i: nat)
    requires i < |es|
    ensures ApplyAll(root, s, es[..i + 1]) == Apply(root, ApplyAll(root, s, es[..i]), es[i])
  {
    assert es[..i + 1][..i] == es[..i];
  }

  /** The fold as the program runs it. */
  method Fold(root: Message, messages: seq<Message>) returns (r: Option<PollState>)
    ensures r == Folded(root, messages)
  {
    if root.attachment || root.cancelled { return None; }
    var wire := Parse(root);
    if wire.None? || wire.value.kind != "create" { return None; }
    var state := PollState(wire.value.question.value, wire.value.options.value, wire.value.multiple.value, false, map[]);
    var events := SortByTime(messages);
    for i := 0 to |events|
      invariant state == ApplyAll(root, Opened(root).value, events[..i])
    {
      ApplyAllNext(root, Opened(root).value, events, i);
      var event := events[i];
      if state.closed || event.replyTo != Some(root.id) || event.threadRoot != root.threadRoot
         || event.attachment || event.cancelled {
        continue;
      }
      var parsed := Parse(event);
      if parsed.None? { continue; }
      var w := parsed.value;
      var voter := Voter(event);
      if w.kind == "close" && voter == Voter(root) {
        state := state.(closed := true);
      }
      if w.kind == "vote" {
        if w.selections.None? { return None; }
        var selections := w.selections.value;
        if (exists i :: i in selections && i >= |state.options|) || (!state.multiple && |selections| > 1) {
          continue;
        }
        if selections == [] {
          state := state.(votes := state.votes - {voter});
        } else {
          state := state.(votes := state.votes[voter := selections]);
        }
      }
    }
    assert events[..|events|] == events;
    r := Some(state);
  }

  // ---------------------------------------------------------------- effects of events

  /** What an event can do to an open poll, whatever happened before. */
  datatype Effect = Nothing | Close | Vote(voter: string, choice: seq<nat>)

  function EffectOf(root: Message, poll: PollState, e: Message): Effect {
    if !InScope(root, e) || Parse(e).None? then Nothing
    else
      var w := Parse(e).value;
      if w.kind == "close" && Voter(e) == Voter(root) then Close
      else if w.kind == "vote" && Allowed(poll, w.selections.value) then Vote(Voter(e), w.selections.value)
      else Nothing
  }

  datatype Tally = Tally(closed: bool, votes: map<string, seq<nat>>)

  function Count(t: Tally, f: Effect): Tally {
    if t.closed then t
    else match f
      case Nothing => t
      case Close => t.(closed := true)
      case Vote(voter, choice) => t.(votes := if choice == [] then t.votes - {voter} else t.votes[voter := choice])
  }

  function CountAll(fs: seq<Effect>): Tally {
    if fs == [] then Tally(false, map[]) else Count(CountAll(fs[..|fs| - 1]), fs[|fs| - 1])
  }

  /** The meaning of every message for this poll, as one function. */
  function Meaning(root: Message, poll: PollState): Message -> Effect {
    e => EffectOf(root, poll, e)
  }

  function Effects(f: Message -> Effect, es: seq<Message>): (fs: seq<Effect>)
    ensures |fs| == |es| && forall i :: 0 <= i < |es| ==> fs[i] == f(es[i])
  {
    seq(|es|, i requires 0 <= i < |es| => f(es[i]))
  }

  ghost predicate SameQuestion(s: PollState, t: PollState) {
    s.question == t.question && s.options == t.options && s.multiple == t.multiple
  }

  lemma ApplyIsCount(root: Message, poll: PollState, s: PollState, e: Message)
    requires SameQuestion(s, poll)
    ensures SameQuestion(Apply(root, s, e), poll)
    ensures Tally(Apply(root, s, e).closed, Apply(root, s, e).votes)
         == Count(Tally(s.closed, s.votes), EffectOf(root, poll, e))
  {
  }

  lemma {:induction false} ApplyAllIsCountAll(root: Message, poll: PollState, es: seq<Message>)
    requires !poll.closed && poll.votes == map[]
    ensures
      var s := ApplyAll(root, poll, es);
      SameQuestion(s, poll) && Tally(s.closed, s.votes) == CountAll(Effects(Meaning(root, poll), es))
  {
    if es != [] {
      var ds := es[..|es| - 1];
      ApplyAllIsCountAll(root, poll, ds);
      ApplyIsCount(root, poll, ApplyAll(root, poll, ds), es[|es| - 1]);
      assert Effects(Meaning(root, poll), es)[..|es| - 1] == Effects(Meaning(root, poll), ds);
    }
  }

  // ---------------------------------------------------------------- reading by position

  ghost predicate CountsAt(fs: seq<Effect>, i: nat) {
    i < |fs| && fs[i].Vote? && forall j :: 0 <= j < i ==> fs[j] != Close
  }

  ghost predicate DecidesAt(fs: seq<Effect>, i: nat) {
    CountsAt(fs, i) && forall j :: i < j < |fs| && CountsAt(fs, j) ==> fs[j].voter != fs[i].voter
  }

  ghost predicate ReadsAt(fs: seq<Effect>, t: Tally) {
    && (t.closed <==> Close in fs)
    && (forall i: nat :: DecidesAt(fs, i) ==>
          if fs[i].choice == [] then fs[i].voter !in t.votes
          else fs[i].voter in t.votes && t.votes[fs[i].voter] == fs[i].choice)
    && (forall v :: v in t.votes ==> exists i: nat :: DecidesAt(fs, i) && fs[i].voter == v)
  }

  lemma {:induction false} CountAllReads(fs: seq<Effect>)
    ensures ReadsAt(fs, CountAll(fs))
  {
    if fs != [] {
      var n := |fs| - 1;
      CountAllReads(fs[..n]);
      assert fs == fs[..n] + [fs[n]];
      ReadsOneMore(fs[..n], fs[n], CountAll(fs[..n]));
    }
  }

  lemma CountsOneMore(es: seq<Effect>, f: Effect, closed: bool)
    requires closed <==> Close in es
    ensures forall i: nat :: i < |es| ==> (CountsAt(es + [f], i) <==> CountsAt(es, i))
    ensures CountsAt(es + [f], |es|) <==> f.Vote? && !closed
  {
    var fs := es + [f];
    forall i: nat | i < |es| ensures CountsAt(fs, i) <==> CountsAt(es, i) {
      assert forall j :: 0 <= j <= i ==> fs[j] == es[j];
    }
    if closed {
      var j :| 0 <= j < |es| && es[j] == Close;
      assert fs[j] == Close;
    } else {
      assert forall j :: 0 <= j < |es| ==> fs[j] == es[j] && es[j] in es;
    }
  }

  /** A further vote that counts takes over its voter's decision and no other. */
  lemma DecidesOneMore(es: seq<Effect>, f: Effect, closed: bool, i: nat)
    requires (closed <==> Close in es) && i < |es|
    ensures DecidesAt(es + [f], i) <==> DecidesAt(es, i) && !(f.Vote? && !closed && f.voter == es[i].voter)
  {
    var fs := es + [f];
    CountsOneMore(es, f, closed);
    assert fs[i] == es[i] && fs[|es|] == f;
    if DecidesAt(es, i) && !(f.Vote? && !closed && f.voter == es[i].voter) {
      forall j | i < j < |fs| && CountsAt(fs, j) ensures fs[j].voter != fs[i].voter {
        if j < |es| { assert CountsAt(es, j) && fs[j] == es[j]; }
      }
    }
    if DecidesAt(fs, i) {
      forall j | i < j < |es| && CountsAt(es, j) ensures es[j].voter != es[i].voter {
        assert CountsAt(fs, j) && fs[j] == es[j];
      }
    }
  }

  lemma LastDecides(es: seq<Effect>, f: Effect, closed: bool)
    requires closed <==> Close in es
    ensures DecidesAt(es + [f], |es|) <==> f.Vote? && !closed
  {
    CountsOneMore(es, f, closed);
  }

  lemma ReadsOneMore(es: seq<Effect>, f: Effect, t: Tally)
    requires ReadsAt(es, t)
    ensures ReadsAt(es + [f], Count(t, f))
  {
    var fs, u := es + [f], Count(t, f);
    LastDecides(es, f, t.closed);
    forall i: nat | DecidesAt(fs, i)
      ensures if fs[i].choice == [] then fs[i].voter !in u.votes
              else fs[i].voter in u.votes && u.votes[fs[i].voter] == fs[i].choice
    {
      if i < |es| { DecidesOneMore(es, f, t.closed, i); }
    }
    forall v | v in u.votes ensures exists i: nat :: DecidesAt(fs, i) && fs[i].voter == v {
      VoterDecides(es, f, t, v);
    }
    assert Close in fs <==> Close in es || f == Close;
  }

  lemma VoterDecides(es: seq<Effect>, f: Effect, t: Tally, v: string)
    requires ReadsAt(es, t) && v in Count(t, f).votes
    ensures exists i: nat :: DecidesAt(es + [f], i) && (es + [f])[i].voter == v
  {
    LastDecides(es, f, t.closed);
    if f.Vote? && !t.closed && v == f.voter {
      assert DecidesAt(es + [f], |es|);
    } else {
      var i: nat :| DecidesAt(es, i) && es[i].voter == v;
      DecidesOneMore(es, f, t.closed, i);
      assert (es + [f])[i] == es[i];
    }
  }

  // ---------------------------------------------------------------- the declarative reading

  /** A vote counts unless an effective close came before it. */
  ghost predicate Counts(f: Message -> Effect, messages: seq<Message>, e: Message) {
    e in messages && f(e).Vote? && forall c :: c in messages && f(c) == Close ==> !Earlier(c, e)
  }

  /** The last counting vote of its voter. */
  ghost predicate Decides(f: Message -> Effect, messages: seq<Message>, e: Message) {
    && Counts(f, messages, e)
    && forall g :: Counts(f, messages, g) && f(g).voter == f(e).voter ==> !Earlier(e, g)
  }

  ghost predicate Reads(f: Message -> Effect, messages: seq<Message>, t: Tally) {
    && (t.closed <==> exists c :: c in messages && f(c) == Close)
    && (forall e :: Decides(f, messages, e) ==>
          if f(e).choice == [] then f(e).voter !in t.votes
          else f(e).voter in t.votes && t.votes[f(e).voter] == f(e).choice)
    && (forall v :: v in t.votes ==> exists e :: Decides(f, messages, e) && f(e).voter == v)
  }

  ghost predicate Lists(es: seq<Message>, messages: seq<Message>) {
    StrictlyOrdered(es) && forall m :: m in es <==> m in messages
  }

  lemma PositionsAgree(f: Message -> Effect, messages: seq<Message>, es: seq<Message>, i: nat)
    requires Lists(es, messages) && i < |es|
    ensures CountsAt(Effects(f, es), i) <==> Counts(f, messages, es[i])
  {
    var fs := Effects(f, es);
    assert es[i] in es;
    if CountsAt(fs, i) {
      forall c | c in messages && f(c) == Close ensures !Earlier(c, es[i]) {
        var j :| 0 <= j < |es| && es[j] == c;
        assert fs[j] == Close;
      }
    }
    if Counts(f, messages, es[i]) {
      forall j | 0 <= j < i ensures fs[j] != Close {
        assert es[j] in messages && Earlier(es[j], es[i]);
      }
    }
  }

  lemma DecidersAgree(f: Message -> Effect, messages: seq<Message>, es: seq<Message>, i: nat)
    requires Lists(es, messages) && i < |es|
    ensures DecidesAt(Effects(f, es), i) <==> Decides(f, messages, es[i])
  {
    var fs := Effects(f, es);
    PositionsAgree(f, messages, es, i);
    if DecidesAt(fs, i) {
      forall g | Counts(f, messages, g) && f(g).voter == f(es[i]).voter ensures !Earlier(es[i], g) {
        var j :| 0 <= j < |es| && es[j] == g;
        PositionsAgree(f, messages, es, j);
      }
    }
    if Decides(f, messages, es[i]) {
      forall j | i < j < |fs| && CountsAt(fs, j) ensures fs[j].voter != fs[i].voter {
        PositionsAgree(f, messages, es, j);
        assert Earlier(es[i], es[j]);
      }
    }
  }

  lemma ReadsFromPositions(f: Message -> Effect, messages: seq<Message>, es: seq<Message>, t: Tally)
    requires Lists(es, messages) && ReadsAt(Effects(f, es), t)
    ensures Reads(f, messages, t)
  {
    var fs := Effects(f, es);
    forall e | Decides(f, messages, e)
      ensures if f(e).choice == [] then f(e).voter !in t.votes
              else f(e).voter in t.votes && t.votes[f(e).voter] == f(e).choice
    {
      var i :| 0 <= i < |es| && es[i] == e;
      DecidersAgree(f, messages, es, i);
    }
    forall v | v in t.votes ensures exists e :: Decides(f, messages, e) && f(e).voter == v {
      var i: nat :| DecidesAt(fs, i) && fs[i].voter == v;
      DecidersAgree(f, messages, es, i);
    }
    if Close in fs {
      var i :| 0 <= i < |fs| && fs[i] == Close;
      assert es[i] in es;
    }
    forall c | c in messages && f(c) == Close ensures Close in fs {
      var i :| 0 <= i < |es| && es[i] == c;
      assert fs[i] == Close;
    }
  }

  /** The declarative reading leaves no freedom. */
  lemma ReadsIsUnique(f: Message -> Effect, messages: seq<Message>, t: Tally, u: Tally)
    requires Reads(f, messages, t) && Reads(f, messages, u)
    ensures t == u
  {
    VotesAgree(f, messages, t, u);
    VotesAgree(f, messages, u, t);
    assert t.votes == u.votes;
  }

  lemma VotesAgree(f: Message -> Effect, messages: seq<Message>, t: Tally, u: Tally)
    requires Reads(f, messages, t) && Reads(f, messages, u)
    ensures forall v :: v in t.votes ==> v in u.votes && u.votes[v] == t.votes[v]
  {
    forall v | v in t.votes ensures v in u.votes && u.votes[v] == t.votes[v] {
      var e :| Decides(f, messages, e) && f(e).voter == v;
    }
  }

  function TallyOf(s: PollState): Tally { Tally(s.closed, s.votes) }

  /** The fold means what it says: closed by an effective creator close; each voter's entry
      is the last valid in-scope vote before the first such close, absent when that vote is
      empty; the question is the root's. */
  lemma FoldReads(root: Message, messages: seq<Message>)
    requires DistinctIds(messages) && Opened(root).Some?
    ensures Folded(root, messages).Some?
    ensures SameQuestion(Folded(root, messages).value, Opened(root).value)
    ensures Reads(Meaning(root, Opened(root).value), messages, TallyOf(Folded(root, messages).value))
  {
    var poll := Opened(root).value;
    var es := SortByTime(messages);
    SortSpec(messages);
    SortIsStrict(messages);
    ApplyAllIsCountAll(root, poll, es);
    CountAllReads(Effects(Meaning(root, poll), es));
    ReadsFromPositions(Meaning(root, poll), messages, es, TallyOf(Folded(root, messages).value));
  }

  /** The order in which messages are listed does not matter. */
  lemma FoldIgnoresListing(root: Message, p: seq<Message>, q: seq<Message>)
    requires DistinctIds(p) && DistinctIds(q) && multiset(p) == multiset(q)
    ensures Folded(root, p) == Folded(root, q)
  {
    SortIgnoresOrder(p, q);
  }

  /** An event that is invalid, out of scope, not allowed, or after an effective close. */
  ghost predicate Inert(f: Message -> Effect, messages: seq<Message>, x: Message) {
    f(x) == Nothing || exists c :: c in messages && f(c) == Close && Earlier(c, x)
  }

  lemma SameReading(f: Message -> Effect, messages: seq<Message>, x: Message, t: Tally)
    requires x !in messages && Inert(f, messages, x) && Reads(f, messages + [x], t)
    ensures Reads(f, messages, t)
  {
    var more := messages + [x];
    assert forall m :: m in more <==> m in messages || m == x;
    forall e ensures Counts(f, more, e) <==> Counts(f, messages, e) {
      if f(x) != Nothing {
        var c :| c in messages && f(c) == Close && Earlier(c, x);
        assert Earlier(x, e) ==> Earlier(c, e);
      }
    }
    assert forall e :: Decides(f, more, e) <==> Decides(f, messages, e);
  }

  /** Such an event changes nothing, wherever it is listed. */
  lemma InertEventChangesNothing(root: Message, messages: seq<Message>, x: Message)
    requires DistinctIds(messages + [x]) && Opened(root).Some?
    requires Inert(Meaning(root, Opened(root).value), messages, x)
    ensures Folded(root, messages + [x]) == Folded(root, messages)
  {
    var f := Meaning(root, Opened(root).value);
    var more := messages + [x];
    assert DistinctIds(messages) && x !in messages by {
      forall i, j | 0 <= i < j < |messages| ensures messages[i].id != messages[j].id {
        assert more[i].id != more[j].id;
      }
      forall i | 0 <= i < |messages| ensures messages[i] != x {
        assert more[i].id != more[|messages|].id;
      }
    }
    FoldReads(root, messages);
    FoldReads(root, more);
    SameReading(f, messages, x, TallyOf(Folded(root, more).value));
    ReadsIsUnique(f, messages, TallyOf(Folded(root, messages).value), TallyOf(Folded(root, more).value));
  }

  // ---------------------------------------------------------------- in the messages' own fields

  ghost predicate Distinct<T>(s: seq<T>) {
    forall i, j :: 0 <= i < j < |s| ==> s[i] != s[j]
  }

  lemma {:induction false} DistinctBySize<T>(s: seq<T>)
    ensures |Members(s)| <= |s|
    ensures |Members(s)| == |s| <==> Distinct(s)
  {
    if s != [] {
      var n := |s| - 1;
      DistinctBySize(s[..n]);
      assert s == s[..n] + [s[n]];
      if s[n] in s[..n] {
        assert Members(s) == Members(s[..n]);
        var i :| 0 <= i < n && s[i] == s[n];
      } else {
        assert Members(s) == Members(s[..n]) + {s[n]};
        if Distinct(s[..n]) {
          forall i, j | 0 <= i < j < |s| ensures s[i] != s[j] {
            if j == n { assert s[..n][i] == s[i]; } else { assert s[..n][i] != s[..n][j]; }
          }
        }
        if Distinct(s) { assert Distinct(s[..n]); }
      }
    }
  }

  /** The root of a poll: an own or another's message, not a file and not cancelled, with a question
      and two to five options that differ however they are written. */
  ghost predicate Asks(root: Message, question: Label, options: seq<Label>, multiple: bool) {
    && !root.attachment && !root.cancelled
    && root.wire == Some(Wire(1, "create", Some(question), Some(options), Some(multiple), None))
    && !question.blank && question.graphemes <= 120
    && 2 <= |options| <= 5 && (forall o :: o in options ==> !o.blank && o.graphemes <= 60)
    && forall i, j :: 0 <= i < j < |options| ==> options[i].canonical != options[j].canonical
  }

  /** A reply to the root in its own thread. */
  ghost predicate Answers(root: Message, e: Message) {
    e.replyTo == Some(root.id) && e.threadRoot == root.threadRoot && !e.attachment && !e.cancelled
  }

  /** A vote for some of these options, each once; for at most one when only one is asked for. */
  ghost predicate VotesFor(root: Message, options: seq<Label>, multiple: bool, e: Message, choice: seq<nat>) {
    && Answers(root, e) && e.wire == Some(Wire(1, "vote", None, None, None, Some(choice)))
    && Distinct(choice) && |choice| <= 5 && (forall i :: i in choice ==> i < |options|)
    && (!multiple ==> |choice| <= 1)
  }

  /** The own messages have one author; any other author goes by the handle. */
  function AuthorOf(m: Message): string { if m.mine then LOCAL_VOTER else m.handle }

  ghost predicate ClosesIt(root: Message, e: Message) {
    Answers(root, e) && e.wire == Some(Wire(1, "close", None, None, None, None)) && AuthorOf(e) == AuthorOf(root)
  }

  lemma OptionsDiffer(options: seq<Label>)
    ensures |set o | o in options :: o.canonical| == |options|
       <==> forall i, j :: 0 <= i < j < |options| ==> options[i].canonical != options[j].canonical
  {
    var canonicals := seq(|options|, i requires 0 <= i < |options| => options[i].canonical);
    DistinctBySize(canonicals);
    assert (set o | o in options :: o.canonical) == Members(canonicals) by {
      forall o | o in options ensures o.canonical in canonicals {
        var i :| 0 <= i < |options| && options[i] == o;
        assert canonicals[i] == o.canonical;
      }
      forall c | c in canonicals ensures exists o :: o in options && o.canonical == c {
        var i :| 0 <= i < |canonicals| && canonicals[i] == c;
        assert options[i] in options;
      }
    }
    if Distinct(canonicals) {
      forall i, j | 0 <= i < j < |options| ensures options[i].canonical != options[j].canonical {
        assert canonicals[i] != canonicals[j];
      }
    }
  }

  lemma OpenedAsks(root: Message, question: Label, options: seq<Label>, multiple: bool)
    ensures Opened(root) == Some(PollState(question, options, multiple, false, map[]))
       <==> Asks(root, question, options, multiple)
  {
    OptionsDiffer(options);
  }

  lemma EffectSays(root: Message, poll: PollState, e: Message)
    requires Opened(root) == Some(poll)
    ensures EffectOf(root, poll, e) == Close <==> ClosesIt(root, e)
    ensures forall choice :: VotesFor(root, poll.options, poll.multiple, e, choice)
                             <==> EffectOf(root, poll, e) == Vote(AuthorOf(e), choice)
    ensures EffectOf(root, poll, e).Vote? ==> EffectOf(root, poll, e).voter == AuthorOf(e)
  {
    if e.wire.Some? && e.wire.value.selections.Some? {
      var choice := e.wire.value.selections.value;
      DistinctBySize(choice);
    }
  }

  /** A vote that came before any close. */
  ghost predicate InTime(root: Message, poll: PollState, messages: seq<Message>, e: Message, choice: seq<nat>) {
    && e in messages && VotesFor(root, poll.options, poll.multiple, e, choice)
    && forall c :: c in messages && ClosesIt(root, c) ==> !Earlier(c, e)
  }

  /** The last such vote of its author. */
  ghost predicate LastWord(root: Message, poll: PollState, messages: seq<Message>, e: Message, choice: seq<nat>) {
    && InTime(root, poll, messages, e, choice)
    && forall g, other :: InTime(root, poll, messages, g, other) && AuthorOf(g) == AuthorOf(e) ==> !Earlier(e, g)
  }

  /** What a poll shows: the root's question and options, whether its author closed it, and for
      each author the choice of the last vote in time, unless that was withdrawn. */
  ghost predicate Shows(root: Message, messages: seq<Message>, poll: PollState) {
    && Asks(root, poll.question, poll.options, poll.multiple)
    && (poll.closed <==> exists c :: c in messages && ClosesIt(root, c))
    && (forall e, choice :: LastWord(root, poll, messages, e, choice) ==>
          if choice == [] then AuthorOf(e) !in poll.votes
          else AuthorOf(e) in poll.votes && poll.votes[AuthorOf(e)] == choice)
    && (forall v :: v in poll.votes ==>
          exists e, choice :: LastWord(root, poll, messages, e, choice) && AuthorOf(e) == v)
  }

  lemma InTimeCounts(root: Message, poll: PollState, s: PollState, messages: seq<Message>, e: Message)
    requires Opened(root) == Some(poll) && SameQuestion(s, poll)
    ensures Counts(Meaning(root, poll), messages, e) <==> exists choice :: InTime(root, s, messages, e, choice)
  {
    var f := Meaning(root, poll);
    forall c ensures f(c) == Close <==> ClosesIt(root, c) { EffectSays(root, poll, c); }
    EffectSays(root, poll, e);
    if Counts(f, messages, e) {
      assert f(e) == Vote(AuthorOf(e), f(e).choice);
      assert InTime(root, s, messages, e, f(e).choice);
    }
  }

  lemma LastWordDecides(
      root: Message, poll: PollState, s: PollState, messages: seq<Message>, e: Message, choice: seq<nat>)
    requires Opened(root) == Some(poll) && SameQuestion(s, poll)
    ensures LastWord(root, s, messages, e, choice)
       <==> Decides(Meaning(root, poll), messages, e) && EffectOf(root, poll, e) == Vote(AuthorOf(e), choice)
  {
    var f := Meaning(root, poll);
    EffectSays(root, poll, e);
    InTimeCounts(root, poll, s, messages, e);
    if LastWord(root, s, messages, e, choice) {
      forall g | Counts(f, messages, g) && f(g).voter == f(e).voter ensures !Earlier(e, g) {
        InTimeCounts(root, poll, s, messages, g);
        EffectSays(root, poll, g);
      }
    }
    if Decides(f, messages, e) && f(e) == Vote(AuthorOf(e), choice) {
      VoteInTime(root, poll, s, messages, e, choice);
      forall g, other | InTime(root, s, messages, g, other) && AuthorOf(g) == AuthorOf(e) ensures !Earlier(e, g) {
        InTimeCounts(root, poll, s, messages, g);
        EffectSays(root, poll, g);
      }
    }
  }

  lemma VoteInTime(root: Message, poll: PollState, s: PollState, messages: seq<Message>, e: Message, choice: seq<nat>)
    requires Opened(root) == Some(poll) && SameQuestion(s, poll)
    requires Counts(Meaning(root, poll), messages, e) && EffectOf(root, poll, e) == Vote(AuthorOf(e), choice)
    ensures InTime(root, s, messages, e, choice)
  {
    EffectSays(root, poll, e);
    forall c | c in messages && ClosesIt(root, c) ensures !Earlier(c, e) {
      EffectSays(root, poll, c);
      assert Meaning(root, poll)(c) == Close;
    }
  }

  /** The fold shows a poll exactly for a message that asks, and shows just what the messages say. */
  lemma FoldShows(root: Message, messages: seq<Message>)
    requires DistinctIds(messages)
    ensures Folded(root, messages).Some? <==> exists q, os, m :: Asks(root, q, os, m)
    ensures Folded(root, messages).Some? ==> Shows(root, messages, Folded(root, messages).value)
  {
    forall q, os, m | Asks(root, q, os, m) ensures Opened(root).Some? { OpenedAsks(root, q, os, m); }
    if Opened(root).Some? {
      var poll := Opened(root).value;
      OpenedAsks(root, poll.question, poll.options, poll.multiple);
      FoldReads(root, messages);
      ReadingShows(root, poll, messages, Folded(root, messages).value);
    }
  }

  lemma ReadingShows(root: Message, poll: PollState, messages: seq<Message>, s: PollState)
    requires Opened(root) == Some(poll) && SameQuestion(s, poll) && Reads(Meaning(root, poll), messages, TallyOf(s))
    ensures Shows(root, messages, s)
  {
    var f := Meaning(root, poll);
    OpenedAsks(root, poll.question, poll.options, poll.multiple);
    forall c ensures f(c) == Close <==> ClosesIt(root, c) { EffectSays(root, poll, c); }
    forall e, choice ensures LastWord(root, s, messages, e, choice)
                             <==> Decides(f, messages, e) && f(e) == Vote(AuthorOf(e), choice) {
      LastWordDecides(root, poll, s, messages, e, choice);
    }
    forall v | v in s.votes ensures exists e, choice :: LastWord(root, s, messages, e, choice) && AuthorOf(e) == v {
      var e :| Decides(f, messages, e) && f(e).voter == v;
      EffectSays(root, poll, e);
      assert f(e) == Vote(AuthorOf(e), f(e).choice);
      assert LastWord(root, s, messages, e, f(e).choice);
    }
  }

  /** The last words of two people with different names stand side by side, and this user's beside
      those of everybody whose name is not the reserved one. */
  lemma VotesAreApart(
      root: Message, messages: seq<Message>, a: Message, c: seq<nat>, b: Message, d: seq<nat>)
    requires DistinctIds(messages) && Folded(root, messages).Some? && c != [] && d != []
    requires
      var poll := Folded(root, messages).value;
      LastWord(root, poll, messages, a, c) && LastWord(root, poll, messages, b, d)
    requires !b.mine && (if a.mine then b.handle != LOCAL_VOTER else a.handle != b.handle)
    ensures
      var votes, name := Folded(root, messages).value.votes, if a.mine then LOCAL_VOTER else a.handle;
      && name in votes && votes[name] == c && b.handle in votes && votes[b.handle] == d
      && name != b.handle
  {
    FoldShows(root, messages);
  }
}
