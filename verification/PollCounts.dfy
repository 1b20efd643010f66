/** Voter lists, their totals and the recognition of poll events
    (crates/mutte-client/src/polls.rs). */
module PollCounts {
  import opened Common
  import opened Messages
  import opened Polls

  ghost predicate GoodChoice(s: PollState, choice: seq<nat>) {
    choice != [] && Distinct(choice) && Allowed(s, choice)
  }

  ghost predicate GoodVotes(s: PollState) {
    forall v :: v in s.votes ==> GoodChoice(s, s.votes[v])
  }

  lemma ApplyKeepsVotesGood(root: Message, s: PollState, e: Message)
    requires GoodVotes(s)
    ensures GoodVotes(Apply(root, s, e)) && SameQuestion(Apply(root, s, e), s)
  {
    if Parse(e).Some? && Parse(e).value.selections.Some? {
      DistinctBySize(Parse(e).value.selections.value);
    }
  }

  /** Whatever the events are, a folded poll only holds choices its voters could make. */
  lemma {:induction false} ApplyAllKeepsVotesGood(root: Message, s: PollState, es: seq<Message>)
    requires GoodVotes(s)
    ensures GoodVotes(ApplyAll(root, s, es)) && SameQuestion(ApplyAll(root, s, es), s)
    decreases |es|
  {
    if es != [] {
      ApplyAllKeepsVotesGood(root, s, es[..|es| - 1]);
      ApplyKeepsVotesGood(root, ApplyAll(root, s, es[..|es| - 1]), es[|es| - 1]);
    }
  }

  function VoterSet(s: PollState, option: nat): set<string> {
    set v | v in s.votes && option in s.votes[v]
  }

  function Shown(who: string): string { if who == LOCAL_VOTER then "You" else who }

  /** `walk` lists every member of `voters` exactly once. */
  ghost predicate Lists(walk: seq<string>, voters: set<string>) {
    |walk| == |voters| && forall v :: v in voters <==> v in walk
  }

  /** One step of a walk that keeps the members of `voters`. */
  lemma WalkStep(walk: seq<string>, voters: set<string>, seen: set<string>, who: string)
    requires Lists(walk, seen * voters) && who !in seen
    ensures Lists(if who in voters then walk + [who] else walk, (seen + {who}) * voters)
  {
    if who in voters {
      assert (seen + {who}) * voters == seen * voters + {who};
      assert forall v :: v in walk + [who] <==> v in walk || v == who;
    } else {
      assert (seen + {who}) * voters == seen * voters;
    }
  }

  /** The voters of an option, in whatever order the table is walked. */
  method Choosers(s: PollState, option: nat) returns (walk: seq<string>)
    ensures Lists(walk, VoterSet(s, option))
  {
    walk := [];
    var todo, seen := s.votes.Keys, {};
    ghost var voters := VoterSet(s, option);
    while todo != {}
      invariant todo + seen == s.votes.Keys && todo !! seen
      invariant Lists(walk, seen * voters)
      decreases todo
    {
      var who :| who in todo;
      WalkStep(walk, voters, seen, who);
      if option in s.votes[who] {
        walk := walk + [who];
      }
      todo, seen := todo - {who}, seen + {who};
    }
    assert seen * voters == voters;
  }

  /** The names shown under an option. */
  method Voters(s: PollState, option: nat) returns (names: seq<string>, walk: seq<string>)
    ensures Lists(walk, VoterSet(s, option))
    ensures |names| == |walk| && forall i :: 0 <= i < |names| ==> names[i] == Shown(walk[i])
  {
    walk := Choosers(s, option);
    names := seq(|walk|, i requires 0 <= i < |walk| => Shown(walk[i]));
  }

  function SumOfCounts(s: PollState, n: nat): nat {
    if n == 0 then 0 else SumOfCounts(s, n - 1) + |VoterSet(s, n - 1)|
  }

  ghost function TotalOf(votes: map<string, seq<nat>>, voters: set<string>): nat
    requires voters <= votes.Keys
  {
    if voters == {} then 0
    else var v :| v in voters; |votes[v]| + TotalOf(votes, voters - {v})
  }

  lemma {:induction false} TotalTakesAny(votes: map<string, seq<nat>>, voters: set<string>, v: string)
    requires voters <= votes.Keys && v in voters
    ensures TotalOf(votes, voters) == |votes[v]| + TotalOf(votes, voters - {v})
  {
    var w :| w in voters && TotalOf(votes, voters) == |votes[w]| + TotalOf(votes, voters - {w});
    if v != w {
      TotalTakesAny(votes, voters - {w}, v);
      TotalTakesAny(votes, voters - {v}, w);
      assert voters - {w} - {v} == voters - {v} - {w};
    }
  }

  function Restrict(s: PollState, voters: set<string>): PollState {
    s.(votes := map v | v in s.votes && v in voters :: s.votes[v])
  }

  /** How many options below `n` a choice names. */
  function Named(choice: seq<nat>, n: nat): nat {
    if n == 0 then 0 else Named(choice, n - 1) + if n - 1 in choice then 1 else 0
  }

  lemma {:induction false} NamedAll(choice: seq<nat>, n: nat)
    requires Distinct(choice) && forall i :: i in choice ==> i < n
    ensures Named(choice, n) == |choice|
  {
    NamedIsCard(choice, n);
    assert (set i | i in choice && i < n) == Members(choice);
    DistinctBySize(choice);
  }

  lemma {:induction false} NamedIsCard(choice: seq<nat>, n: nat)
    ensures Named(choice, n) == |set i | i in choice && i < n|
  {
    if n == 0 {
      assert (set i | i in choice && i < n) == {};
    } else {
      NamedIsCard(choice, n - 1);
      var less := set i | i in choice && i < n - 1;
      assert (set i | i in choice && i < n) == if n - 1 in choice then less + {n - 1} else less;
    }
  }

  lemma {:induction false} RemoveVoter(s: PollState, v: string, n: nat)
    requires v in s.votes
    ensures SumOfCounts(s, n) == SumOfCounts(Restrict(s, s.votes.Keys - {v}), n) + Named(s.votes[v], n)
  {
    if n > 0 {
      RemoveVoter(s, v, n - 1);
      var rest := VoterSet(Restrict(s, s.votes.Keys - {v}), n - 1);
      assert rest == VoterSet(s, n - 1) - {v};
    }
  }

  lemma {:induction false} NoVoters(s: PollState, n: nat)
    requires s.votes == map[]
    ensures SumOfCounts(s, n) == 0
  {
    if n > 0 { NoVoters(s, n - 1); assert VoterSet(s, n - 1) == {}; }
  }

  lemma {:induction false} TotalAgrees(votes: map<string, seq<nat>>, other: map<string, seq<nat>>, voters: set<string>)
    requires voters <= votes.Keys && voters <= other.Keys && forall v :: v in voters ==> votes[v] == other[v]
    ensures TotalOf(votes, voters) == TotalOf(other, voters)
  {
    if voters != {} {
      var v :| v in voters;
      TotalTakesAny(votes, voters, v);
      TotalTakesAny(other, voters, v);
      TotalAgrees(votes, other, voters - {v});
    }
  }

  /** Counting by option and counting by voter give the same total. */
  lemma {:induction false} CountsConserveVotes(s: PollState)
    requires GoodVotes(s)
    ensures SumOfCounts(s, |s.options|) == TotalOf(s.votes, s.votes.Keys)
    ensures !s.multiple ==> SumOfCounts(s, |s.options|) == |s.votes|
    decreases s.votes.Keys
  {
    if s.votes == map[] {
      NoVoters(s, |s.options|);
    } else {
      var v :| v in s.votes;
      var t := Restrict(s, s.votes.Keys - {v});
      assert t.votes.Keys == s.votes.Keys - {v};
      CountsConserveVotes(t);
      RemoveVoter(s, v, |s.options|);
      NamedAll(s.votes[v], |s.options|);
      TotalTakesAny(s.votes, s.votes.Keys, v);
      TotalAgrees(s.votes, t.votes, t.votes.Keys);
      assert |s.votes.Keys| == |t.votes.Keys| + 1;
    }
  }

  /** The two previous facts for every fold. */
  lemma FoldedCountsConserveVotes(root: Message, messages: seq<Message>)
    requires Folded(root, messages).Some?
    ensures
      var s := Folded(root, messages).value;
      && GoodVotes(s) && SumOfCounts(s, |s.options|) == TotalOf(s.votes, s.votes.Keys)
      && (!s.multiple ==> SumOfCounts(s, |s.options|) == |s.votes|)
  {
    ApplyAllKeepsVotesGood(root, Opened(root).value, SortByTime(messages));
    CountsConserveVotes(Folded(root, messages).value);
  }

  /** The last vote in time of this author includes the option. */
  ghost predicate Chose(root: Message, poll: PollState, messages: seq<Message>, option: nat, author: string) {
    exists e, choice :: LastWord(root, poll, messages, e, choice) && option in choice && AuthorOf(e) == author
  }

  lemma ChosenByVoters(root: Message, poll: PollState, messages: seq<Message>, option: nat, author: string)
    requires Shows(root, messages, poll)
    ensures author in VoterSet(poll, option) <==> Chose(root, poll, messages, option, author)
  {
    if author in VoterSet(poll, option) {
      var e, choice :| LastWord(root, poll, messages, e, choice) && AuthorOf(e) == author;
      assert option in choice;
    }
  }

  /** The names under an option are those of the people whose last vote in time includes it, each
      once, this user as "You". */
  lemma VotersChoseIt(root: Message, messages: seq<Message>, option: nat, walk: seq<string>)
    requires DistinctIds(messages) && Folded(root, messages).Some?
    requires Lists(walk, VoterSet(Folded(root, messages).value, option))
    ensures
      var poll := Folded(root, messages).value;
      && (forall author :: author in walk <==> Chose(root, poll, messages, option, author))
      && (forall i, j :: 0 <= i < j < |walk| ==> walk[i] != walk[j])
      && Shown(LOCAL_VOTER) == "You" && forall author :: author != LOCAL_VOTER ==> Shown(author) == author
  {
    FoldShows(root, messages);
    var poll := Folded(root, messages).value;
    forall author ensures author in walk <==> Chose(root, poll, messages, option, author) {
      ChosenByVoters(root, poll, messages, option, author);
    }
    DistinctBySize(walk);
    assert Members(walk) == VoterSet(poll, option);
  }

  function IsPollEvent(messages: seq<Message>, m: Message): bool {
    && Parse(m).Some? && Parse(m).value.kind != "create"
    && exists root :: root in messages && m.replyTo == Some(root.id) && m.threadRoot == root.threadRoot
                      && Folded(root, []).Some?
  }

  /** Testing the root against no events at all is enough: success never depends on them. */
  lemma PollEventsAnswerSomePoll(messages: seq<Message>, m: Message, events: seq<Message>)
    ensures IsPollEvent(messages, m) <==>
              Parse(m).Some? && Parse(m).value.kind in {"vote", "close"}
              && exists root :: root in messages && m.replyTo == Some(root.id) && m.threadRoot == root.threadRoot
                                && Folded(root, events).Some?
  {
    assert forall root :: Folded(root, []).Some? <==> Folded(root, events).Some?;
  }
}
