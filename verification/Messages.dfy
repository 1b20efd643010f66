/** A conversation's messages and the order in which event folds read them. */
module Messages {
  import opened Common

  /** A poll payload as its decoder yields it; the text itself is not modelled further than
      what validation asks of it. `canonical` is the trimmed, lower-cased, composed form. */
  datatype Label = Label(raw: string, blank: bool, graphemes: nat, canonical: string)

  datatype Wire = Wire(
    version: nat,
    kind: string,
    question: Option<Label>,
    options: Option<seq<Label>>,
    multiple: Option<bool>,
    selections: Option<seq<nat>>)

  /** `wire` is None when the text has no poll prefix, is too long or does not decode;
      `handle` is the author's name in lower case. */
  datatype Message = Message(
    id: nat,
    handle: string,
    text: string,
    mine: bool,
    timestamp: int,
    cancelled: bool,
    attachment: bool,
    replyTo: Option<nat>,
    threadRoot: Option<nat>,
    wire: Option<Wire>)

  predicate Earlier(a: Message, b: Message) {
    a.timestamp < b.timestamp || (a.timestamp == b.timestamp && a.id < b.id)
  }

  ghost predicate Ordered(ms: seq<Message>) {
    forall i, j :: 0 <= i < j < |ms| ==> !Earlier(ms[j], ms[i])
  }

  ghost predicate StrictlyOrdered(ms: seq<Message>) {
    forall i, j :: 0 <= i < j < |ms| ==> Earlier(ms[i], ms[j])
  }

  ghost predicate DistinctIds(ms: seq<Message>) {
    forall i, j :: 0 <= i < j < |ms| ==> ms[i].id != ms[j].id
  }

  /** A stable insertion by (timestamp, id). */
  function Insert(m: Message, ms: seq<Message>): seq<Message> {
    if ms == [] then [m]
    else if Earlier(ms[0], m) then [ms[0]] + Insert(m, ms[1..])
    else [m] + ms
  }

  function SortByTime(ms: seq<Message>): seq<Message> {
    if ms == [] then [] else Insert(ms[0], SortByTime(ms[1..]))
  }

  lemma {:induction false} InsertContents(m: Message, ms: seq<Message>)
    ensures multiset(Insert(m, ms)) == multiset{m} + multiset(ms)
  {
    if ms != [] {
      assert ms == [ms[0]] + ms[1..];
      InsertContents(m, ms[1..]);
    }
  }

  lemma {:induction false} InsertOrder(m: Message, ms: seq<Message>)
    requires Ordered(ms)
    ensures Ordered(Insert(m, ms))
  {
    if ms != [] && Earlier(ms[0], m) {
      var r := Insert(m, ms[1..]);
      InsertOrder(m, ms[1..]);
      InsertContents(m, ms[1..]);
      forall j | 0 <= j < |r| ensures !Earlier(r[j], ms[0]) {
        assert r[j] in multiset(r);
        assert r[j] == m || r[j] in ms[1..];
      }
    }
  }

  lemma {:induction false} SortSpec(ms: seq<Message>)
    ensures Ordered(SortByTime(ms)) && multiset(SortByTime(ms)) == multiset(ms)
    ensures forall x :: x in SortByTime(ms) <==> x in ms
  {
    if ms != [] {
      SortSpec(ms[1..]);
      InsertOrder(ms[0], SortByTime(ms[1..]));
      InsertContents(ms[0], SortByTime(ms[1..]));
      assert ms == [ms[0]] + ms[1..];
    }
    assert forall x :: x in SortByTime(ms) <==> x in multiset(SortByTime(ms));
    assert forall x :: x in ms <==> x in multiset(ms);
  }

  lemma {:induction false} CountDistinct(ms: seq<Message>, m: Message)
    requires DistinctIds(ms)
    ensures multiset(ms)[m] <= 1
  {
    if ms != [] {
      assert ms == [ms[0]] + ms[1..];
      CountDistinct(ms[1..], m);
      assert forall i :: 1 <= i < |ms| ==> ms[i] != ms[0];
    }
  }

  /** With distinct ids no two messages tie, so the sorted list is strictly ordered. */
  lemma SortIsStrict(ms: seq<Message>)
    requires DistinctIds(ms)
    ensures StrictlyOrdered(SortByTime(ms))
  {
    SortSpec(ms);
    var s := SortByTime(ms);
    forall i, j | 0 <= i < j < |s| ensures Earlier(s[i], s[j]) {
      if s[i].id == s[j].id {
        assert s[i] in ms && s[j] in ms;
        assert s[i] == s[j];
        CountDistinct(ms, s[i]);
        TwicePresent(s, i, j);
        assert false;
      }
    }
  }

  lemma TwicePresent(s: seq<Message>, i: nat, j: nat)
    requires i < j < |s| && s[i] == s[j]
    ensures multiset(s)[s[i]] >= 2
  {
    assert s == s[..j] + [s[j]] + s[j + 1..];
    assert s[i] in s[..j];
  }

  lemma SameHead(a: seq<Message>, b: seq<Message>)
    requires StrictlyOrdered(a) && StrictlyOrdered(b) && a != [] && multiset(a) == multiset(b)
    ensures b != [] && a[0] == b[0]
  {
    assert a[0] in multiset(a);
    assert b != [];
    assert b[0] in multiset(b);
    var i :| 0 <= i < |b| && b[i] == a[0];
    var j :| 0 <= j < |a| && a[j] == b[0];
  }

  lemma {:induction false} StrictOrderIsUnique(a: seq<Message>, b: seq<Message>)
    requires StrictlyOrdered(a) && StrictlyOrdered(b) && multiset(a) == multiset(b)
    ensures a == b
  {
    if a == [] {
      assert |multiset(b)| == 0;
    } else {
      SameHead(a, b);
      assert a == [a[0]] + a[1..] && b == [b[0]] + b[1..];
      assert multiset(a[1..]) == multiset(a) - multiset{a[0]};
      StrictOrderIsUnique(a[1..], b[1..]);
    }
  }

  /** The reading order does not depend on the order in which messages are listed. */
  lemma SortIgnoresOrder(p: seq<Message>, q: seq<Message>)
    requires DistinctIds(p) && DistinctIds(q) && multiset(p) == multiset(q)
    ensures SortByTime(p) == SortByTime(q)
  {
    SortSpec(p);
    SortSpec(q);
    SortIsStrict(p);
    SortIsStrict(q);
    StrictOrderIsUnique(SortByTime(p), SortByTime(q));
  }
}
