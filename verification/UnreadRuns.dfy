/** Unread counters over whole runs (crates/mutte-client/src/engine.rs). */
module UnreadRuns {
  import opened Common
  import opened Unread

  // ---------------------------------------------------------------- runs

  datatype Op =
    | Inbound(conversation: nat, id: nat, mine: bool, thread: Option<nat>, saved: Save, stored: Save)
    | Sent(conversation: nat, id: nat, thread: Option<nat>, stored: Save)
    | ReadThe(conversation: nat, thread: Option<nat>, stored: Save)
    | LookAt(conversation: nat, thread: Option<nat>, stored: Save)
    | LookAway
    | Reopen

  function Apply(s: State, op: Op): State {
    match op
    case Inbound(c, id, mine, thread, saved, stored) => Arrive(s, c, id, mine, thread, saved, stored)
    case Sent(c, id, thread, stored) => Write(s, c, id, thread, stored)
    case ReadThe(c, thread, stored) => Read(s, c, thread, stored)
    case LookAt(c, thread, stored) => Look(s, c, thread, stored)
    case LookAway => s.(visible := None)
    case Reopen => Restart(s)
  }

  function Run(s: State, ops: seq<Op>): State {
    if ops == [] then s else Apply(Run(s, ops[..|ops| - 1]), ops[|ops| - 1])
  }

  // ---------------------------------------------------------------- counting

  function CountUnread(ms: seq<Msg>): nat {
    if ms == [] then 0
    else CountUnread(ms[..|ms| - 1]) + if !ms[|ms| - 1].mine && !ms[|ms| - 1].read then 1 else 0
  }

  lemma CountNext(ms: seq<Msg>, m: Msg)
    ensures CountUnread(ms + [m]) == CountUnread(ms) + if !m.mine && !m.read then 1 else 0
  {
    assert (ms + [m])[..|ms|] == ms;
  }

  lemma {:induction false} ReadingCounts(ms: seq<Msg>, scope: Option<nat>)
    ensures CountUnread(ReadScope(ms, scope)) == CountUnread(ms) - |FreshIds(ms, scope)|
    ensures |FreshIds(ms, scope)| <= CountUnread(ms) <= |ms|
  {
    if ms != [] {
      var n := |ms| - 1;
      ReadingCounts(ms[..n], scope);
      assert ReadScope(ms, scope)[..n] == ReadScope(ms[..n], scope);
    }
  }

  ghost predicate DistinctIds(ms: seq<Msg>) {
    forall i, j :: 0 <= i < j < |ms| ==> ms[i].id != ms[j].id
  }

  lemma {:induction false} FreshIdsAre(ms: seq<Msg>, scope: Option<nat>, id: nat)
    ensures id in FreshIds(ms, scope) <==> exists m :: m in ms && m.id == id && Fresh(m, scope)
  {
    if ms != [] {
      var n := |ms| - 1;
      FreshIdsAre(ms[..n], scope, id);
      assert forall m :: m in ms <==> m in ms[..n] || m == ms[n];
    }
  }

  /** With distinct ids, marking by id on screen is marking by scope in the vault. */
  lemma IdsAreScope(ms: seq<Msg>, scope: Option<nat>)
    requires DistinctIds(ms)
    ensures ReadIds(ms, FreshIds(ms, scope)) == ReadScope(ms, scope)
    ensures FreshIds(ms, scope) == [] ==> ReadScope(ms, scope) == ms
  {
    forall i | 0 <= i < |ms| ensures ms[i].id in FreshIds(ms, scope) <==> Fresh(ms[i], scope) {
      FreshIdsAre(ms, scope, ms[i].id);
      if m :| m in ms && m.id == ms[i].id && Fresh(m, scope) {
        var j :| 0 <= j < |ms| && ms[j] == m;
      }
    }
  }

  lemma DistinctMore(ms: seq<Msg>, m: Msg)
    requires DistinctIds(ms) && !Has(ms, m.id)
    ensures DistinctIds(ms + [m])
  {
    forall i | 0 <= i < |ms| ensures ms[i].id != m.id {
      assert ms[i] in ms;
    }
  }

  // ---------------------------------------------------------------- screen and vault agree

  ghost predicate Twins(box: Stored, chat: Chat) {
    chat.messages == box.messages && chat.unread == box.unread && DistinctIds(box.messages)
  }

  ghost predicate Sane(boxes: map<nat, Stored>) {
    forall c :: c in boxes ==> DistinctIds(boxes[c].messages)
  }

  /** Screen and vault hold the same messages and the same counter, each message once. */
  ghost predicate Agree(s: State) {
    && s.chats.Keys == s.vault.Keys && (forall c :: c in s.chats ==> Twins(s.vault[c], s.chats[c]))
    && Sane(s.disk)
  }

  /** A message written here has a new id. */
  predicate NewId(s: State, op: Op) {
    op.Sent? && op.conversation in s.vault ==> !Has(s.vault[op.conversation].messages, op.id)
  }

  lemma CommitKeepsSane(s: State, c: nat, box: Stored, save: Save)
    requires Agree(s) && DistinctIds(box.messages)
    ensures Sane(Commit(s, s.vault[c := box], save).disk)
    ensures !save.Saved? ==> Agree(Commit(s, s.vault[c := box], save))
  {
  }

  lemma EnsureKeepsAgreement(s: State, c: nat, save: Save)
    requires Agree(s)
    ensures Agree(EnsureChat(s, c, save)) && EnsureChat(s, c, save).visible == s.visible
    ensures c in s.chats ==> EnsureChat(s, c, save) == s
    ensures forall d :: d in s.vault ==>
      d in EnsureChat(s, c, save).vault && EnsureChat(s, c, save).vault[d] == s.vault[d]
  {
    CommitKeepsSane(s, c, BoxOf(s, c, 0), save);
  }

  lemma AddingKeepsAgreement(s: State, c: nat, m: Msg, unread: bool, save: Save)
    requires Agree(s) && c in s.chats && !Has(s.vault[c].messages, m.id)
    ensures
      var t := Commit(s, s.vault[c := Added(s.vault[c], m, unread)], save);
      Agree(if save.Saved? then t.(chats := s.chats[c := AddedOnScreen(s.chats[c], m, unread)]) else t)
  {
    DistinctMore(s.vault[c].messages, m);
    CommitKeepsSane(s, c, Added(s.vault[c], m, unread), save);
  }

  lemma MarkReadKeepsAgreement(s: State, c: nat, save: Save)
    requires Agree(s) && c in s.chats
    ensures Agree(MarkRead(s, c, save))
  {
    IdsAreScope(s.vault[c].messages, s.chats[c].thread);
    assert DistinctIds(ReadBox(s.vault[c], s.chats[c].thread).messages);
    CommitKeepsSane(s, c, ReadBox(s.vault[c], s.chats[c].thread), save);
  }

  lemma ShowingKeepsAgreement(s: State, c: nat, thread: Option<nat>, v: Option<Visible>)
    requires Agree(s) && c in s.chats
    ensures Agree(ShowThread(s, c, thread).(visible := v))
  {
  }

  lemma StepKeepsAgreement(s: State, op: Op)
    requires Agree(s) && NewId(s, op)
    ensures Agree(Apply(s, op))
  {
    match op
    case Inbound(c, id, mine, thread, saved, stored) =>
      EnsureKeepsAgreement(s, c, saved);
      var t := EnsureChat(s, c, saved);
      if id != 0 && thread != Some(id) && c in t.chats && !Has(t.vault[c].messages, id) {
        var unread := !mine && !Seen(t, c, id, thread);
        AddingKeepsAgreement(t, c, Msg(id, mine, thread, !unread), unread, stored);
      }
    case Sent(c, id, thread, stored) =>
      if c in s.chats { AddingKeepsAgreement(s, c, Msg(id, true, thread, true), false, stored); }
    case ReadThe(c, thread, stored) =>
      if CanShow(s, c, thread) {
        var seen := s.visible.Some? && s.visible.value.conversation == c;
        var v := if seen then Some(Visible(c, thread)) else s.visible;
        ShowingKeepsAgreement(s, c, thread, v);
        MarkReadKeepsAgreement(ShowThread(s, c, thread).(visible := v), c, stored);
      }
    case LookAt(c, thread, stored) =>
      if CanShow(s, c, thread) {
        ShowingKeepsAgreement(s, c, thread, s.visible);
        MarkReadKeepsAgreement(ShowThread(s, c, thread), c, stored);
      }
    case LookAway =>
    case Reopen => assert Restart(s).chats.Keys == s.disk.Keys;
  }

  // ---------------------------------------------------------------- the counters are exact

  ghost predicate Exact(box: Stored) { box.unread == CountUnread(box.messages) <= U16_MAX }

  ghost predicate AllExact(s: State) {
    && (forall c :: c in s.vault ==> Exact(s.vault[c])) && (forall c :: c in s.disk ==> Exact(s.disk[c]))
  }

  /** The arrival reaches the vault or its document as one more unread message. */
  predicate Counts(s: State, op: Op) {
    && op.Inbound? && op.conversation in s.vault
    && op.id != 0 && op.thread != Some(op.id) && !op.mine && op.stored != LostOld
    && !Seen(s, op.conversation, op.id, op.thread) && !Has(s.vault[op.conversation].messages, op.id)
  }

  /** The counter has room for such an arrival. */
  predicate Room(s: State, op: Op) {
    Counts(s, op) ==> s.vault[op.conversation].unread < U16_MAX
  }

  lemma CommitExact(s: State, c: nat, box: Stored, save: Save)
    requires AllExact(s)
    ensures AllExact(Commit(s, s.vault[c := box], save)) <==> save == LostOld || Exact(box)
  {
    var t := Commit(s, s.vault[c := box], save);
    if save != LostOld { assert c in t.disk && t.disk[c] == box; }
  }

  lemma AddedExact(box: Stored, m: Msg, unread: bool)
    requires Exact(box) && (unread <==> !m.mine && !m.read)
    ensures Exact(Added(box, m, unread)) <==> (unread ==> box.unread < U16_MAX)
  {
    CountNext(box.messages, m);
  }

  lemma ReadExact(box: Stored, scope: Option<nat>)
    requires Exact(box)
    ensures Exact(ReadBox(box, scope))
  {
    ReadingCounts(box.messages, scope);
  }

  lemma EnsureKeepsExact(s: State, c: nat, save: Save)
    requires Agree(s) && AllExact(s)
    ensures AllExact(EnsureChat(s, c, save))
    ensures c !in s.chats && c in EnsureChat(s, c, save).chats ==> EnsureChat(s, c, save).vault[c] == Stored([], 0)
  {
    assert CountUnread([]) == 0;
    CommitExact(s, c, BoxOf(s, c, 0), save);
  }

  lemma ArrivalExact(s: State, op: Op)
    requires Agree(s) && AllExact(s) && op.Inbound?
    ensures AllExact(Apply(s, op)) <==> Room(s, op)
  {
    var c, id, mine, thread := op.conversation, op.id, op.mine, op.thread;
    EnsureKeepsExact(s, c, op.saved);
    EnsureKeepsAgreement(s, c, op.saved);
    var t := EnsureChat(s, c, op.saved);
    if id != 0 && thread != Some(id) && c in t.chats && !Has(t.vault[c].messages, id) {
      var unread := !mine && !Seen(t, c, id, thread);
      var m := Msg(id, mine, thread, !unread);
      AddedExact(t.vault[c], m, unread);
      CommitExact(t, c, Added(t.vault[c], m, unread), op.stored);
    }
  }

  /** A step keeps every counter equal to the number of unread messages of others, in the vault
      and in its document, if and only if the counter has room for the arrival. */
  lemma StepKeepsExact(s: State, op: Op)
    requires Agree(s) && NewId(s, op) && AllExact(s)
    ensures AllExact(Apply(s, op)) <==> Room(s, op)
  {
    match op
    case Inbound(_, _, _, _, _, _) => ArrivalExact(s, op);
    case Sent(c, id, thread, stored) =>
      if c in s.chats {
        AddedExact(s.vault[c], Msg(id, true, thread, true), false);
        CommitExact(s, c, Added(s.vault[c], Msg(id, true, thread, true), false), stored);
      }
    case ReadThe(c, thread, stored) =>
      if CanShow(s, c, thread) {
        ReadExact(s.vault[c], thread);
        CommitExact(s, c, ReadBox(s.vault[c], thread), stored);
      }
    case LookAt(c, thread, stored) =>
      if CanShow(s, c, thread) {
        ReadExact(s.vault[c], thread);
        CommitExact(s, c, ReadBox(s.vault[c], thread), stored);
      }
    case LookAway =>
    case Reopen =>
  }

  // ---------------------------------------------------------------- whole runs

  ghost predicate AllNew(s: State, ops: seq<Op>) {
    forall n :: 0 <= n < |ops| ==> NewId(Run(s, ops[..n]), ops[n])
  }

  ghost predicate AllRoom(s: State, ops: seq<Op>) {
    forall n :: 0 <= n < |ops| ==> Room(Run(s, ops[..n]), ops[n])
  }

  lemma BeforeIsPrefix(ops: seq<Op>)
    requires ops != []
    ensures forall n :: 0 <= n < |ops| - 1 ==> ops[..|ops| - 1][..n] == ops[..n]
  {
  }

  lemma {:induction false} RunKeepsAgreement(s: State, ops: seq<Op>)
    requires Agree(s) && AllNew(s, ops)
    ensures Agree(Run(s, ops))
  {
    if ops != [] {
      BeforeIsPrefix(ops);
      RunKeepsAgreement(s, ops[..|ops| - 1]);
      StepKeepsAgreement(Run(s, ops[..|ops| - 1]), ops[|ops| - 1]);
    }
  }

  /** Over any run of arrivals, looks, reads, own messages, failed saves of every kind and
      restarts in which an unread arrival finds room, a chat's counter is the number of messages
      of others not read here: on screen, in the vault and in its document. */
  lemma {:induction false} UnreadCountsMessages(s: State, ops: seq<Op>)
    requires Agree(s) && AllExact(s) && AllNew(s, ops) && AllRoom(s, ops)
    ensures
      var t := Run(s, ops);
      Agree(t) && AllExact(t)
      && forall c :: c in t.chats ==> t.chats[c].unread == t.vault[c].unread == CountUnread(t.chats[c].messages)
  {
    RunKeepsAgreement(s, ops);
    if ops != [] {
      var before := ops[..|ops| - 1];
      BeforeIsPrefix(ops);
      UnreadCountsMessages(s, before);
      StepKeepsExact(Run(s, before), ops[|ops| - 1]);
    }
  }

  /** Every conversation, in the vault and in its document, has fewer than 65536 messages. */
  ghost predicate Small(s: State) {
    && (forall c :: c in s.vault ==> |s.vault[c].messages| <= U16_MAX)
    && (forall c :: c in s.disk ==> |s.disk[c].messages| <= U16_MAX)
  }

  lemma SmallHasRoom(s: State, op: Op)
    requires Agree(s) && AllExact(s) && Small(Apply(s, op))
    ensures Room(s, op)
  {
    if Counts(s, op) {
      var c := op.conversation;
      var ms := s.vault[c].messages;
      assert c in s.chats && EnsureChat(s, c, op.saved) == s;
      assert Apply(s, op).disk[c].messages == ms + [Msg(op.id, false, op.thread, false)];
      ReadingCounts(ms, None);
    }
  }

  /** So the counters are exact in every run whose conversations stay below 65536 messages. */
  lemma {:induction false} SmallConversationsCount(s: State, ops: seq<Op>)
    requires Agree(s) && AllExact(s) && AllNew(s, ops)
    requires forall n :: 0 <= n <= |ops| ==> Small(Run(s, ops[..n]))
    ensures Agree(Run(s, ops)) && AllExact(Run(s, ops))
  {
    if ops != [] {
      var before := ops[..|ops| - 1];
      BeforeIsPrefix(ops);
      assert before[..|before|] == before;
      forall n | 0 <= n <= |before| ensures Small(Run(s, before[..n])) {
        assert before[..n] == ops[..n];
      }
      SmallConversationsCount(s, before);
      assert ops[..|ops|] == ops;
      SmallHasRoom(Run(s, before), ops[|ops| - 1]);
      StepKeepsAgreement(Run(s, before), ops[|ops| - 1]);
      StepKeepsExact(Run(s, before), ops[|ops| - 1]);
    }
  }

  // ---------------------------------------------------------------- a full counter

  function Strangers(n: nat): seq<Msg> { seq(n, i requires 0 <= i < n => Msg(i + 1, false, None, false)) }

  lemma {:induction false} StrangersCount(n: nat)
    ensures CountUnread(Strangers(n)) == n && DistinctIds(Strangers(n))
  {
    if n > 0 {
      assert Strangers(n)[..n - 1] == Strangers(n - 1);
      StrangersCount(n - 1);
    }
  }

  /** A chat of 65535 unread messages forgets to count the next one. */
  lemma FullCounterForgets()
    ensures
      var box := Stored(Strangers(U16_MAX), U16_MAX);
      var s := State(map[1 := box], map[1 := box], map[1 := Chat(box.messages, box.unread, None)], None);
      var t := Apply(s, Inbound(1, 70_000, false, None, Saved, Saved));
      && Agree(s) && AllExact(s)
      && 1 in t.vault && t.vault[1].unread == U16_MAX && CountUnread(t.vault[1].messages) == U16_MAX + 1
  {
    StrangersCount(U16_MAX);
    var box := Stored(Strangers(U16_MAX), U16_MAX);
    assert !Has(box.messages, 70_000);
    CountNext(box.messages, Msg(70_000, false, None, false));
  }

  // ---------------------------------------------------------------- how messages become read

  ghost predicate Holds(boxes: map<nat, Stored>, c: nat, m: Msg) {
    c in boxes && m in boxes[c].messages
  }

  /** The step asks for the reading of the scope `m` belongs to. */
  predicate Tries(s: State, op: Op, c: nat, m: Msg) {
    (op.ReadThe? || op.LookAt?) && op.conversation == c && CanShow(s, c, op.thread)
    && !m.mine && InScope(m, op.thread)
  }

  function After(m: Msg, read: bool): Msg { m.(read := m.read || read) }

  lemma ReadMember(ms: seq<Msg>, scope: Option<nat>, m: Msg)
    requires m in ms
    ensures After(m, Fresh(m, scope)) in ReadScope(ms, scope)
  {
    var i :| 0 <= i < |ms| && ms[i] == m;
    assert ReadScope(ms, scope)[i] in ReadScope(ms, scope);
  }

  /** A message in the vault stays, and turns read exactly by a step that reads its own scope and
      is saved; until a restart it never turns unread. */
  lemma StepReadsScope(s: State, op: Op, c: nat, m: Msg)
    requires Agree(s) && !op.Reopen? && Holds(s.vault, c, m)
    ensures Holds(Apply(s, op).vault, c, After(m, Tries(s, op, c, m) && op.stored == Saved))
  {
    if (op.ReadThe? || op.LookAt?) && op.conversation == c && CanShow(s, c, op.thread) {
      ReadMember(s.vault[c].messages, op.thread, m);
    }
    if op.Inbound? { EnsureKeepsAgreement(s, op.conversation, op.saved); }
  }

  /** A commit that changes one box leaves a message of the document, or what the vault has. */
  lemma CommitHolds(s: State, e: nat, box: Stored, save: Save, c: nat, m: Msg, n: Msg, d: Msg)
    requires Holds(s.vault, c, m) && Holds(s.disk, c, d)
    requires if c == e then n in box.messages else n == m
    ensures
      var t := Commit(s, s.vault[e := box], save);
      && (Holds(t.disk, c, d) || Holds(t.disk, c, n))
      && (save == LostOld ==> Holds(t.disk, c, d))
      && (Holds(t.vault, c, m) || Holds(t.vault, c, n))
  {
  }

  lemma ArrivalKeepsOnDisk(s: State, op: Op, c: nat, m: Msg, d: Msg)
    requires Agree(s) && op.Inbound? && Holds(s.vault, c, m) && Holds(s.disk, c, d)
    ensures Holds(Apply(s, op).disk, c, d) || Holds(Apply(s, op).disk, c, m)
  {
    var t := EnsureChat(s, op.conversation, op.saved);
    EnsureKeepsAgreement(s, op.conversation, op.saved);
    CommitHolds(s, op.conversation, BoxOf(s, op.conversation, 0), op.saved, c, m, m, d);
    if op.conversation in t.chats {
      var unread := !op.mine && !Seen(t, op.conversation, op.id, op.thread);
      var box := Added(t.vault[op.conversation], Msg(op.id, op.mine, op.thread, !unread), unread);
      CommitHolds(t, op.conversation, box, op.stored, c, m, m, if Holds(t.disk, c, d) then d else m);
    }
  }

  lemma ReadingKeepsOnDisk(s: State, c: nat, thread: Option<nat>, save: Save, e: nat, m: Msg, d: Msg)
    requires Agree(s) && CanShow(s, e, thread) && Holds(s.vault, c, m) && Holds(s.disk, c, d)
    ensures
      var t := Commit(s, s.vault[e := ReadBox(s.vault[e], thread)], save);
      var n := if c == e then After(m, Fresh(m, thread)) else m;
      (Holds(t.disk, c, d) || Holds(t.disk, c, n)) && (save == LostOld ==> Holds(t.disk, c, d))
  {
    if c == e { ReadMember(s.vault[c].messages, thread, m); }
    CommitHolds(s, e, ReadBox(s.vault[e], thread), save, c, m, if c == e then After(m, Fresh(m, thread)) else m, d);
  }

  /** The document holds the message as it did, or as the vault held it, read if its scope was. */
  lemma StepReadsOnDisk(s: State, op: Op, c: nat, m: Msg, d: Msg)
    requires Agree(s) && !op.Reopen? && Holds(s.vault, c, m) && Holds(s.disk, c, d)
    ensures Holds(Apply(s, op).disk, c, d) || Holds(Apply(s, op).disk, c, After(m, Tries(s, op, c, m)))
    ensures Tries(s, op, c, m) && op.stored == LostOld ==> Holds(Apply(s, op).disk, c, d)
  {
    match op
    case Inbound(_, _, _, _, _, _) => ArrivalKeepsOnDisk(s, op, c, m, d);
    case Sent(e, id, thread, stored) =>
      if e in s.chats { CommitHolds(s, e, Added(s.vault[e], Msg(id, true, thread, true), false), stored, c, m, m, d); }
    case ReadThe(e, thread, stored) =>
      if CanShow(s, e, thread) { ReadingKeepsOnDisk(s, c, thread, stored, e, m, d); }
    case LookAt(e, thread, stored) =>
      if CanShow(s, e, thread) { ReadingKeepsOnDisk(s, c, thread, stored, e, m, d); }
    case LookAway =>
  }

  /** A message of others that arrives is stored read exactly when its scope is being looked at. */
  lemma ArrivesReadWhenSeen(s: State, c: nat, id: nat, thread: Option<nat>)
    requires Agree(s) && id != 0 && thread != Some(id) && (c in s.vault ==> !Has(s.vault[c].messages, id))
    ensures Holds(Apply(s, Inbound(c, id, false, thread, Saved, Saved)).vault, c, Msg(id, false, thread, Seen(s, c, id, thread)))
  {
    EnsureKeepsAgreement(s, c, Saved);
  }

  // ---------------------------------------------------------------- by conversation, thread and root

  /** The user has this conversation on screen, and in it the main line for a message of no thread,
      or the thread whose root the message is or answers. */
  ghost predicate OnScreen(s: State, c: nat, id: nat, thread: Option<nat>) {
    && s.visible.Some? && s.visible.value.conversation == c
    && (s.visible.value.thread == thread || s.visible.value.thread == Some(id))
  }

  /** A new message is stored with what came: unread exactly when it is somebody else's and not on
      screen as it comes, and counted exactly then. */
  lemma ArrivesAsSeen(s: State, c: nat, id: nat, mine: bool, thread: Option<nat>)
    requires Agree(s) && id != 0 && thread != Some(id) && (c in s.vault ==> !Has(s.vault[c].messages, id))
    ensures
      var t := Apply(s, Inbound(c, id, mine, thread, Saved, Saved));
      var before := if c in s.vault then s.vault[c] else Stored([], 0);
      var read := mine || OnScreen(s, c, id, thread);
      && c in t.vault && t.vault[c].messages == before.messages + [Msg(id, mine, thread, read)]
      && t.vault[c].unread == (if read then before.unread else Min(before.unread + 1, 0xFFFF))
      && t.disk == t.vault && forall d :: d in s.vault && d != c ==> d in t.vault && t.vault[d] == s.vault[d]
  {
    EnsureKeepsAgreement(s, c, Saved);
  }

  /** A message written here is stored as an own, read one. */
  lemma WrittenIsStored(s: State, c: nat, id: nat, thread: Option<nat>)
    requires Agree(s) && c in s.vault
    ensures
      var t := Apply(s, Sent(c, id, thread, Saved));
      && c in t.vault && t.vault[c].messages == s.vault[c].messages + [Msg(id, true, thread, true)]
      && t.vault[c].unread == s.vault[c].unread && t.disk == t.vault
  {
  }

  /** The step asks to show the main line, and the message is of no thread, or to show a thread,
      whose root is on screen, and the message is that root or in that thread. */
  ghost predicate Asked(s: State, op: Op, c: nat, m: Msg) {
    && (op.ReadThe? || op.LookAt?) && op.conversation == c && c in s.chats && !m.mine
    && match op.thread
       case None => m.thread.None?
       case Some(root) =>
         && (exists r :: r in s.chats[c].messages && r.id == root && r.thread.None?)
         && (m.id == root || m.thread == Some(root))
  }

  lemma SameId(ms: seq<Msg>, m: Msg, n: Msg)
    requires DistinctIds(ms) && m in ms && n in ms && m.id == n.id
    ensures m == n
  {
  }

  /** An unread message turns read in the vault exactly when its own scope was asked for and saved. */
  lemma TurnsReadWhenAsked(s: State, op: Op, c: nat, m: Msg)
    requires Agree(s) && NewId(s, op) && !op.Reopen? && Holds(s.vault, c, m) && !m.read
    ensures Holds(Apply(s, op).vault, c, m.(read := true)) <==> Asked(s, op, c, m) && op.stored == Saved
    ensures Holds(Apply(s, op).vault, c, m) <==> !(Asked(s, op, c, m) && op.stored == Saved)
  {
    StepReadsScope(s, op, c, m);
    StepKeepsAgreement(s, op);
    var t := Apply(s, op);
    if Holds(t.vault, c, m) && Holds(t.vault, c, m.(read := true)) {
      SameId(t.vault[c].messages, m, m.(read := true));
    }
  }

  /** What is on screen after a step: the scope that was looked at, once its reading is saved; the
      scope that was read, if its conversation was on screen; nothing after looking away or a new
      start; and else what was. */
  lemma ScreenFollows(s: State, op: Op)
    requires Agree(s)
    ensures
      var v := Apply(s, op).visible;
      match op
      case LookAt(c, thread, stored) =>
        v == if CanShow(s, c, thread) && stored == Saved then Some(Visible(c, thread)) else s.visible
      case ReadThe(c, thread, _) =>
        v == if CanShow(s, c, thread) && s.visible.Some? && s.visible.value.conversation == c then Some(Visible(c, thread))
             else s.visible
      case LookAway => v.None?
      case Reopen => v.None?
      case Inbound(c, _, _, _, saved, _) => v == s.visible
      case Sent(_, _, _, _) => v == s.visible
  {
    if op.Inbound? { EnsureKeepsAgreement(s, op.conversation, op.saved); }
  }

  /** A step of the run asked for the reading of its scope, and its save did not lose it. */
  ghost predicate LookedAt(s: State, ops: seq<Op>, c: nat, m: Msg) {
    exists n :: 0 <= n < |ops| && Tries(Run(s, ops[..n]), ops[n], c, m) && ops[n].stored != LostOld
  }

  lemma LookedAtStays(s: State, ops: seq<Op>, c: nat, m: Msg)
    requires ops != []
    ensures LookedAt(s, ops, c, m) <==>
      || LookedAt(s, ops[..|ops| - 1], c, m)
      || (Tries(Run(s, ops[..|ops| - 1]), ops[|ops| - 1], c, m) && ops[|ops| - 1].stored != LostOld)
  {
    var before := ops[..|ops| - 1];
    BeforeIsPrefix(ops);
    if LookedAt(s, before, c, m) {
      var n :| 0 <= n < |before| && Tries(Run(s, before[..n]), before[n], c, m) && before[n].stored != LostOld;
      assert Tries(Run(s, ops[..n]), ops[n], c, m);
    }
  }

  /** Still as it was, or read. */
  ghost predicate Keeps(boxes: map<nat, Stored>, c: nat, m: Msg, read: bool) {
    Holds(boxes, c, m) || (read && Holds(boxes, c, After(m, true)))
  }

  /** Whatever happens, failed saves and restarts included: a message unread at the start of a run
      is unread at its end, or was read by a step of the run that asked for its own scope. */
  lemma {:induction false} ReadMeansLookedAt(s: State, ops: seq<Op>, c: nat, m: Msg)
    requires Agree(s) && AllNew(s, ops) && Holds(s.vault, c, m) && Holds(s.disk, c, m) && !m.read
    ensures Keeps(Run(s, ops).vault, c, m, LookedAt(s, ops, c, m))
    ensures Keeps(Run(s, ops).disk, c, m, LookedAt(s, ops, c, m))
  {
    if ops != [] {
      var before, op := ops[..|ops| - 1], ops[|ops| - 1];
      BeforeIsPrefix(ops);
      ReadMeansLookedAt(s, before, c, m);
      RunKeepsAgreement(s, before);
      LookedAtStays(s, ops, c, m);
      StepKeepsReading(Run(s, before), op, c, m, LookedAt(s, before, c, m));
    }
  }

  lemma StepKeepsReading(s: State, op: Op, c: nat, m: Msg, read: bool)
    requires Agree(s) && !m.read && Keeps(s.vault, c, m, read) && Keeps(s.disk, c, m, read)
    ensures
      var now := read || (Tries(s, op, c, m) && op.stored != LostOld);
      Keeps(Apply(s, op).vault, c, m, now) && Keeps(Apply(s, op).disk, c, m, now)
  {
    if !op.Reopen? {
      var v := if Holds(s.vault, c, m) then m else After(m, true);
      var d := if Holds(s.disk, c, m) then m else After(m, true);
      StepReadsScope(s, op, c, v);
      StepReadsOnDisk(s, op, c, v, d);
    }
  }
}
