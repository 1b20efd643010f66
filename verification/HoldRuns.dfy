/** Safety of undo-send over every run of typing, holding, timers, undo, focus changes,
    failing saves, failing sends, crashes and restarts. */
module HoldRuns {
  import opened Common
  import opened Holds

  datatype Event =
    | Type(draft: MessageDraft)
    | SwitchTo(scope: Scope)
    | Hold(id: nat, now: int, save: Save)
    | FocusGained
    | FocusLost(save: Save)
    | FocusLostUnseen             // noted while a transfer dialog owns the terminal
    | SuspendNow(save: Save)      // an unfocused tick, signing out or quitting
    | MarkDue(id: nat, now: int, save: Save, suspendSave: Save)
    | Deliver
    | SettleSend(ok: bool, save: Save)
    | RestoreTo(id: nat, save: Save)
    | DiscardHold(id: nat, save: Save)
    | ChooseUndo(seconds: nat, save: Save)
    | CrashAndRestart(home: Scope)

  ghost predicate Enabled(s: App, e: Event) {
    match e
    case Deliver => s.busy.Marked? && Has(s.memory.holds, s.busy.id)
    case SettleSend(_, _) => s.busy.Handed?
    case CrashAndRestart(_) => true
    case Hold(id, _, _) => s.busy.Idle? && id !in s.past.issued
    case MarkDue(id, now, _, _) => s.busy.Idle? && s.focused && IsDue(s.memory.holds, id, now)
    case _ => s.busy.Idle?
  }

  ghost function Step(s: App, e: Event): App
    requires Enabled(s, e)
  {
    match e
    case Type(draft) => s.(composer := draft)
    case SwitchTo(scope) => Switch(s, scope)
    case Hold(id, now, save) => HoldDraft(s, id, now, save)
    case FocusGained => s.(focused := true)
    case FocusLost(save) => LoseFocus(s, save)
    case FocusLostUnseen => s.(focused := false)
    case SuspendNow(save) => Suspend(s, save)
    case MarkDue(id, now, save, suspendSave) => Mark(s, id, now, save, suspendSave)
    case Deliver => HandOver(s)
    case SettleSend(ok, save) => Settle(s, ok, save)
    case RestoreTo(id, save) => Restore(s, id, save)
    case DiscardHold(id, save) => Discard(s, id, save)
    case ChooseUndo(seconds, save) => SetUndo(s, seconds, save)
    case CrashAndRestart(home) => Restart(s, home)
  }

  ghost predicate Run(s: App, es: seq<Event>)
    decreases |es|
  {
    es != [] ==> Enabled(s, es[0]) && Run(Step(s, es[0]), es[1..])
  }

  ghost function After(s: App, es: seq<Event>): App
    requires Run(s, es)
    decreases |es|
  {
    if es == [] then s else After(Step(s, es[0]), es[1..])
  }

  // ---------------------------------------------------------------- the invariant

  ghost predicate Distinct(holds: seq<Held>) {
    forall i, j :: 0 <= i < j < |holds| ==> holds[i].id != holds[j].id
  }

  ghost predicate WasHanded(handed: seq<Handoff>, id: nat) {
    exists i :: 0 <= i < |handed| && handed[i].id == id
  }

  /** A copy of the document that may exist: its ids are distinct and were issued, and no
      hold that was handed over can start a timer again. */
  ghost predicate GoodCopy(issued: set<nat>, handed: seq<Handoff>, p: Personal) {
    && ValidPersonal(p)
    && Distinct(p.holds)
    && (forall h :: h in p.holds ==> h.id in issued)
    && (forall h :: h in p.holds && h.phase == Holding ==> !WasHanded(handed, h.id))
  }

  ghost predicate Owed(past: History, id: nat) {
    id in past.accepted && id !in past.released
  }

  ghost predicate Keeps(p: Personal, id: nat, content: Content) {
    exists h :: h in p.holds && h.id == id && h.content == content
  }

  ghost predicate KeepsOwed(past: History, p: Personal) {
    forall id :: Owed(past, id) ==> Keeps(p, id, past.accepted[id])
  }

  ghost predicate GoodHandoffs(past: History) {
    && (forall i :: 0 <= i < |past.handed| ==>
          var h := past.handed[i]; h.id in past.issued && h.deadline <= h.at && h.focused && h.marked)
    && (forall i, j :: 0 <= i < j < |past.handed| ==> past.handed[i].id != past.handed[j].id)
  }

  ghost predicate Submits(p: Personal, id: nat) {
    exists h :: h in p.holds && h.id == id && h.phase == Submitting
  }

  ghost predicate OnlySubmits(p: Personal, busy: Busy) {
    forall h :: h in p.holds && h.phase == Submitting ==> !busy.Idle? && busy.id == h.id
  }

  ghost predicate GoodBusy(s: App) {
    && OnlySubmits(s.memory, s.busy)
    && match s.busy
       case Idle => true
       case Marked(id, at) =>
         s.focused && !WasHanded(s.past.handed, id) && Submits(s.disk, id) && Submits(s.memory, id)
         && forall h :: h in s.memory.holds && h.id == id ==> h.deadline <= at
       case Handed(id) => WasHanded(s.past.handed, id) && Submits(s.memory, id)
  }

  ghost predicate GoodDrafts(s: App) {
    s.draftScope == s.scope && s.draftScope !in s.drafts
  }

  ghost predicate Copies(s: App) {
    GoodCopy(s.past.issued, s.past.handed, s.memory) && GoodCopy(s.past.issued, s.past.handed, s.disk)
  }

  ghost predicate Recoverable(s: App) {
    KeepsOwed(s.past, s.memory) && KeepsOwed(s.past, s.disk)
  }

  ghost predicate Inv(s: App) {
    && Copies(s) && Recoverable(s)
    && s.past.accepted.Keys <= s.past.issued
    && GoodHandoffs(s.past) && GoodBusy(s) && GoodDrafts(s)
  }

  ghost predicate Fresh(s: App) {
    && s.busy.Idle? && ValidPersonal(s.disk) && s.disk.holds == [] && s.memory == s.disk
    && s.past == History({}, map[], map[], [])
    && s.draftScope == s.scope && s.drafts == map[]
  }

  // ---------------------------------------------------------------- next documents

  lemma RecoverKeeps(past: History, p: Personal)
    requires KeepsOwed(past, p)
    ensures KeepsOwed(past, p.(holds := Recover(p.holds)))
  {
    var r := Recover(p.holds);
    forall id | Owed(past, id) ensures Keeps(p.(holds := r), id, past.accepted[id]) {
      var i :| 0 <= i < |p.holds| && p.holds[i].id == id && p.holds[i].content == past.accepted[id];
      assert r[i] in r;
    }
  }

  lemma PhaseKeeps(past: History, p: Personal, id: nat, phase: HoldPhase)
    requires KeepsOwed(past, p)
    ensures KeepsOwed(past, p.(holds := WithPhase(p.holds, id, phase)))
  {
    var r := WithPhase(p.holds, id, phase);
    forall o | Owed(past, o) ensures Keeps(p.(holds := r), o, past.accepted[o]) {
      var i :| 0 <= i < |p.holds| && p.holds[i].id == o && p.holds[i].content == past.accepted[o];
      assert r[i] in r;
    }
  }

  lemma PhaseIsGood(issued: set<nat>, handed: seq<Handoff>, p: Personal, id: nat, phase: HoldPhase)
    requires GoodCopy(issued, handed, p) && phase != Holding
    ensures GoodCopy(issued, handed, p.(holds := WithPhase(p.holds, id, phase)))
  {
  }

  /** Dropping one hold keeps what is owed once that hold is no longer owed. */
  lemma WithoutKeeps(past: History, p: Personal, id: nat, reason: Reason)
    requires KeepsOwed(past, p)
    ensures KeepsOwed(past.(released := past.released[id := reason]), p.(holds := Without(p.holds, id)))
    ensures KeepsOwed(past.(released := past.released[id := reason]), p)
  {
    var q := p.(holds := Without(p.holds, id));
    forall o | Owed(past, o) && o != id ensures Keeps(q, o, past.accepted[o]) {
      var h :| h in p.holds && h.id == o && h.content == past.accepted[o];
      assert h in q.holds;
    }
  }

  lemma {:induction false} WithoutDistinct(holds: seq<Held>, id: nat)
    requires Distinct(holds)
    ensures Distinct(Without(holds, id))
  {
    if holds != [] {
      WithoutDistinct(holds[1..], id);
      forall h | h in Without(holds[1..], id) ensures holds[0].id != h.id {
        assert h in holds[1..];
      }
    }
  }

  lemma AppendDistinct(holds: seq<Held>, h: Held)
    requires Distinct(holds) && forall o :: o in holds ==> o.id != h.id
    ensures Distinct(holds + [h])
  {
  }

  // ---------------------------------------------------------------- one step at a time

  function Kept(s: App): seq<Held> {
    if s.scope in s.restored then Without(s.memory.holds, s.restored[s.scope]) else s.memory.holds
  }

  lemma HeldNextIsGood(s: App, id: nat, now: int)
    requires Inv(s) && id !in s.past.issued && s.scope.conversation.Some?
    ensures GoodCopy(s.past.issued + {id}, s.past.handed, HeldNext(s, id, now))
  {
    if s.scope in s.restored { WithoutDistinct(s.memory.holds, s.restored[s.scope]); }
    AppendDistinct(Kept(s), Held(id, DraftContent(s), now + s.memory.undoSeconds, Holding));
    var next := HeldNext(s, id, now);
    assert forall h :: h in next.holds ==> h in Kept(s) || h.id == id;
  }

  lemma HeldNextKeeps(s: App, id: nat, now: int, past: History)
    requires KeepsOwed(s.past, s.memory) && s.scope.conversation.Some?
    requires past.accepted == s.past.accepted[id := DraftContent(s)] || past.accepted == s.past.accepted
    requires past.released
          == if s.scope in s.restored then s.past.released[s.restored[s.scope] := Replaced] else s.past.released
    ensures KeepsOwed(past, HeldNext(s, id, now))
  {
    var next := HeldNext(s, id, now);
    assert next.holds[|Kept(s)|] in next.holds;
    forall o | Owed(past, o) && o != id ensures Keeps(next, o, past.accepted[o]) {
      assert Owed(s.past, o);
      var h :| h in s.memory.holds && h.id == o && h.content == s.past.accepted[o];
      assert h in Kept(s);
    }
    if Owed(past, id) && past.accepted == s.past.accepted {
      var h :| h in s.memory.holds && h.id == id && h.content == s.past.accepted[id];
      assert h in Kept(s);
    }
  }

  lemma HoldKeepsCopies(s: App, id: nat, now: int, save: Save)
    requires Inv(s) && id !in s.past.issued
    ensures Copies(HoldDraft(s, id, now, save))
  {
    if s.scope.conversation.Some? {
      HeldNextIsGood(s, id, now);
    }
  }

  lemma HoldKeepsRecoverable(s: App, id: nat, now: int, save: Save)
    requires Recoverable(s)
    ensures Recoverable(HoldDraft(s, id, now, save))
  {
    if s.scope.conversation.Some? && !Outcome(HeldNext(s, id, now), save).LostOld? {
      HeldNextKeeps(s, id, now, HoldDraft(s, id, now, save).past);
      if Outcome(HeldNext(s, id, now), save).LostNew? && s.scope in s.restored {
        StillOwed(s.past, s.memory, s.restored[s.scope]);
      }
    }
  }

  /** An owed text stays where it is when another one stops being owed. */
  lemma StillOwed(past: History, p: Personal, gone: nat)
    requires KeepsOwed(past, p)
    ensures KeepsOwed(past.(released := past.released[gone := Replaced]), p)
  {
  }

  lemma HoldKeepsBusy(s: App, id: nat, now: int, save: Save)
    requires GoodBusy(s) && s.busy.Idle?
    ensures GoodBusy(HoldDraft(s, id, now, save))
  {
    var t := HoldDraft(s, id, now, save);
    assert forall h :: h in t.memory.holds && h.phase == Submitting ==> h in s.memory.holds;
  }

  lemma HoldKeepsPast(s: App, id: nat, now: int, save: Save)
    requires s.past.accepted.Keys <= s.past.issued && GoodHandoffs(s.past)
    ensures HoldDraft(s, id, now, save).past.accepted.Keys <= HoldDraft(s, id, now, save).past.issued
    ensures GoodHandoffs(HoldDraft(s, id, now, save).past)
  {
  }

  lemma HoldKeepsInv(s: App, id: nat, now: int, save: Save)
    requires Inv(s) && s.busy.Idle? && id !in s.past.issued
    ensures Inv(HoldDraft(s, id, now, save))
  {
    HoldKeepsCopies(s, id, now, save);
    HoldKeepsRecoverable(s, id, now, save);
    HoldKeepsBusy(s, id, now, save);
    HoldKeepsPast(s, id, now, save);
  }

  lemma SuspendKeepsInv(s: App, save: Save)
    requires Inv(s) && s.busy.Idle?
    ensures Inv(Suspend(s, save))
    ensures forall h :: h in Suspend(s, save).memory.holds ==> h.phase != Holding
  {
    RecoverKeeps(s.past, s.memory);
  }

  /** Moving one hold out of its timer, whether or not the save works. */
  lemma PhaseSaveKeeps(s: App, id: nat, phase: HoldPhase, save: Save)
    requires Inv(s) && phase != Holding
    ensures
      var t := Commit(s, s.memory.(holds := WithPhase(s.memory.holds, id, phase)), save);
      Copies(t) && Recoverable(t)
  {
    PhaseKeeps(s.past, s.memory, id, phase);
    PhaseIsGood(s.past.issued, s.past.handed, s.memory, id, phase);
  }

  lemma MarkedIsBusy(issued: set<nat>, handed: seq<Handoff>, p: Personal, id: nat, now: int)
    requires GoodCopy(issued, handed, p) && OnlySubmits(p, Idle) && IsDue(p.holds, id, now)
    ensures
      var q := p.(holds := WithPhase(p.holds, id, Submitting));
      && OnlySubmits(q, Marked(id, now)) && Submits(q, id) && !WasHanded(handed, id)
      && forall h :: h in q.holds && h.id == id ==> h.deadline <= now
  {
    var i :| 0 <= i < |p.holds| && p.holds[i].id == id && p.holds[i].phase == Holding && p.holds[i].deadline <= now;
    var holds := WithPhase(p.holds, id, Submitting);
    assert p.holds[i] in p.holds;
    assert holds[i] in holds;
    forall h | h in holds && h.id == id ensures h == holds[i] {
      var j :| 0 <= j < |holds| && holds[j] == h;
      assert p.holds[j].id == id;
    }
  }

  lemma MarkKeepsInv(s: App, id: nat, now: int, save: Save, suspendSave: Save)
    requires Inv(s) && s.busy.Idle? && s.focused && IsDue(s.memory.holds, id, now)
    ensures Inv(Mark(s, id, now, save, suspendSave))
  {
    var next := s.memory.(holds := WithPhase(s.memory.holds, id, Submitting));
    var t := Commit(s, next, save);
    PhaseSaveKeeps(s, id, Submitting, save);
    if Outcome(next, save).Saved? {
      MarkedIsBusy(s.past.issued, s.past.handed, s.memory, id, now);
    } else {
      assert GoodBusy(t);
      SuspendKeepsInv(t, suspendSave);
    }
  }

  lemma DeliverKeepsInv(s: App)
    requires Inv(s) && s.busy.Marked? && Has(s.memory.holds, s.busy.id)
    ensures Inv(HandOver(s))
  {
    var id := s.busy.id;
    var h := Find(s.memory.holds, id);
    var t := HandOver(s);
    assert t.past.handed[|s.past.handed|].id == id;
    assert forall i :: 0 <= i < |s.past.handed| ==> t.past.handed[i] == s.past.handed[i];
    assert forall o :: WasHanded(t.past.handed, o) ==> o == id || WasHanded(s.past.handed, o);
    UniqueCopy(s.memory.holds, id);
    UniqueCopy(s.disk.holds, id);
    var d :| d in s.disk.holds && d.id == id && d.phase == Submitting;
    assert exists i :: 0 <= i < |s.disk.holds| && s.disk.holds[i] == d;
  }

  lemma UniqueCopy(holds: seq<Held>, id: nat)
    requires Distinct(holds)
    ensures forall g, h :: g in holds && h in holds && g.id == id && h.id == id ==> g == h
  {
  }

  lemma SettleKeepsRecoverable(s: App, ok: bool, save: Save)
    requires Recoverable(s) && s.busy.Handed?
    ensures Recoverable(Settle(s, ok, save))
  {
    var id := s.busy.id;
    var uncertain := s.memory.(holds := WithPhase(s.memory.holds, id, Uncertain));
    var next := if ok then s.memory.(holds := Without(s.memory.holds, id)) else uncertain;
    var t := Settle(s, ok, save);
    PhaseKeeps(s.past, s.memory, id, Uncertain);
    if ok {
      WithoutKeeps(s.past, s.memory, id, Sent);
      WithoutKeeps(s.past, s.disk, id, Sent);
      WithoutKeeps(s.past, uncertain, id, Sent);
    }
    assert t.memory == next || t.memory == uncertain;
    assert t.disk == next || t.disk == s.disk;
  }

  lemma SettleKeepsCopies(s: App, ok: bool, save: Save)
    requires Copies(s) && s.busy.Handed?
    ensures Copies(Settle(s, ok, save))
  {
    var id := s.busy.id;
    PhaseIsGood(s.past.issued, s.past.handed, s.memory, id, Uncertain);
    if ok { WithoutDistinct(s.memory.holds, id); }
  }

  /** The settled hold was the only one submitting. */
  lemma SettleEndsSubmission(s: App, ok: bool, save: Save)
    requires OnlySubmits(s.memory, s.busy) && s.busy.Handed?
    ensures OnlySubmits(Settle(s, ok, save).memory, Idle) && Settle(s, ok, save).busy == Idle
  {
  }

  lemma SettleKeepsInv(s: App, ok: bool, save: Save)
    requires Inv(s) && s.busy.Handed?
    ensures Inv(Settle(s, ok, save))
  {
    SettleKeepsRecoverable(s, ok, save);
    SettleKeepsCopies(s, ok, save);
    SettleEndsSubmission(s, ok, save);
    var t := Settle(s, ok, save);
    assert t.past.handed == s.past.handed && t.past.issued == s.past.issued;
  }

  lemma RestoreKeepsInv(s: App, id: nat, save: Save)
    requires Inv(s) && s.busy.Idle?
    ensures Inv(Restore(s, id, save))
  {
    if CanRestore(s, id) {
      var next := s.memory.(holds := WithPhase(s.memory.holds, id, Draft));
      var t := Commit(s, next, save);
      PhaseSaveKeeps(s, id, Draft, save);
      assert OnlySubmits(next, s.busy) && GoodBusy(t);
      var u := Restore(s, id, save);
      assert u.memory == t.memory && u.disk == t.disk && u.past == t.past && u.busy == t.busy;
    }
  }

  lemma DiscardKeepsInv(s: App, id: nat, save: Save)
    requires Inv(s) && s.busy.Idle?
    ensures Inv(Discard(s, id, save))
  {
    WithoutKeeps(s.past, s.memory, id, Discarded);
    WithoutKeeps(s.past, s.disk, id, Discarded);
    WithoutDistinct(s.memory.holds, id);
  }

  lemma RestartKeepsInv(s: App, home: Scope)
    requires Inv(s)
    ensures Inv(Restart(s, home))
    ensures forall h :: h in Restart(s, home).memory.holds ==> h.phase != Holding
  {
    RecoverKeeps(s.past, s.disk);
  }

  lemma StepKeepsInv(s: App, e: Event)
    requires Inv(s) && Enabled(s, e)
    ensures Inv(Step(s, e))
  {
    match e
    case Hold(id, now, save) => HoldKeepsInv(s, id, now, save);
    case FocusLost(save) => assert Inv(s.(focused := false)); SuspendKeepsInv(s.(focused := false), save);
    case SuspendNow(save) => SuspendKeepsInv(s, save);
    case MarkDue(id, now, save, suspendSave) => MarkKeepsInv(s, id, now, save, suspendSave);
    case Deliver => DeliverKeepsInv(s);
    case SettleSend(ok, save) => SettleKeepsInv(s, ok, save);
    case RestoreTo(id, save) => RestoreKeepsInv(s, id, save);
    case DiscardHold(id, save) => DiscardKeepsInv(s, id, save);
    case CrashAndRestart(home) => RestartKeepsInv(s, home);
    case ChooseUndo(seconds, save) => assert GoodCopy(s.past.issued, s.past.handed, s.memory);
    case _ =>
  }

  lemma {:induction false} RunKeepsInv(s: App, es: seq<Event>)
    requires Inv(s) && Run(s, es)
    ensures Inv(After(s, es))
    decreases |es|
  {
    if es != [] {
      StepKeepsInv(s, es[0]);
      RunKeepsInv(Step(s, es[0]), es[1..]);
    }
  }

  // ---------------------------------------------------------------- what follows for every run

  lemma FreshIsInv(s: App)
    requires Fresh(s)
    ensures Inv(s)
  {
  }

  /** Each hold id reaches the transport at most once, only at or after its deadline while
      the terminal was focused, and only behind a durable Submitting marker. */
  lemma HandedAtMostOnce(s: App, es: seq<Event>)
    requires Fresh(s) && Run(s, es)
    ensures
      var log := After(s, es).past.handed;
      && (forall i, j :: 0 <= i < j < |log| ==> log[i].id != log[j].id)
      && (forall i :: 0 <= i < |log| ==> log[i].deadline <= log[i].at && log[i].focused && log[i].marked)
  {
    FreshIsInv(s);
    RunKeepsInv(s, es);
  }

  /** Every accepted text is on disk with its exact conversation, reply and thread until
      its send returned Ok, a resend replaced it or the user discarded it. */
  lemma AcceptedTextIsRecoverable(s: App, es: seq<Event>, id: nat)
    requires Fresh(s) && Run(s, es) && Owed(After(s, es).past, id)
    ensures Keeps(After(s, es).disk, id, After(s, es).past.accepted[id])
    ensures Keeps(Restart(After(s, es), s.scope).memory, id, After(s, es).past.accepted[id])
  {
    FreshIsInv(s);
    RunKeepsInv(s, es);
    RecoverKeeps(After(s, es).past, After(s, es).disk);
  }

  /** A crash anywhere between the marker and the end of the send leaves a saved copy that
      asks for review; it is never turned back into a plain draft or a timer by itself. */
  lemma InterruptedSendIsUncertain(s: App, es: seq<Event>, home: Scope)
    requires Fresh(s) && Run(s, es) && After(s, es).busy.Marked?
    ensures
      var z := After(s, es);
      var t := Restart(z, home);
      && (exists h :: h in t.memory.holds && h.id == z.busy.id && h.phase == Uncertain)
      && (Has(z.memory.holds, z.busy.id) ==>
            exists h :: h in Restart(HandOver(z), home).memory.holds && h.id == z.busy.id && h.phase == Uncertain)
  {
    FreshIsInv(s);
    RunKeepsInv(s, es);
    var z := After(s, es);
    var d :| d in z.disk.holds && d.id == z.busy.id && d.phase == Submitting;
    var i :| 0 <= i < |z.disk.holds| && z.disk.holds[i] == d;
    var r := Recover(z.disk.holds);
    assert r[i] in r && r[i].phase == Uncertain;
  }

  // ---------------------------------------------------------------- what each command comes to

  lemma WithoutIsGone(holds: seq<Held>, id: nat)
    ensures !Has(Without(holds, id), id)
  {
    var r := Without(holds, id);
    assert forall i :: 0 <= i < |r| ==> r[i] in r;
  }

  /** Holding a draft keeps exactly what the composer says, where it says it, for as many seconds
      as the document asks for; the text it was restored from goes, and no other. */
  lemma HeldIsTheComposers(s: App, id: nat, now: int, save: Save)
    requires Inv(s) && s.scope.conversation.Some?
    ensures
      var t, c := HoldDraft(s, id, now, save), s.composer;
      if save == Saved then
        && t.memory.holds != [] && t.disk == t.memory && t.composer == MessageDraft("", None)
        && var h := t.memory.holds[|t.memory.holds| - 1];
           && h.id == id && h.phase == Holding && h.deadline == now + s.memory.undoSeconds
           && h.content.text == c.text && Some(h.content.conversation) == s.scope.conversation
           && h.content.threadRoot == s.scope.thread
           && h.content.replyTo == (if c.replyTo.Some? then c.replyTo else s.scope.thread)
           && id in t.past.accepted && t.past.accepted[id] == h.content
           && forall g: Held :: g in t.memory.holds <==>
                g == h || (g in s.memory.holds && !(s.scope in s.restored && s.restored[s.scope] == g.id))
      else t.memory == s.memory && t.composer == c && t.past.accepted == s.past.accepted
  {
  }

  lemma RestoreIsFree(s: App, h: Held)
    requires Distinct(s.memory.holds) && GoodDrafts(s) && h in s.memory.holds
    ensures Has(s.memory.holds, h.id) && Find(s.memory.holds, h.id) == h
    ensures CanRestore(s, h.id) <==>
      && h.content.conversation in s.chats
      && DraftAt(s, Scope(Some(h.content.conversation), h.content.threadRoot)).text == ""
  {
    var i :| 0 <= i < |s.memory.holds| && s.memory.holds[i] == h;
    UniqueCopy(s.memory.holds, h.id);
  }

  lemma WithPhaseRows(holds: seq<Held>, h: Held, phase: HoldPhase)
    requires h in holds
    ensures h.(phase := phase) in WithPhase(holds, h.id, phase)
    ensures forall g :: g in holds && g.id != h.id ==> g in WithPhase(holds, h.id, phase)
  {
    var next := WithPhase(holds, h.id, phase);
    var i :| 0 <= i < |holds| && holds[i] == h;
    assert next[i] == h.(phase := phase);
    forall g | g in holds && g.id != h.id ensures g in next {
      var j :| 0 <= j < |holds| && holds[j] == g;
      assert next[j] == g;
    }
  }

  /** Restoring brings a text back into the composer of its own conversation and thread, if that
      one shows none and the conversation is known; its row becomes a draft. */
  lemma RestoredIsInTheComposer(s: App, h: Held, save: Save)
    requires Inv(s) && h in s.memory.holds
    ensures
      var t, home := Restore(s, h.id, save), Scope(Some(h.content.conversation), h.content.threadRoot);
      var free := h.content.conversation in s.chats && DraftAt(s, home).text == "";
      if free && save == Saved then
        && t.scope == t.draftScope == home && t.composer == MessageDraft(h.content.text, h.content.replyTo)
        && t.disk == t.memory && h.(phase := Draft) in t.memory.holds
        && home in t.restored && t.restored[home] == h.id
        && forall g :: g in s.memory.holds && g.id != h.id ==> g in t.memory.holds
      else t.memory == s.memory && t.composer == s.composer && t.scope == s.scope && t.drafts == s.drafts
  {
    RestoreIsFree(s, h);
    WithPhaseRows(s.memory.holds, h, Draft);
  }

  /** Discarding removes that text, in memory and on disk, and no other. */
  lemma DiscardedIsGone(s: App, id: nat, save: Save)
    requires Inv(s)
    ensures
      var t := Discard(s, id, save);
      if save == Saved then
        && !Has(t.memory.holds, id) && t.disk == t.memory
        && forall g :: g in t.memory.holds <==> g in s.memory.holds && g.id != id
      else t.memory == s.memory
  {
    WithoutIsGone(s.memory.holds, id);
  }

  // ---------------------------------------------------------------- what is handed over

  ghost predicate Accepted(past: History, h: Held) {
    h.id in past.accepted && past.accepted[h.id] == h.content
  }

  /** Whatever waits or is on its way out is a text that was accepted as it stands. */
  ghost predicate Promised(s: App) {
    && (forall h :: h in s.memory.holds && h.phase == Holding ==> Accepted(s.past, h))
    && (s.busy.Marked? ==> forall h :: h in s.memory.holds && h.id == s.busy.id ==> Accepted(s.past, h))
    && (forall i :: 0 <= i < |s.past.handed| ==>
          var o := s.past.handed[i]; o.id in s.past.accepted && s.past.accepted[o.id] == o.content)
  }

  lemma HoldKeepsPromise(s: App, id: nat, now: int, save: Save)
    requires Promised(s) && s.busy.Idle? && id !in s.past.accepted
    ensures Promised(HoldDraft(s, id, now, save))
  {
    var t := HoldDraft(s, id, now, save);
    forall h | h in t.memory.holds && h.phase == Holding ensures Accepted(t.past, h) {
      if h !in s.memory.holds { assert s.scope.conversation.Some? && h.id == id && h.content == DraftContent(s); }
    }
    assert t.past.handed == s.past.handed;
  }

  /** Ending the timer of one row leaves the other timers and all contents. */
  lemma PhaseRows(past: History, holds: seq<Held>, id: nat, phase: HoldPhase)
    requires phase != Holding && forall h :: h in holds && h.phase == Holding ==> Accepted(past, h)
    ensures forall h :: h in WithPhase(holds, id, phase) && h.phase == Holding ==> Accepted(past, h)
    ensures (forall h :: h in holds && h.id == id ==> Accepted(past, h))
        ==> (forall h :: h in WithPhase(holds, id, phase) && h.id == id ==> Accepted(past, h))
  {
    var r := WithPhase(holds, id, phase);
    forall h | h in r
      ensures exists g :: g in holds && g.id == h.id && g.content == h.content && (h.phase == Holding ==> g == h)
    {
      var j :| 0 <= j < |r| && r[j] == h;
      assert holds[j] in holds;
    }
  }

  lemma WaitingIsAccepted(past: History, holds: seq<Held>, id: nat)
    requires Distinct(holds) && IsHolding(holds, id)
    requires forall h :: h in holds && h.phase == Holding ==> Accepted(past, h)
    ensures forall h :: h in holds && h.id == id ==> Accepted(past, h)
  {
    var i :| 0 <= i < |holds| && holds[i].id == id && holds[i].phase == Holding;
    assert holds[i] in holds;
    UniqueCopy(holds, id);
  }

  lemma MarkKeepsPromise(s: App, id: nat, now: int, save: Save, suspendSave: Save)
    requires Distinct(s.memory.holds) && Promised(s) && s.busy.Idle? && IsHolding(s.memory.holds, id)
    ensures Promised(Mark(s, id, now, save, suspendSave))
  {
    var next := s.memory.(holds := WithPhase(s.memory.holds, id, Submitting));
    WaitingIsAccepted(s.past, s.memory.holds, id);
    PhaseRows(s.past, s.memory.holds, id, Submitting);
    if !Outcome(next, save).Saved? { SuspendKeepsPromise(Commit(s, next, save), suspendSave); }
  }

  lemma SettleKeepsPromise(s: App, ok: bool, save: Save)
    requires Promised(s) && s.busy.Handed?
    ensures Promised(Settle(s, ok, save))
  {
    PhaseRows(s.past, s.memory.holds, s.busy.id, Uncertain);
  }

  lemma RestoreKeepsPromise(s: App, id: nat, save: Save)
    requires Promised(s) && s.busy.Idle?
    ensures Promised(Restore(s, id, save))
  {
    PhaseRows(s.past, s.memory.holds, id, Draft);
  }

  lemma DeliverKeepsPromise(s: App)
    requires Promised(s) && s.busy.Marked? && Has(s.memory.holds, s.busy.id)
    ensures Promised(HandOver(s))
  {
    var t := HandOver(s);
    assert Accepted(s.past, Find(s.memory.holds, s.busy.id));
    assert forall i :: 0 <= i < |s.past.handed| ==> t.past.handed[i] == s.past.handed[i];
  }

  lemma SuspendKeepsPromise(s: App, save: Save)
    requires Promised(s) && s.busy.Idle?
    ensures Promised(Suspend(s, save))
  {
    RecoverySettles(s.memory.holds);
  }

  lemma RestartKeepsPromise(s: App, home: Scope)
    requires Promised(s)
    ensures Promised(Restart(s, home))
  {
    RecoverySettles(s.disk.holds);
  }

  lemma DiscardKeepsPromise(s: App, id: nat, save: Save)
    requires Promised(s) && s.busy.Idle?
    ensures Promised(Discard(s, id, save))
  {
  }

  lemma StepKeepsPromise(s: App, e: Event)
    requires s.past.accepted.Keys <= s.past.issued && Distinct(s.memory.holds) && Promised(s) && Enabled(s, e)
    ensures Promised(Step(s, e))
  {
    match e
    case Hold(id, now, save) => HoldKeepsPromise(s, id, now, save);
    case MarkDue(id, now, save, suspendSave) => MarkKeepsPromise(s, id, now, save, suspendSave);
    case Deliver => DeliverKeepsPromise(s);
    case SettleSend(ok, save) => SettleKeepsPromise(s, ok, save);
    case RestoreTo(id, save) => RestoreKeepsPromise(s, id, save);
    case DiscardHold(id, save) => DiscardKeepsPromise(s, id, save);
    case FocusLost(save) => SuspendKeepsPromise(s.(focused := false), save);
    case SuspendNow(save) => SuspendKeepsPromise(s, save);
    case CrashAndRestart(home) => RestartKeepsPromise(s, home);
    case _ =>
  }

  lemma {:induction false} RunKeepsPromise(s: App, es: seq<Event>)
    requires Inv(s) && Promised(s) && Run(s, es)
    ensures Promised(After(s, es))
    decreases |es|
  {
    if es != [] {
      StepKeepsInv(s, es[0]);
      StepKeepsPromise(s, es[0]);
      RunKeepsPromise(Step(s, es[0]), es[1..]);
    }
  }

  /** Over every run, each text that reached the transport is exactly the one that was accepted
      under its id: conversation, words, reply and thread. */
  lemma HandedIsAccepted(s: App, es: seq<Event>, i: nat)
    requires Fresh(s) && Run(s, es) && i < |After(s, es).past.handed|
    ensures
      var past := After(s, es).past;
      past.handed[i].id in past.accepted && past.accepted[past.handed[i].id] == past.handed[i].content
  {
    FreshIsInv(s);
    RunKeepsPromise(s, es);
  }

  /** Sending a restored text again never loses it: whatever the save reports, the document on
      disk holds the accepted copy or the new text in its place, and after a reported failure
      the copy is still in memory and the text in the composer. */
  lemma ReplacementLosesNothing(s: App, id: nat, now: int, save: Save)
    requires Inv(s) && id !in s.past.issued && s.scope in s.restored && Owed(s.past, s.restored[s.scope])
    requires s.scope.conversation.Some?
    ensures
      var t, before := HoldDraft(s, id, now, save), s.restored[s.scope];
      && (Keeps(t.disk, before, s.past.accepted[before]) || Keeps(t.disk, id, DraftContent(s)))
      && ((t.composer == s.composer && Keeps(t.memory, before, s.past.accepted[before]))
          || (t.composer == EMPTY_DRAFT && Keeps(t.memory, id, DraftContent(s))))
  {
    var next := HeldNext(s, id, now);
    assert next.holds[|next.holds| - 1] in next.holds;
    assert Keeps(next, id, DraftContent(s));
  }

  ghost predicate TurnedUncertain(p: Personal, q: Personal, id: nat) {
    exists h :: h in p.holds && h.id == id && h.(phase := Uncertain) in q.holds
  }

  /** A send that failed stays in memory as Uncertain with its content; one that succeeded
      leaves memory and disk together, or stays as Uncertain when the save failed. */
  lemma SettledHold(s: App, ok: bool, save: Save)
    requires Inv(s) && s.busy.Handed?
    ensures
      var t := Settle(s, ok, save);
      && t.busy == Idle
      && (ok && save == Saved ==> !Has(t.memory.holds, s.busy.id) && !Has(t.disk.holds, s.busy.id))
      && (!(ok && save == Saved) ==> TurnedUncertain(s.memory, t.memory, s.busy.id))
      && (forall h :: h in s.memory.holds && h.id != s.busy.id ==> h in t.memory.holds)
  {
    var g :| g in s.memory.holds && g.id == s.busy.id && g.phase == Submitting;
    WithPhaseRows(s.memory.holds, g, Uncertain);
  }

  ghost predicate Live(p: Personal, id: nat) {
    exists h :: h in p.holds && h.id == id && h.phase == Holding
  }

  /** A hold starts its timer when it is created and never again. */
  lemma StepNeverReholds(s: App, e: Event, id: nat)
    requires Enabled(s, e) && id in s.past.issued && !Live(s.memory, id)
    ensures id in Step(s, e).past.issued && !Live(Step(s, e).memory, id)
  {
    match e
    case Hold(other, now, save) => HoldNeverReholds(s, other, now, save, id);
    case MarkDue(other, now, save, suspendSave) => MarkNeverReholds(s, other, now, save, suspendSave, id);
    case SettleSend(ok, save) => SettleNeverReholds(s, ok, save, id);
    case RestoreTo(other, save) => RestoreNeverReholds(s, other, save, id);
    case _ =>
  }

  lemma SettleNeverReholds(s: App, ok: bool, save: Save, id: nat)
    requires s.busy.Handed? && !Live(s.memory, id)
    ensures !Live(Settle(s, ok, save).memory, id)
  {
  }

  lemma RestoreNeverReholds(s: App, other: nat, save: Save, id: nat)
    requires !Live(s.memory, id)
    ensures !Live(Restore(s, other, save).memory, id)
  {
  }

  lemma HoldNeverReholds(s: App, other: nat, now: int, save: Save, id: nat)
    requires id != other && !Live(s.memory, id)
    ensures !Live(HoldDraft(s, other, now, save).memory, id)
  {
    if s.scope.conversation.Some? {
      forall h | h in HeldNext(s, other, now).holds && h.id == id ensures h in s.memory.holds {
        assert h in Kept(s);
      }
    }
  }

  lemma MarkNeverReholds(s: App, other: nat, now: int, save: Save, suspendSave: Save, id: nat)
    requires !Live(s.memory, id)
    ensures !Live(Mark(s, other, now, save, suspendSave).memory, id)
  {
    var next := s.memory.(holds := WithPhase(s.memory.holds, other, Submitting));
    assert !Live(next, id);
    assert !Live(Commit(s, next, save).memory, id);
  }

  lemma {:induction false} NeverReholds(s: App, es: seq<Event>, id: nat)
    requires Run(s, es) && id in s.past.issued && !Live(s.memory, id)
    ensures !Live(After(s, es).memory, id)
    decreases |es|
  {
    if es != [] {
      StepNeverReholds(s, es[0], id);
      NeverReholds(Step(s, es[0]), es[1..], id);
    }
  }

  // ---------------------------------------------------------------- drafts of other scopes

  /** Switching scopes moves texts between the composer and the table but changes no draft. */
  lemma SwitchKeepsDrafts(s: App, scope: Scope, other: Scope)
    requires GoodDrafts(s)
    ensures DraftAt(Switch(s, scope), other) == DraftAt(s, other)
    ensures GoodDrafts(Switch(s, scope)) && Switch(s, scope).composer == DraftAt(s, scope)
  {
  }

  /** Restoring a hold writes one draft, and only where there was no text. */
  lemma RestoreOverwritesNothing(s: App, id: nat, save: Save, other: Scope)
    requires GoodDrafts(s)
    ensures
      var t := Restore(s, id, save);
      && GoodDrafts(t)
      && (DraftAt(t, other) == DraftAt(s, other)
          || (CanRestore(s, id) && other == HoldScope(Find(s.memory.holds, id)) && DraftAt(s, other).text == ""
              && DraftAt(t, other)
                 == MessageDraft(Find(s.memory.holds, id).content.text, Find(s.memory.holds, id).content.replyTo)))
  {
    if CanRestore(s, id) {
      var h := Find(s.memory.holds, id);
      var t := Commit(s, s.memory.(holds := WithPhase(s.memory.holds, id, Draft)), save);
      SwitchKeepsDrafts(t.(restored := t.restored[HoldScope(h) := id]), HoldScope(h), other);
    }
  }
}
