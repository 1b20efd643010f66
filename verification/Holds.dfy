/** Undo-send: texts held back for a few seconds, their durable copies and the composer
    drafts around them, as functions on one value
    (crates/mutte-client/src/personal.rs, apps/mutte/src/personal_ui.rs). */
module Holds {
  import opened Common

  datatype HoldPhase = Holding | Draft | Submitting | Uncertain

  datatype Content = Content(conversation: nat, text: string, replyTo: Option<nat>, threadRoot: Option<nat>)

  datatype Held = Held(id: nat, content: Content, deadline: int, phase: HoldPhase)

  /** The personal document, in memory and on disk; `alertsKnown` when its alert mode is unset
      or one the program knows. */
  datatype Personal = Personal(version: nat, undoSeconds: nat, alertsKnown: bool, holds: seq<Held>)

  predicate ValidPersonal(p: Personal) {
    p.version == 1 && p.undoSeconds in {0, 5, 10} && p.alertsKnown
  }

  /** No timer survives a restart or a lost focus. */
  function RecoverPhase(p: HoldPhase): HoldPhase {
    match p
    case Holding => Draft
    case Submitting => Uncertain
    case _ => p
  }

  function Recover(holds: seq<Held>): (r: seq<Held>)
    ensures |r| == |holds|
    ensures forall i :: 0 <= i < |r| ==> r[i] == holds[i].(phase := RecoverPhase(holds[i].phase))
  {
    seq(|holds|, i requires 0 <= i < |holds| => holds[i].(phase := RecoverPhase(holds[i].phase)))
  }

  predicate Runs(p: HoldPhase) { p == Holding || p == Submitting }

  ghost predicate HoldsText(holds: seq<Held>, id: nat, content: Content) {
    exists h :: h in holds && h.id == id && h.content == content
  }

  /** After recovery no timer and no submission runs, exactly the same texts are there under the
      same ids, what was open for review still is, a text that
      waited is a draft and one on its way out is uncertain, and recovering again changes nothing. */
  lemma RecoverySettles(holds: seq<Held>)
    ensures forall h :: h in Recover(holds) ==> !Runs(h.phase)
    ensures forall id, content :: HoldsText(Recover(holds), id, content) <==> HoldsText(holds, id, content)
    ensures forall h :: h in holds && !Runs(h.phase) ==> h in Recover(holds)
    ensures forall h :: h in holds && h.phase == Holding ==> h.(phase := Draft) in Recover(holds)
    ensures forall h :: h in holds && h.phase == Submitting ==> h.(phase := Uncertain) in Recover(holds)
    ensures Recover(Recover(holds)) == Recover(holds)
    ensures Recover(holds) == holds <==> forall h :: h in holds ==> !Runs(h.phase)
  {
    var r := Recover(holds);
    forall id, content ensures HoldsText(r, id, content) <==> HoldsText(holds, id, content) {
      if HoldsText(holds, id, content) {
        var i :| 0 <= i < |holds| && holds[i].id == id && holds[i].content == content;
        assert r[i] in r;
      }
      if HoldsText(r, id, content) {
        var i :| 0 <= i < |r| && r[i].id == id && r[i].content == content;
        assert holds[i] in holds;
      }
    }
    forall h | h in holds && !Runs(h.phase) ensures h in r {
      var i :| 0 <= i < |holds| && holds[i] == h;
      assert r[i] in r;
    }
    forall h | h in holds && Runs(h.phase)
      ensures h.(phase := if h.phase == Holding then Draft else Uncertain) in r
    {
      var i :| 0 <= i < |holds| && holds[i] == h;
      assert r[i] in r;
    }
    if r == holds {
      forall h | h in holds ensures !Runs(h.phase) {
        assert h in r;
      }
    }
  }

  /** The loop that rewrites each phase in place. */
  method RecoverEach(holds: seq<Held>) returns (r: seq<Held>)
    ensures r == Recover(holds)
  {
    r := holds;
    for i := 0 to |r|
      invariant |r| == |holds|
      invariant forall j :: 0 <= j < i ==> r[j] == Recover(holds)[j]
      invariant forall j :: i <= j < |r| ==> r[j] == holds[j]
    {
      match r[i].phase {
        case Holding => r := r[i := r[i].(phase := Draft)];
        case Submitting => r := r[i := r[i].(phase := Uncertain)];
        case _ =>
      }
    }
  }

  function WithPhase(holds: seq<Held>, id: nat, phase: HoldPhase): (r: seq<Held>)
    ensures |r| == |holds|
    ensures forall i :: 0 <= i < |r| ==> r[i] == if holds[i].id == id then holds[i].(phase := phase) else holds[i]
  {
    seq(|holds|, i requires 0 <= i < |holds| =>
      if holds[i].id == id then holds[i].(phase := phase) else holds[i])
  }

  function Without(holds: seq<Held>, id: nat): (r: seq<Held>)
    ensures forall h :: h in r <==> h in holds && h.id != id
  {
    if holds == [] then []
    else if holds[0].id == id then Without(holds[1..], id)
    else [holds[0]] + Without(holds[1..], id)
  }

  predicate Has(holds: seq<Held>, id: nat) {
    exists i :: 0 <= i < |holds| && holds[i].id == id
  }

  function Find(holds: seq<Held>, id: nat): (h: Held)
    requires Has(holds, id)
    ensures h in holds && h.id == id
  {
    if holds[0].id == id then holds[0] else Find(holds[1..], id)
  }

  // ---------------------------------------------------------------- the application state

  /** A conversation together with the thread that is open in it, if any. */
  datatype Scope = Scope(conversation: Option<nat>, thread: Option<nat>)

  datatype MessageDraft = MessageDraft(text: string, replyTo: Option<nat>)

  const EMPTY_DRAFT := MessageDraft("", None)

  /** Where a submission stands. The event loop does nothing else meanwhile. */
  datatype Busy = Idle | Marked(id: nat, at: int) | Handed(id: nat)

  /** One handoff to the transport, and what was true at that moment. */
  datatype Handoff = Handoff(id: nat, content: Content, deadline: int, at: int, focused: bool, marked: bool)

  datatype Reason = Sent | Replaced | Discarded

  datatype History = History(
    issued: set<nat>,             // every hold id ever generated
    accepted: map<nat, Content>,  // texts the user was told are held
    released: map<nat, Reason>,   // why a saved copy is no longer owed
    handed: seq<Handoff>)

  datatype App = App(
    memory: Personal,
    disk: Personal,
    busy: Busy,
    focused: bool,
    scope: Scope,
    composer: MessageDraft,
    draftScope: Scope,
    drafts: map<Scope, MessageDraft>,
    restored: map<Scope, nat>,
    chats: set<nat>,
    past: History)

  /** Saving refuses an invalid document before it touches the file. */
  function Outcome(next: Personal, save: Save): Save {
    if ValidPersonal(next) then save else LostOld
  }

  function Commit(s: App, next: Personal, save: Save): App {
    var r := Outcome(next, save);
    s.(disk := r.OnDisk(s.disk, next), memory := if r.Saved? then next else s.memory)
  }

  function Release(s: App, id: nat, reason: Reason): App {
    s.(past := s.past.(released := s.past.released[id := reason]))
  }

  function DraftContent(s: App): Content
    requires s.scope.conversation.Some?
  {
    Content(s.scope.conversation.value, s.composer.text,
            if s.composer.replyTo.Some? then s.composer.replyTo else s.scope.thread, s.scope.thread)
  }

  /** The document after the composer's text was held as `id`: a restored draft of the
      same scope is replaced in the same save. */
  function HeldNext(s: App, id: nat, now: int): Personal
    requires s.scope.conversation.Some?
  {
    var kept := if s.scope in s.restored then Without(s.memory.holds, s.restored[s.scope]) else s.memory.holds;
    s.memory.(holds := kept + [Held(id, DraftContent(s), now + s.memory.undoSeconds, Holding)])
  }

  /** What is owed once `content` was held as `id`, in the place of a restored hold if there is one. */
  function HeldPast(past: History, id: nat, content: Content, restored: Option<nat>, r: Save): History {
    past.(issued := past.issued + {id},
          released := if restored.Some? && !r.LostOld? then past.released[restored.value := Replaced]
                      else past.released,
          accepted := if r.Saved? then past.accepted[id := content] else past.accepted)
  }

  function HoldDraft(s: App, id: nat, now: int, save: Save): App {
    if s.scope.conversation.None? then s
    else
      var next := HeldNext(s, id, now);
      var r := Outcome(next, save);
      var before := if s.scope in s.restored then Some(s.restored[s.scope]) else None;
      var t := Commit(s, next, save).(past := HeldPast(s.past, id, DraftContent(s), before, r));
      if r.Saved? then t.(restored := t.restored - {s.scope}, composer := EMPTY_DRAFT) else t
  }

  predicate Timed(holds: seq<Held>) {
    exists i :: 0 <= i < |holds| && holds[i].phase in {Holding, Submitting}
  }

  /** A failed write still stops the timers in memory. */
  function Suspend(s: App, save: Save): App {
    if !Timed(s.memory.holds) then s
    else
      var next := s.memory.(holds := Recover(s.memory.holds));
      Commit(s, next, save).(memory := next)
  }

  function LoseFocus(s: App, save: Save): App { Suspend(s.(focused := false), save) }

  predicate IsHolding(holds: seq<Held>, id: nat) {
    exists i :: 0 <= i < |holds| && holds[i].id == id && holds[i].phase == Holding
  }

  predicate IsDue(holds: seq<Held>, id: nat, now: int) {
    exists i :: 0 <= i < |holds| && holds[i].id == id && holds[i].phase == Holding && holds[i].deadline <= now
  }

  /** First the durable marker; without it the submission is called off. */
  function Mark(s: App, id: nat, now: int, save: Save, suspendSave: Save): App {
    var next := s.memory.(holds := WithPhase(s.memory.holds, id, Submitting));
    var t := Commit(s, next, save);
    if Outcome(next, save).Saved? then t.(busy := Marked(id, now)) else Suspend(t, suspendSave)
  }

  function HandOver(s: App): App
    requires s.busy.Marked? && Has(s.memory.holds, s.busy.id)
  {
    var h := Find(s.memory.holds, s.busy.id);
    var marked := exists i :: 0 <= i < |s.disk.holds| && s.disk.holds[i].id == h.id && s.disk.holds[i].phase == Submitting;
    s.(busy := Handed(h.id),
       past := s.past.(handed := s.past.handed + [Handoff(h.id, h.content, h.deadline, s.busy.at, s.focused, marked)]))
  }

  function Settle(s: App, ok: bool, save: Save): App
    requires s.busy.Handed?
  {
    var id := s.busy.id;
    var next := s.memory.(holds := if ok then Without(s.memory.holds, id) else WithPhase(s.memory.holds, id, Uncertain));
    var t := Commit(s, next, save).(busy := Idle);
    var t := if Outcome(next, save).Saved? then t
             else t.(memory := t.memory.(holds := WithPhase(t.memory.holds, id, Uncertain)));
    if ok then Release(t, id, Sent) else t
  }

  // ---------------------------------------------------------------- drafts by scope

  function DraftAt(s: App, scope: Scope): MessageDraft {
    if scope == s.draftScope then s.composer
    else if scope in s.drafts then s.drafts[scope] else EMPTY_DRAFT
  }

  function SyncDraftScope(s: App): App {
    if s.draftScope == s.scope then s
    else
      var kept := if s.composer != EMPTY_DRAFT then s.drafts[s.draftScope := s.composer] else s.drafts;
      s.(composer := if s.scope in kept then kept[s.scope] else EMPTY_DRAFT,
         drafts := kept - {s.scope},
         draftScope := s.scope)
  }

  function Switch(s: App, scope: Scope): App { SyncDraftScope(s.(scope := scope)) }

  function HoldScope(h: Held): Scope { Scope(Some(h.content.conversation), h.content.threadRoot) }

  predicate CanRestore(s: App, id: nat) {
    && Has(s.memory.holds, id)
    && var h := Find(s.memory.holds, id);
       && h.content.conversation in s.chats
       && !(s.draftScope == HoldScope(h) && s.composer.text != "")
       && (HoldScope(h) in s.drafts ==> s.drafts[HoldScope(h)].text == "")
  }

  function Restore(s: App, id: nat, save: Save): App {
    if !CanRestore(s, id) then s
    else
      var h := Find(s.memory.holds, id);
      var next := s.memory.(holds := WithPhase(s.memory.holds, id, Draft));
      var t := Commit(s, next, save);
      if !Outcome(next, save).Saved? then t
      else
        var u := Switch(t.(restored := t.restored[HoldScope(h) := id]), HoldScope(h));
        u.(composer := MessageDraft(h.content.text, h.content.replyTo))
  }

  function Discard(s: App, id: nat, save: Save): App {
    var next := s.memory.(holds := Without(s.memory.holds, id));
    var t := Commit(s, next, save);
    if Outcome(next, save).LostOld? then t else Release(t, id, Discarded)
  }

  function SetUndo(s: App, seconds: nat, save: Save): App {
    Commit(s, s.memory.(undoSeconds := seconds), save)
  }

  /** The process ends at any moment; the next one starts from the document on disk. */
  function Restart(s: App, home: Scope): App {
    s.(memory := s.disk.(holds := Recover(s.disk.holds)), busy := Idle, focused := true,
       scope := home, composer := EMPTY_DRAFT, draftScope := home, drafts := map[], restored := map[])
  }
}
