/** The terminal application's hold methods, field by field
    (apps/mutte/src/personal_ui.rs, apps/mutte/src/app.rs). */
module HoldApp {
  import opened Common
  import opened Holds
  import opened HoldSubmit
  import HoldRuns

  datatype Reply = Ok | Failed

  class Terminal {
    var personal: Personal
    var disk: Personal
    var busy: Busy
    var windowFocused: bool
    var scope: Scope
    var input: string
    var replyTo: Option<nat>
    var draftScope: Scope
    var drafts: map<Scope, MessageDraft>
    var restoredHolds: map<Scope, nat>
    const chats: set<nat>
    ghost var past: History

    ghost function View(): App
      reads this
    {
      App(personal, disk, busy, windowFocused, scope, MessageDraft(input, replyTo), draftScope, drafts,
          restoredHolds, chats, past)
    }

    constructor (personal: Personal, home: Scope, chats: set<nat>, ghost past: History)
      ensures View() == Restart(
        App(personal, personal, Idle, true, home, EMPTY_DRAFT, home, map[], map[], chats, past), home)
    {
      this.disk, this.busy, this.windowFocused := personal, Idle, true;
      this.scope, this.draftScope := home, home;
      this.input, this.replyTo, this.drafts, this.restoredHolds := "", None, map[], map[];
      this.chats, this.past := chats, past;
      var recovered := RecoverEach(personal.holds);
      this.personal := personal.(holds := recovered);
    }

    /** The client validates the document, then the vault replaces the file atomically. */
    method CommitPersonal(next: Personal, save: Save) returns (r: Reply)
      modifies this`personal, this`disk
      ensures View() == Commit(old(View()), next, save)
      ensures r == if Outcome(next, save).Saved? then Ok else Failed
    {
      if !ValidPersonal(next) { return Failed; }
      if save == LostOld { return Failed; }
      disk := next;
      if save == LostNew { return Failed; }
      personal := next;
      r := Ok;
    }

    /** The next document: the restored hold of this scope gives way to the new one. */
    method WithDraft(id: nat, now: int) returns (next: Personal)
      requires scope.conversation.Some?
      ensures next == HeldNext(View(), id, now)
    {
      next := personal;
      if scope in restoredHolds {
        next := next.(holds := Without(next.holds, restoredHolds[scope]));
      }
      var reply := if replyTo.Some? then replyTo else scope.thread;
      var hold := Held(id, Content(scope.conversation.value, input, reply, scope.thread),
                       now + personal.undoSeconds, Holding);
      next := next.(holds := next.holds + [hold]);
    }

    method HoldTheDraft(id: nat, now: int, save: Save) returns (r: Reply)
      modifies this
      ensures View() == HoldDraft(old(View()), id, now, save)
      ensures r == Failed ==> input == old(input) && replyTo == old(replyTo)
    {
      if scope.conversation.None? { return Failed; }
      var next := WithDraft(id, now);
      past := past.(issued := past.issued + {id});
      if scope in restoredHolds && Outcome(next, save) != LostOld {
        past := past.(released := past.released[restoredHolds[scope] := Replaced]);
      }
      r := CommitPersonal(next, save);
      if r == Failed { return; }
      past := past.(accepted := past.accepted[id := DraftContent(old(View()))]);
      restoredHolds := restoredHolds - {scope};
      input, replyTo := "", None;
    }

    method SuspendHolds(save: Save) returns (r: Reply)
      modifies this`personal, this`disk
      ensures View() == Suspend(old(View()), save)
    {
      if !Timed(personal.holds) { return Ok; }
      var recovered := RecoverEach(personal.holds);
      var next := personal.(holds := recovered);
      r := CommitPersonal(next, save);
      if r == Failed { personal := next; }
    }

    method FocusChanged(gained: bool, save: Save)
      modifies this`personal, this`disk, this`windowFocused
      ensures View() == if gained then old(View()).(focused := true) else LoseFocus(old(View()), save)
    {
      windowFocused := gained;
      if !gained { var _ := SuspendHolds(save); }
    }

    method AdvanceHolds(now: int, save: Save, answers: seq<Answer>)
      requires busy.Idle? && |answers| == |Due(personal.holds, now)|
      modifies this
      ensures View() == if old(windowFocused) then SubmitAll(old(View()), Due(old(personal.holds), now), now, answers)
                        else Suspend(old(View()), save)
      ensures TickedAny(old(View()), now, answers, View()) && (!old(windowFocused) ==> Stopped(old(View()), View()))
    {
      if !windowFocused {
        SuspendStops(View(), save);
        var _ := SuspendHolds(save);
        return;
      }
      AnyTickComesTo(View(), now, answers);
      var due: seq<nat> := [];
      for i := 0 to |personal.holds|
        invariant View() == old(View()) && i <= |personal.holds|
        invariant due == Due(personal.holds[..i], now)
      {
        assert personal.holds[..i + 1] == personal.holds[..i] + [personal.holds[i]];
        DueAppend(personal.holds[..i], personal.holds[i], now);
        if personal.holds[i].phase == Holding && personal.holds[i].deadline <= now {
          due := due + [personal.holds[i].id];
        }
      }
      assert personal.holds[..|personal.holds|] == personal.holds;
      var k := 0;
      while k < |due|
        invariant k <= |due| && busy.Idle?
        invariant SubmitAll(View(), due[k..], now, answers[k..]) == SubmitAll(old(View()), due, now, answers)
      {
        assert due[k..][1..] == due[k + 1..] && answers[k..][1..] == answers[k + 1..];
        var _ := SubmitHold(due[k], now, answers[k]);
        k := k + 1;
      }
    }

    method MarkHold(id: nat, now: int, save: Save, suspendSave: Save) returns (r: Reply)
      modifies this`personal, this`disk, this`busy
      ensures View() == Mark(old(View()), id, now, save, suspendSave)
      ensures r == Ok <==> Outcome(old(personal).(holds := WithPhase(old(personal).holds, id, Submitting)), save).Saved?
      ensures r == Ok ==> busy == Marked(id, now)
    {
      r := CommitPersonal(personal.(holds := WithPhase(personal.holds, id, Submitting)), save);
      if r == Failed {
        var _ := SuspendHolds(suspendSave);
      } else {
        busy := Marked(id, now);
      }
    }

    /** The call into the client: from here on the text may have left the device. */
    method Execute()
      requires busy.Marked? && Has(personal.holds, busy.id)
      modifies this`busy, this`past
      ensures View() == HandOver(old(View()))
    {
      ghost var t := HandOver(View());
      past, busy := t.past, Handed(busy.id);
    }

    method SettleHold(ok: bool, save: Save) returns (r: Reply)
      requires busy.Handed?
      modifies this`personal, this`disk, this`busy, this`past
      ensures View() == Settle(old(View()), ok, save)
      ensures r == Ok ==> ok && save == Saved
    {
      var id := busy.id;
      var next := personal.(holds := WithPhase(personal.holds, id, Uncertain));
      if ok { next := personal.(holds := Without(personal.holds, id)); }
      r := CommitPersonal(next, save);
      if r == Failed {
        personal := personal.(holds := WithPhase(personal.holds, id, Uncertain));
      }
      busy := Idle;
      if ok { past := past.(released := past.released[id := Sent]); } else { r := Failed; }
    }

    method SubmitHold(id: nat, now: int, a: Answer) returns (r: Reply)
      requires busy.Idle?
      modifies this
      ensures View() == Submit(old(View()), id, now, a) && busy.Idle?
      ensures SubmittedAny(old(View()), id, now, a, View())
      ensures r == Ok ==> a.mark == Saved && a.sent && a.settle == Saved
    {
      AnySubmitComesTo(View(), id, now, a);
      if !IsHolding(personal.holds, id) { return Failed; }
      MarkedIsStored(personal.holds, id);
      r := MarkHold(id, now, a.mark, a.suspend);
      if r == Failed { return; }
      Execute();
      r := SettleHold(a.sent, a.settle);
    }

    method SyncScope()
      modifies this
      ensures View() == SyncDraftScope(old(View()))
    {
      if draftScope == scope { return; }
      var before := MessageDraft(input, replyTo);
      input, replyTo := "", None;
      if before.text != "" || before.replyTo.Some? {
        drafts := drafts[draftScope := before];
      }
      var draft := if scope in drafts then drafts[scope] else EMPTY_DRAFT;
      drafts := drafts - {scope};
      input, replyTo := draft.text, draft.replyTo;
      draftScope := scope;
    }

    method RestoreHold(id: nat, save: Save) returns (r: Reply)
      modifies this
      ensures View() == Restore(old(View()), id, save)
      ensures r == Failed ==> input == old(input) && drafts == old(drafts) && scope == old(scope)
    {
      if !Has(personal.holds, id) { return Failed; }
      var hold := Find(personal.holds, id);
      if hold.content.conversation !in chats { return Failed; }
      var target := Scope(Some(hold.content.conversation), hold.content.threadRoot);
      if (draftScope == target && input != "") || (target in drafts && drafts[target].text != "") {
        return Failed;
      }
      r := CommitPersonal(personal.(holds := WithPhase(personal.holds, id, Draft)), save);
      if r == Failed { return; }
      restoredHolds := restoredHolds[target := id];
      scope := target;
      SyncScope();
      input, replyTo := hold.content.text, hold.content.replyTo;
    }

    /** Undo takes the most recent text that still waits. */
    method Undo(save: Save) returns (r: Reply, ghost chosen: Option<nat>)
      modifies this
      ensures chosen.None? ==>
        View() == old(View())
        && forall i :: 0 <= i < |old(personal.holds)| ==> old(personal.holds)[i].phase != Holding
      ensures chosen.Some? ==>
                && View() == Restore(old(View()), chosen.value, save)
                && exists i :: 0 <= i < |old(personal.holds)|
                     && old(personal.holds)[i].id == chosen.value && old(personal.holds)[i].phase == Holding
                     && forall j :: i < j < |old(personal.holds)| ==> old(personal.holds)[j].phase != Holding
    {
      var i := |personal.holds|;
      while i > 0
        invariant 0 <= i <= |personal.holds| && View() == old(View())
        invariant forall j :: i <= j < |personal.holds| ==> personal.holds[j].phase != Holding
      {
        i := i - 1;
        if personal.holds[i].phase == Holding {
          chosen := Some(personal.holds[i].id);
          r := RestoreHold(personal.holds[i].id, save);
          return;
        }
      }
      r, chosen := Failed, None;
    }

    method DiscardHold(id: nat, save: Save) returns (r: Reply)
      modifies this
      ensures View() == Discard(old(View()), id, save)
    {
      var next := personal.(holds := Without(personal.holds, id));
      if Outcome(next, save) != LostOld { past := past.(released := past.released[id := Discarded]); }
      r := CommitPersonal(next, save);
    }
  }
}
