/** One submission and one tick of submissions without a crash: runs of the step machine, and
    what they come to (apps/mutte/src/personal_ui.rs, advance_holds and submit_hold). */
module HoldSubmit {
  import opened Common
  import opened Holds
  import HoldRuns

  /** How the outside world answers one submission. */
  datatype Answer = Answer(mark: Save, suspend: Save, sent: bool, settle: Save)

  /** One whole submission, as the submit method runs it without a crash. */
  function Submit(s: App, id: nat, now: int, a: Answer): App {
    if !IsHolding(s.memory.holds, id) then s
    else
      var t := Mark(s, id, now, a.mark, a.suspend);
      if t.busy.Marked? && t.busy.id == id && Has(t.memory.holds, id) then Settle(HandOver(t), a.sent, a.settle) else t
  }

  function SubmitAll(s: App, due: seq<nat>, now: int, answers: seq<Answer>): App
    requires |answers| == |due|
    decreases |due|
  {
    if due == [] then s else SubmitAll(Submit(s, due[0], now, answers[0]), due[1..], now, answers[1..])
  }

  function Due(holds: seq<Held>, now: int): seq<nat> {
    if holds == [] then []
    else (if holds[0].phase == Holding && holds[0].deadline <= now then [holds[0].id] else []) + Due(holds[1..], now)
  }

  lemma {:induction false} DueAppend(a: seq<Held>, h: Held, now: int)
    ensures Due(a + [h], now) == Due(a, now) + if h.phase == Holding && h.deadline <= now then [h.id] else []
  {
    if a == [] {
      assert [] + [h] == [h];
    } else {
      assert (a + [h])[1..] == a[1..] + [h];
      DueAppend(a[1..], h, now);
    }
  }

  lemma MarkedIsStored(holds: seq<Held>, id: nat)
    requires IsHolding(holds, id)
    ensures Has(WithPhase(holds, id, Submitting), id)
  {
    var i :| 0 <= i < |holds| && holds[i].id == id;
    assert WithPhase(holds, id, Submitting)[i].id == id;
  }

  // ---------------------------------------------------------------- submissions are runs

  lemma Prepend(s: App, e: HoldRuns.Event, es: seq<HoldRuns.Event>)
    requires HoldRuns.Enabled(s, e) && HoldRuns.Run(HoldRuns.Step(s, e), es)
    ensures HoldRuns.Run(s, [e] + es) && HoldRuns.After(s, [e] + es) == HoldRuns.After(HoldRuns.Step(s, e), es)
  {
    assert ([e] + es)[1..] == es;
  }

  /** What a submission does is a run of the step machine, so it inherits its safety. */
  lemma SubmitIsARun(s: App, id: nat, now: int, a: Answer) returns (es: seq<HoldRuns.Event>)
    requires HoldRuns.Inv(s) && s.busy.Idle? && s.focused
    requires IsHolding(s.memory.holds, id) ==> IsDue(s.memory.holds, id, now)
    ensures HoldRuns.Run(s, es) && HoldRuns.After(s, es) == Submit(s, id, now, a)
  {
    es := [];
    if IsHolding(s.memory.holds, id) {
      var mark := HoldRuns.MarkDue(id, now, a.mark, a.suspend);
      var t := HoldRuns.Step(s, mark);
      if t.busy.Marked? && t.busy.id == id && Has(t.memory.holds, id) {
        var settle := HoldRuns.SettleSend(a.sent, a.settle);
        var u := HandOver(t);
        Prepend(u, settle, []);
        Prepend(t, HoldRuns.Deliver, [settle] + []);
        es := [HoldRuns.Deliver] + ([settle] + []);
      }
      Prepend(s, mark, es);
      es := [mark] + es;
    }
  }

  lemma {:induction false} Concat(s: App, es: seq<HoldRuns.Event>, fs: seq<HoldRuns.Event>)
    requires HoldRuns.Run(s, es) && HoldRuns.Run(HoldRuns.After(s, es), fs)
    ensures HoldRuns.Run(s, es + fs) && HoldRuns.After(s, es + fs) == HoldRuns.After(HoldRuns.After(s, es), fs)
    decreases |es|
  {
    if es == [] {
      assert es + fs == fs;
    } else {
      Concat(HoldRuns.Step(s, es[0]), es[1..], fs);
      Prepend(s, es[0], es[1..] + fs);
      assert [es[0]] + (es[1..] + fs) == es + fs;
    }
  }

  /** Every text that may still be submitted in this tick was due when the tick began. */
  ghost predicate DueStays(s: App, due: seq<nat>, now: int) {
    forall h :: h in s.memory.holds && h.phase == Holding && h.id in due ==> h.deadline <= now
  }

  ghost predicate NoNewTimers(p: Personal, q: Personal) {
    forall h :: h in q.holds && h.phase == Holding ==> h in p.holds
  }

  lemma MarkOnlyRemovesTimers(s: App, id: nat, now: int, save: Save, suspendSave: Save)
    ensures NoNewTimers(s.memory, Mark(s, id, now, save, suspendSave).memory)
  {
    assert NoNewTimers(s.memory, s.memory.(holds := WithPhase(s.memory.holds, id, Submitting)));
  }

  lemma SettleOnlyRemovesTimers(s: App, ok: bool, save: Save)
    requires s.busy.Handed?
    ensures NoNewTimers(s.memory, Settle(s, ok, save).memory)
  {
    assert NoNewTimers(s.memory, s.memory.(holds := WithPhase(s.memory.holds, s.busy.id, Uncertain)));
  }

  lemma MarkReaches(s: App, id: nat, now: int, save: Save, suspendSave: Save)
    requires s.busy.Idle? && IsHolding(s.memory.holds, id)
    ensures
      var t := Mark(s, id, now, save, suspendSave);
      && t.focused == s.focused && (t.busy.Idle? || (t.busy == Marked(id, now) && Has(t.memory.holds, id)))
  {
    MarkedIsStored(s.memory.holds, id);
  }

  lemma SubmitOnlyRemovesTimers(s: App, id: nat, now: int, a: Answer)
    requires s.busy.Idle?
    ensures Submit(s, id, now, a).busy.Idle? && Submit(s, id, now, a).focused == s.focused
    ensures NoNewTimers(s.memory, Submit(s, id, now, a).memory)
  {
    if IsHolding(s.memory.holds, id) {
      MarkReaches(s, id, now, a.mark, a.suspend);
      MarkOnlyRemovesTimers(s, id, now, a.mark, a.suspend);
      var t := Mark(s, id, now, a.mark, a.suspend);
      if t.busy.Marked? { SettleOnlyRemovesTimers(HandOver(t), a.sent, a.settle); }
    }
  }

  /** A whole tick of due holds is a run of the step machine. */
  lemma {:induction false} AdvanceIsARun(s: App, due: seq<nat>, now: int, answers: seq<Answer>)
    returns (es: seq<HoldRuns.Event>)
    requires HoldRuns.Inv(s) && s.busy.Idle? && s.focused && |answers| == |due| && DueStays(s, due, now)
    ensures HoldRuns.Run(s, es) && HoldRuns.After(s, es) == SubmitAll(s, due, now, answers)
    decreases |due|
  {
    es := [];
    if due != [] {
      if IsHolding(s.memory.holds, due[0]) {
        var i :| 0 <= i < |s.memory.holds| && s.memory.holds[i].id == due[0] && s.memory.holds[i].phase == Holding;
        assert s.memory.holds[i] in s.memory.holds;
      }
      var first := SubmitIsARun(s, due[0], now, answers[0]);
      HoldRuns.RunKeepsInv(s, first);
      SubmitOnlyRemovesTimers(s, due[0], now, answers[0]);
      var t := Submit(s, due[0], now, answers[0]);
      assert DueStays(t, due[1..], now);
      var rest := AdvanceIsARun(t, due[1..], now, answers[1..]);
      Concat(s, first, rest);
      es := first + rest;
    }
  }

  lemma {:induction false} DueIsDue(holds: seq<Held>, now: int, h: Held)
    requires HoldRuns.Distinct(holds) && h in holds && h.id in Due(holds, now)
    ensures h.phase == Holding && h.deadline <= now
  {
    if h.id == holds[0].id {
      assert h == holds[0] by { var i :| 0 <= i < |holds| && holds[i] == h; }
      if !(h.phase == Holding && h.deadline <= now) {
        assert h.id in Due(holds[1..], now);
        DueIds(holds[1..], now, h.id);
        assert false;
      }
    } else {
      assert h.id in Due(holds[1..], now);
      DueIsDue(holds[1..], now, h);
    }
  }

  lemma {:induction false} DueIds(holds: seq<Held>, now: int, id: nat)
    requires id in Due(holds, now)
    ensures exists i :: 0 <= i < |holds| && holds[i].id == id
  {
    if holds[0].id != id {
      DueIds(holds[1..], now, id);
      var i :| 0 <= i < |holds[1..]| && holds[1..][i].id == id;
      assert holds[i + 1].id == id;
    }
  }

  /** The tick of a focused terminal, from any reachable state. */
  lemma TickIsARun(s: App, now: int, answers: seq<Answer>) returns (es: seq<HoldRuns.Event>)
    requires HoldRuns.Inv(s) && s.busy.Idle? && s.focused && |answers| == |Due(s.memory.holds, now)|
    ensures HoldRuns.Run(s, es) && HoldRuns.After(s, es) == SubmitAll(s, Due(s.memory.holds, now), now, answers)
    ensures HoldRuns.Inv(HoldRuns.After(s, es))
  {
    var due := Due(s.memory.holds, now);
    forall h | h in s.memory.holds && h.id in due ensures h.deadline <= now {
      DueIsDue(s.memory.holds, now, h);
    }
    es := AdvanceIsARun(s, due, now, answers);
    HoldRuns.RunKeepsInv(s, es);
  }

  // ---------------------------------------------------------------- what one submission comes to

  ghost predicate Row(p: Personal, id: nat, content: Content, phase: HoldPhase) {
    exists h :: h in p.holds && h.id == id && h.content == content && h.phase == phase
  }

  ghost predicate Gone(s: App, id: nat) { !Has(s.memory.holds, id) && !Has(s.disk.holds, id) }

  /** A send that was confirmed, in memory and on disk, leaves nothing to send again; any other
      leaves the text for review. One that failed still has its text on disk. */
  ghost predicate SettledAs(s: App, t: App, id: nat, content: Content, a: Answer) {
    && (if a.sent && a.settle == Saved then Gone(t, id) else Row(t.memory, id, content, Uncertain))
    && (a.sent ==> id in t.past.released && t.past.released[id] == Sent)
    && (!a.sent ==> HoldsText(t.disk.holds, id, content) && (id in t.past.released <==> id in s.past.released))
  }

  /** A saved marker means exactly one handoff, of exactly that text; without it nothing is handed
      over, every timer stops, and every text is still there. */
  ghost predicate Submitted(s: App, h: Held, now: int, a: Answer, t: App) {
    && t.busy == Idle
    && if a.mark == Saved then
         && t.past.handed == s.past.handed + [Handoff(h.id, h.content, h.deadline, now, s.focused, true)]
         && SettledAs(s, t, h.id, h.content, a)
         && (forall g :: g in s.memory.holds && g.id != h.id ==> g in t.memory.holds)
       else
         && t.past == s.past
         && (forall g :: g in t.memory.holds ==> !Runs(g.phase))
         && (forall id, c :: HoldsText(s.memory.holds, id, c) ==> HoldsText(t.memory.holds, id, c))
  }

  lemma MarkedText(s: App, h: Held, now: int, a: Answer)
    requires HoldRuns.Inv(s) && s.busy.Idle? && h in s.memory.holds && h.phase == Holding && a.mark == Saved
    ensures
      var t := Mark(s, h.id, now, a.mark, a.suspend);
      && t.busy == Marked(h.id, now) && t.disk == t.memory && t.past == s.past && t.focused == s.focused
      && Has(t.memory.holds, h.id) && Find(t.memory.holds, h.id) == h.(phase := Submitting)
      && h.(phase := Submitting) in t.memory.holds && HoldRuns.Distinct(t.memory.holds) && ValidPersonal(t.memory)
      && (forall g :: g in s.memory.holds && g.id != h.id ==> g in t.memory.holds)
  {
    var t := Mark(s, h.id, now, a.mark, a.suspend);
    var i :| 0 <= i < |s.memory.holds| && s.memory.holds[i] == h;
    assert t.memory.holds[i] == h.(phase := Submitting);
    HoldRuns.UniqueCopy(t.memory.holds, h.id);
    HoldRuns.WithPhaseRows(s.memory.holds, h, Submitting);
  }

  lemma SettledText(s: App, u: App, h: Held, a: Answer)
    requires u.busy == Handed(h.id) && ValidPersonal(u.memory) && u.disk == u.memory && h in u.memory.holds
    requires u.past.released == s.past.released
    ensures
      var t := Settle(u, a.sent, a.settle);
      && SettledAs(s, t, h.id, h.content, a) && t.busy == Idle && t.past.handed == u.past.handed
      && (forall g :: g in u.memory.holds && g.id != h.id ==> g in t.memory.holds)
  {
    var t := Settle(u, a.sent, a.settle);
    HoldRuns.WithPhaseRows(u.memory.holds, h, Uncertain);
    var uncertain := u.memory.(holds := WithPhase(u.memory.holds, h.id, Uncertain));
    assert h.(phase := Uncertain) in uncertain.holds;
    if !(a.sent && a.settle == Saved) { assert t.memory == uncertain; }
    if !a.sent { assert t.disk in {u.memory, uncertain}; }
  }

  lemma StoppedText(s: App, next: Personal, save: Save, suspendSave: Save)
    requires forall id, c :: HoldsText(s.memory.holds, id, c) ==> HoldsText(next.holds, id, c)
    requires !Outcome(next, save).Saved?
    ensures
      var t := Suspend(Commit(s, next, save), suspendSave);
      && t.past == s.past && t.busy == s.busy
      && (forall g :: g in t.memory.holds ==> !Runs(g.phase))
      && (forall id, c :: HoldsText(s.memory.holds, id, c) ==> HoldsText(t.memory.holds, id, c))
  {
    RecoverySettles(s.memory.holds);
  }

  lemma WithPhaseKeepsText(holds: seq<Held>, id: nat, phase: HoldPhase)
    ensures forall o, c :: HoldsText(holds, o, c) ==> HoldsText(WithPhase(holds, id, phase), o, c)
  {
    var r := WithPhase(holds, id, phase);
    forall o, c | HoldsText(holds, o, c) ensures HoldsText(r, o, c) {
      var i :| 0 <= i < |holds| && holds[i].id == o && holds[i].content == c;
      assert r[i] in r;
    }
  }

  lemma SubmitComesTo(s: App, h: Held, now: int, a: Answer)
    requires HoldRuns.Inv(s) && s.busy.Idle? && h in s.memory.holds && h.phase == Holding
    ensures Submitted(s, h, now, a, Submit(s, h.id, now, a))
  {
    var i :| 0 <= i < |s.memory.holds| && s.memory.holds[i] == h;
    assert IsHolding(s.memory.holds, h.id);
    if a.mark == Saved {
      MarkedText(s, h, now, a);
      var t := Mark(s, h.id, now, a.mark, a.suspend);
      var g := h.(phase := Submitting);
      var j :| 0 <= j < |t.disk.holds| && t.disk.holds[j] == g;
      SettledText(s, HandOver(t), g, a);
    } else {
      var next := s.memory.(holds := WithPhase(s.memory.holds, h.id, Submitting));
      WithPhaseKeepsText(s.memory.holds, h.id, Submitting);
      StoppedText(s, next, a.mark, a.suspend);
    }
  }

  /** From any reachable state the waiting row of this id is submitted as its answers say. */
  ghost predicate SubmittedAny(s: App, id: nat, now: int, a: Answer, t: App) {
    HoldRuns.Inv(s) ==>
      forall h :: h in s.memory.holds && h.id == id && h.phase == Holding ==> Submitted(s, h, now, a, t)
  }

  lemma AnySubmitComesTo(s: App, id: nat, now: int, a: Answer)
    requires s.busy.Idle?
    ensures SubmittedAny(s, id, now, a, Submit(s, id, now, a))
  {
    if HoldRuns.Inv(s) {
      forall h | h in s.memory.holds && h.id == id && h.phase == Holding
        ensures Submitted(s, h, now, a, Submit(s, id, now, a))
      {
        SubmitComesTo(s, h, now, a);
      }
    }
  }

  // ---------------------------------------------------------------- what a tick comes to

  /** `q` has the same texts under this id as `p`, each as it was or recovered. */
  ghost predicate Kin(p: seq<Held>, q: seq<Held>, id: nat) {
    && (forall h :: h in p && h.id == id ==> h in q || h.(phase := RecoverPhase(h.phase)) in q)
    && (forall h :: h in q && h.id == id ==> exists g :: g in p && g.id == id)
  }

  lemma KinTwice(p: seq<Held>, q: seq<Held>, r: seq<Held>, id: nat)
    requires Kin(p, q, id) && Kin(q, r, id)
    ensures Kin(p, r, id)
  {
  }

  lemma PhaseIsKin(holds: seq<Held>, o: nat, phase: HoldPhase, id: nat)
    requires o != id
    ensures Kin(holds, WithPhase(holds, o, phase), id)
  {
    var r := WithPhase(holds, o, phase);
    forall h | h in holds && h.id == id ensures h in r {
      var i :| 0 <= i < |holds| && holds[i] == h;
      assert r[i] == h;
    }
    forall h | h in r && h.id == id ensures exists g :: g in holds && g.id == id {
      var i :| 0 <= i < |r| && r[i] == h;
      assert holds[i] in holds;
    }
  }

  lemma RecoveredIsKin(holds: seq<Held>, id: nat)
    ensures Kin(holds, Recover(holds), id)
  {
    var r := Recover(holds);
    forall h | h in holds && h.id == id ensures h.(phase := RecoverPhase(h.phase)) in r {
      var i :| 0 <= i < |holds| && holds[i] == h;
      assert r[i] in r;
    }
    forall h | h in r && h.id == id ensures exists g :: g in holds && g.id == id {
      var i :| 0 <= i < |r| && r[i] == h;
      assert holds[i] in holds;
    }
  }

  /** Memory keeps this id's rows, and the disk has its own or those of memory. */
  ghost predicate Akin(s: App, t: App, id: nat) {
    && Kin(s.memory.holds, t.memory.holds, id)
    && (Kin(s.disk.holds, t.disk.holds, id) || Kin(s.memory.holds, t.disk.holds, id))
    && (id in t.past.released <==> id in s.past.released)
    && (id in s.past.released ==> t.past.released[id] == s.past.released[id])
  }

  lemma AkinTwice(s: App, t: App, u: App, id: nat)
    requires Akin(s, t, id) && Akin(t, u, id)
    ensures Akin(s, u, id)
  {
    KinTwice(s.memory.holds, t.memory.holds, u.memory.holds, id);
    if Kin(t.memory.holds, u.disk.holds, id) {
      KinTwice(s.memory.holds, t.memory.holds, u.disk.holds, id);
    } else if Kin(s.disk.holds, t.disk.holds, id) {
      KinTwice(s.disk.holds, t.disk.holds, u.disk.holds, id);
    } else {
      KinTwice(s.memory.holds, t.disk.holds, u.disk.holds, id);
    }
  }

  lemma SuspendIsAkin(s: App, save: Save, id: nat)
    ensures Akin(s, Suspend(s, save), id)
  {
    RecoveredIsKin(s.memory.holds, id);
  }

  lemma MarkIsAkin(s: App, o: nat, now: int, save: Save, suspendSave: Save, id: nat)
    requires o != id
    ensures Akin(s, Mark(s, o, now, save, suspendSave), id)
  {
    var next := s.memory.(holds := WithPhase(s.memory.holds, o, Submitting));
    PhaseIsKin(s.memory.holds, o, Submitting, id);
    var t := Commit(s, next, save);
    if !Outcome(next, save).Saved? {
      SuspendIsAkin(t, suspendSave, id);
      AkinTwice(s, t, Suspend(t, suspendSave), id);
    }
  }

  lemma SettleIsAkin(s: App, ok: bool, save: Save, id: nat)
    requires s.busy.Handed? && s.busy.id != id
    ensures Akin(s, Settle(s, ok, save), id)
  {
    PhaseIsKin(s.memory.holds, s.busy.id, Uncertain, id);
  }

  lemma SubmitIsAkin(s: App, o: nat, now: int, a: Answer, id: nat)
    requires o != id
    ensures Akin(s, Submit(s, o, now, a), id)
  {
    if IsHolding(s.memory.holds, o) {
      MarkIsAkin(s, o, now, a.mark, a.suspend, id);
      var t := Mark(s, o, now, a.mark, a.suspend);
      if t.busy.Marked? && t.busy.id == o && Has(t.memory.holds, o) {
        SettleIsAkin(HandOver(t), a.sent, a.settle, id);
        AkinTwice(s, t, Settle(HandOver(t), a.sent, a.settle), id);
      }
    }
  }

  lemma AkinKeepsOutcome(s: App, t: App, u: App, id: nat, content: Content, a: Answer)
    requires SettledAs(s, t, id, content, a) && Akin(t, u, id)
    ensures SettledAs(s, u, id, content, a)
  {
    if Gone(t, id) {
      forall i | 0 <= i < |u.memory.holds| ensures u.memory.holds[i].id != id {
        assert u.memory.holds[i] in u.memory.holds;
      }
      forall i | 0 <= i < |u.disk.holds| ensures u.disk.holds[i].id != id {
        assert u.disk.holds[i] in u.disk.holds;
      }
    }
  }

  lemma {:induction false} RestIsAkin(s: App, due: seq<nat>, now: int, answers: seq<Answer>, id: nat)
    requires |answers| == |due| && id !in due
    ensures Akin(s, SubmitAll(s, due, now, answers), id)
    decreases |due|
  {
    if due != [] {
      var t := Submit(s, due[0], now, answers[0]);
      SubmitIsAkin(s, due[0], now, answers[0], id);
      RestIsAkin(t, due[1..], now, answers[1..], id);
      AkinTwice(s, t, SubmitAll(t, due[1..], now, answers[1..]), id);
    }
  }

  /** How many submissions get their marker saved before one does not. */
  function MarkedFirst(answers: seq<Answer>): (n: nat)
    ensures n <= |answers| && forall k :: 0 <= k < n ==> answers[k].mark == Saved
    ensures n < |answers| ==> answers[n].mark != Saved
  {
    if answers != [] && answers[0].mark == Saved then 1 + MarkedFirst(answers[1..]) else 0
  }

  ghost predicate DistinctRows(rows: seq<Held>) {
    forall i, j :: 0 <= i < j < |rows| ==> rows[i].id != rows[j].id
  }

  /** The due texts are handed over in order, each exactly once, up to the first marker that is
      not saved; each comes to what its own answer says; and the texts after that one are kept. */
  ghost predicate Ticked(s: App, rows: seq<Held>, now: int, answers: seq<Answer>, t: App)
    requires |answers| == |rows|
  {
    var n := MarkedFirst(answers);
    && t.busy == Idle && |t.past.handed| == |s.past.handed| + n && s.past.handed <= t.past.handed
    && (forall k :: 0 <= k < n ==>
          t.past.handed[|s.past.handed| + k]
          == Handoff(rows[k].id, rows[k].content, rows[k].deadline, now, s.focused, true))
    && (forall k :: 0 <= k < n ==> SettledAs(s, t, rows[k].id, rows[k].content, answers[k]))
    && (forall k :: n <= k < |rows| ==>
          && HoldsText(t.memory.holds, rows[k].id, rows[k].content)
          && (rows[k].id in t.past.released <==> rows[k].id in s.past.released))
  }

  function Ids(rows: seq<Held>): (ids: seq<nat>)
    ensures |ids| == |rows| && forall i :: 0 <= i < |ids| ==> ids[i] == rows[i].id
  {
    seq(|rows|, i requires 0 <= i < |rows| => rows[i].id)
  }

  /** Once no timer runs, the rest of the tick does nothing. */
  lemma {:induction false} StoppedTick(s: App, due: seq<nat>, now: int, answers: seq<Answer>)
    requires |answers| == |due| && forall h :: h in s.memory.holds ==> !Runs(h.phase)
    ensures SubmitAll(s, due, now, answers) == s
    decreases |due|
  {
    if due != [] {
      assert !IsHolding(s.memory.holds, due[0]) by {
        assert forall i :: 0 <= i < |s.memory.holds| ==> s.memory.holds[i] in s.memory.holds;
      }
      StoppedTick(s, due[1..], now, answers[1..]);
    }
  }

  /** These rows are waiting and due. */
  ghost predicate Waiting(s: App, rows: seq<Held>, now: int) {
    DistinctRows(rows) && forall h :: h in rows ==> h in s.memory.holds && h.phase == Holding && h.deadline <= now
  }

  lemma OthersWait(s: App, rows: seq<Held>, now: int, t: App)
    requires rows != [] && Waiting(s, rows, now)
    requires forall g :: g in s.memory.holds && g.id != rows[0].id ==> g in t.memory.holds
    ensures Waiting(t, rows[1..], now) && rows[0].id !in Ids(rows[1..])
  {
    var rest := rows[1..];
    forall g | g in rest ensures g in rows && g.id != rows[0].id {
      var i :| 0 <= i < |rest| && rest[i] == g;
      assert rows[i + 1] == g && rows[i + 1] in rows;
    }
    forall i | 0 <= i < |rest| ensures rest[i].id != rows[0].id { assert rest[i] in rest; }
  }

  lemma {:induction false} TickComesTo(s: App, rows: seq<Held>, now: int, answers: seq<Answer>)
    requires HoldRuns.Inv(s) && s.busy.Idle? && s.focused && |answers| == |rows| && Waiting(s, rows, now)
    ensures Ticked(s, rows, now, answers, SubmitAll(s, Ids(rows), now, answers))
    decreases |rows|
  {
    if rows != [] {
      var h, a := rows[0], answers[0];
      var t := Submit(s, h.id, now, a);
      assert h in rows;
      SubmitComesTo(s, h, now, a);
      assert Ids(rows)[1..] == Ids(rows[1..]);
      if a.mark == Saved {
        FirstTicked(s, rows, now, answers);
      } else {
        StoppedTick(t, Ids(rows[1..]), now, answers[1..]);
        forall k | 0 <= k < |rows| ensures HoldsText(t.memory.holds, rows[k].id, rows[k].content) {
          assert rows[k] in rows;
        }
      }
    }
  }

  lemma FirstTicked(s: App, rows: seq<Held>, now: int, answers: seq<Answer>)
    requires HoldRuns.Inv(s) && s.busy.Idle? && s.focused && |answers| == |rows| && rows != [] && Waiting(s, rows, now)
    requires answers[0].mark == Saved && Submitted(s, rows[0], now, answers[0], Submit(s, rows[0].id, now, answers[0]))
    ensures Ticked(s, rows, now, answers, SubmitAll(s, Ids(rows), now, answers))
    decreases |rows|, 0
  {
    var h, a, rest := rows[0], answers[0], rows[1..];
    var t := Submit(s, h.id, now, a);
    var z := SubmitAll(s, Ids(rows), now, answers);
    assert Ids(rows)[1..] == Ids(rest);
    OthersWait(s, rows, now, t);
    assert h in rows;
    SubmitKeepsTicking(s, h, now, a);
    TickComesTo(t, rest, now, answers[1..]);
    forall k | 1 <= k < |rows| ensures rows[k].id in t.past.released <==> rows[k].id in s.past.released {
      SubmitIsAkin(s, h.id, now, a, rows[k].id);
    }
    RestIsAkin(t, Ids(rest), now, answers[1..], h.id);
    AkinKeepsOutcome(s, t, z, h.id, h.content, a);
    TickedMore(s, rows, now, answers, t, z);
  }

  lemma SubmitKeepsTicking(s: App, h: Held, now: int, a: Answer)
    requires HoldRuns.Inv(s) && s.busy.Idle? && s.focused
    requires h in s.memory.holds && h.phase == Holding && h.deadline <= now
    ensures var t := Submit(s, h.id, now, a); HoldRuns.Inv(t) && t.busy.Idle? && t.focused
  {
    var i :| 0 <= i < |s.memory.holds| && s.memory.holds[i] == h;
    assert IsDue(s.memory.holds, h.id, now);
    var es := SubmitIsARun(s, h.id, now, a);
    HoldRuns.RunKeepsInv(s, es);
    SubmitOnlyRemovesTimers(s, h.id, now, a);
  }

  lemma TickedMore(s: App, rows: seq<Held>, now: int, answers: seq<Answer>, t: App, z: App)
    requires |answers| == |rows| && rows != [] && answers[0].mark == Saved && t.focused == s.focused
    requires t.past.handed
          == s.past.handed + [Handoff(rows[0].id, rows[0].content, rows[0].deadline, now, s.focused, true)]
    requires Ticked(t, rows[1..], now, answers[1..], z) && SettledAs(s, z, rows[0].id, rows[0].content, answers[0])
    requires forall k :: 1 <= k < |rows| ==> (rows[k].id in t.past.released <==> rows[k].id in s.past.released)
    ensures Ticked(s, rows, now, answers, z)
  {
    var n := MarkedFirst(answers);
    forall k | 1 <= k < n ensures
        && z.past.handed[|s.past.handed| + k]
           == Handoff(rows[k].id, rows[k].content, rows[k].deadline, now, s.focused, true)
        && SettledAs(s, z, rows[k].id, rows[k].content, answers[k])
    {
      assert rows[1..][k - 1] == rows[k] && answers[1..][k - 1] == answers[k];
    }
    forall k | n <= k < |rows| ensures
        && HoldsText(z.memory.holds, rows[k].id, rows[k].content)
        && (rows[k].id in z.past.released <==> rows[k].id in s.past.released)
    {
      assert rows[1..][k - 1] == rows[k];
    }
  }

  function DueRow(h: Held, now: int): seq<Held> {
    if h.phase == Holding && h.deadline <= now then [h] else []
  }

  /** The rows whose time has come, in the order of the document. */
  function DueRows(holds: seq<Held>, now: int): seq<Held> {
    if holds == [] then [] else DueRow(holds[0], now) + DueRows(holds[1..], now)
  }

  lemma {:induction false} DueAreIds(holds: seq<Held>, now: int)
    ensures Ids(DueRows(holds, now)) == Due(holds, now)
  {
    if holds != [] {
      DueAreIds(holds[1..], now);
      IdsConcat(DueRow(holds[0], now), DueRows(holds[1..], now));
    }
  }

  lemma IdsConcat(p: seq<Held>, q: seq<Held>)
    ensures Ids(p + q) == Ids(p) + Ids(q)
  {
  }

  lemma {:induction false} DueRowMembers(holds: seq<Held>, now: int, h: Held)
    ensures h in DueRows(holds, now) <==> h in holds && h.phase == Holding && h.deadline <= now
  {
    if holds != [] {
      DueRowMembers(holds[1..], now, h);
      assert holds == [holds[0]] + holds[1..];
    }
  }

  ghost predicate InOrder(holds: seq<Held>, g: Held, h: Held) {
    exists a, b :: 0 <= a < b < |holds| && holds[a] == g && holds[b] == h
  }

  lemma InOrderMore(first: Held, holds: seq<Held>, g: Held, h: Held)
    requires InOrder(holds, g, h) || (g == first && h in holds)
    ensures InOrder([first] + holds, g, h)
  {
    var all := [first] + holds;
    if InOrder(holds, g, h) {
      var a, b :| 0 <= a < b < |holds| && holds[a] == g && holds[b] == h;
      assert all[a + 1] == g && all[b + 1] == h;
    } else {
      var b :| 0 <= b < |holds| && holds[b] == h;
      assert all[0] == g && all[b + 1] == h;
    }
  }

  lemma {:induction false} DueRowsInOrder(holds: seq<Held>, now: int, i: nat, j: nat)
    requires i < j < |DueRows(holds, now)|
    ensures InOrder(holds, DueRows(holds, now)[i], DueRows(holds, now)[j])
  {
    var first, rest := DueRow(holds[0], now), DueRows(holds[1..], now);
    var k := |first|;
    DueRowMembers(holds[1..], now, rest[j - k]);
    if i >= k { DueRowsInOrder(holds[1..], now, i - k, j - k); }
    InOrderMore(holds[0], holds[1..], (first + rest)[i], rest[j - k]);
    assert holds == [holds[0]] + holds[1..];
  }

  lemma DueRowsAreDistinct(holds: seq<Held>, now: int)
    requires HoldRuns.Distinct(holds)
    ensures DistinctRows(DueRows(holds, now))
  {
    var rows := DueRows(holds, now);
    forall i, j | 0 <= i < j < |rows| ensures rows[i].id != rows[j].id {
      DueRowsInOrder(holds, now, i, j);
      assert InOrder(holds, rows[i], rows[j]);
    }
  }

  /** The tick of a focused terminal, from any reachable state and for every answer of the world. */
  lemma TickOfDueRows(s: App, now: int, answers: seq<Answer>)
    requires HoldRuns.Inv(s) && s.busy.Idle? && s.focused && |answers| == |DueRows(s.memory.holds, now)|
    ensures |Due(s.memory.holds, now)| == |answers|
    ensures Ticked(s, DueRows(s.memory.holds, now), now, answers, SubmitAll(s, Due(s.memory.holds, now), now, answers))
  {
    DueAreIds(s.memory.holds, now);
    DueRowsAreDistinct(s.memory.holds, now);
    forall h | h in DueRows(s.memory.holds, now)
      ensures h in s.memory.holds && h.phase == Holding && h.deadline <= now
    {
      DueRowMembers(s.memory.holds, now, h);
    }
    TickComesTo(s, DueRows(s.memory.holds, now), now, answers);
  }

  /** From any reachable state of a focused terminal the due rows are submitted as the answers say. */
  ghost predicate TickedAny(s: App, now: int, answers: seq<Answer>, t: App) {
    HoldRuns.Inv(s) && s.focused ==>
      |DueRows(s.memory.holds, now)| == |answers| && Ticked(s, DueRows(s.memory.holds, now), now, answers, t)
  }

  lemma AnyTickComesTo(s: App, now: int, answers: seq<Answer>)
    requires s.busy.Idle? && |answers| == |Due(s.memory.holds, now)|
    ensures TickedAny(s, now, answers, SubmitAll(s, Due(s.memory.holds, now), now, answers))
  {
    DueAreIds(s.memory.holds, now);
    if HoldRuns.Inv(s) && s.focused { TickOfDueRows(s, now, answers); }
  }

  /** A stopped terminal hands nothing over and leaves no timer. */
  ghost predicate Stopped(s: App, t: App) {
    t.past == s.past && forall h :: h in t.memory.holds ==> !Runs(h.phase)
  }

  lemma SuspendStops(s: App, save: Save)
    ensures Stopped(s, Suspend(s, save))
  {
    RecoverySettles(s.memory.holds);
  }
}
