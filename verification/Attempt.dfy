/** One upload or download attempt, step by step, with frontends cancelling at any moment
    (crates/mutte-client/src/engine.rs, resume_attachment_upload and _download). */
module Attempt {
  import opened Common
  import opened Transfer
  import opened RegistryRuns

  datatype Stage =
    | Waiting      // before registration
    | Refused      // another transfer was active
    | Working      // network and file work; every await point is here
    | Committing   // begin_commit won; the local commit follows without an await
    | Finishing
    | Checking
    | CleaningUp
    | Releasing    // only the lease is left to drop
    | Done

  datatype State<C> = State(
    reg: Registry<C>,
    journal: set<Key>,    // files the vault still lists as queued
    stage: Stage,
    accepted: bool,       // some cancel of this attempt was answered with true
    committed: bool,      // the message was queued or the download recorded
    cleaned: bool,        // local cleanup removed the file from the journal
    refused: bool,        // the attempt's own result says that it was cancelled
    abandoned: bool,      // the whole operation was dropped at an await point
    storageFailed: bool)

  datatype Event<C> =
    | Frontend(op: Op<C>)
    | Begin(explicit: bool)
    | Tell(completed: nat, total: nat, phase: Phase)
    | Fail
    | SeeSignal
    | Abandon
    | TryCommit
    | LocalCommit(works: bool)
    | FinishControl
    | CheckControl
    | Cleanup(works: bool)
    | Release

  /** A frontend reaches a control through the registry or by holding it. */
  ghost predicate Cancels<C>(op: Op<C>) {
    op.CancelKeyOp? || op.CancelControlOp?
  }

  /** The control a cancel is aimed at, and whether the cancel is answered with true. */
  ghost predicate AcceptedFor<C>(r: Registry<C>, op: Op<C>, c: C)
    requires Possible(r, op)
  {
    match op
    case CancelKeyOp(k) => CancelAnswer(r, k) && r.entries[k].control == c
    case CancelControlOp(d) => d == c && r.words[c] != Committed
    case _ => false
  }

  ghost predicate Enabled<C>(s: State<C>, k: Key, c: C, e: Event<C>) {
    Wf(s.reg) && c in s.reg.words &&
    match e
    case Frontend(op) => Cancels(op) && Possible(s.reg, op)
    case Begin(_) => s.stage == Waiting
    case Tell(_, _, _) => s.stage == Working
    case Fail => s.stage == Working
    case SeeSignal => s.stage == Working && s.reg.words[c] == Cancelled
    case Abandon => s.stage == Working
    case TryCommit => s.stage == Working
    case LocalCommit(works) => s.stage == Committing
    case FinishControl => s.stage == Finishing
    case CheckControl => s.stage == Checking
    case Cleanup(works) => s.stage == CleaningUp && (works ==> k in s.journal)
    case Release => s.stage == Releasing
  }

  ghost function Step<C>(s: State<C>, k: Key, c: C, e: Event<C>): State<C>
    requires Enabled(s, k, c, e)
  {
    match e
    case Frontend(op) =>
      s.(reg := Apply(s.reg, op), accepted := s.accepted || AcceptedFor(s.reg, op, c))
    case Begin(explicit) =>
      if AnyActive(s.reg) then s.(stage := Refused)
      else
        var reg := Register(s.reg, k, c, explicit);
        s.(reg := reg, stage := Working, accepted := s.accepted || reg.words[c] == Cancelled)
    case Tell(completed, total, phase) => s.(reg := Report(s.reg, k, c, completed, total, phase))
    case Fail => s.(stage := Finishing)
    case SeeSignal => s.(stage := Finishing, refused := true)
    case Abandon => s.(stage := Releasing, abandoned := true)
    case TryCommit =>
      s.(reg := WriteWord(s.reg, c, CommitWord(s.reg.words[c])),
         stage := if s.reg.words[c] == Open then Committing else Finishing,
         refused := s.reg.words[c] != Open)
    case LocalCommit(works) =>
      if works then s.(journal := s.journal - {k}, committed := true, stage := Finishing)
      else s.(stage := Finishing, storageFailed := true)
    case FinishControl => s.(reg := WriteWord(s.reg, c, CommitWord(s.reg.words[c])), stage := Checking)
    case CheckControl => s.(stage := if s.reg.words[c] == Cancelled || s.refused then CleaningUp else Releasing)
    case Cleanup(works) =>
      if works then s.(journal := s.journal - {k}, cleaned := true, stage := Releasing)
      else s.(stage := Releasing, storageFailed := true)
    case Release => s.(reg := DropLease(s.reg, k, c), stage := Done)
  }

  ghost predicate Run<C>(s: State<C>, k: Key, c: C, es: seq<Event<C>>)
    decreases |es|
  {
    es != [] ==> Enabled(s, k, c, es[0]) && Run(Step(s, k, c, es[0]), k, c, es[1..])
  }

  ghost function After<C>(s: State<C>, k: Key, c: C, es: seq<Event<C>>): State<C>
    requires Run(s, k, c, es)
    decreases |es|
  {
    if es == [] then s else After(Step(s, k, c, es[0]), k, c, es[1..])
  }

  /** A fresh control that no entry holds yet; any other traffic may be on the registry. */
  ghost predicate Start<C>(s: State<C>, k: Key, c: C) {
    && Wf(s.reg) && c in s.reg.words && s.reg.words[c] == Open
    && (forall l :: l in s.reg.entries ==> s.reg.entries[l].control != c)
    && s.stage == Waiting && !s.accepted && !s.committed && !s.cleaned && !s.refused && !s.abandoned
    && !s.storageFailed
  }

  ghost predicate Registered(stage: Stage) { stage !in {Waiting, Refused, Done} }

  ghost predicate Inv<C>(s: State<C>, k: Key, c: C) {
    && Wf(s.reg) && c in s.reg.words
    && (s.accepted <==> s.reg.words[c] == Cancelled)
    && (s.refused ==> s.accepted)
    && (s.stage in {Waiting, Working} ==> s.reg.words[c] != Committed)
    && (s.committed ==> s.reg.words[c] == Committed && k !in s.journal)
    && (s.cleaned ==> s.accepted && k !in s.journal)
    && (forall l :: l in s.reg.entries && s.reg.entries[l].control == c ==> l == k)
    && (Registered(s.stage) ==> k in s.reg.entries && s.reg.entries[k].active && s.reg.entries[k].control == c)
    && (s.stage in {Waiting, Refused} ==> forall l :: l in s.reg.entries ==> s.reg.entries[l].control != c)
    && (s.stage == Committing ==> s.reg.words[c] == Committed)
    && (s.stage == Checking ==> s.reg.words[c] != Open)
    && (s.stage == CleaningUp ==> s.accepted)
    && (s.stage == Releasing && !s.abandoned ==> s.reg.words[c] != Open)
    && (s.stage in {Waiting, Refused, Working, Committing} ==> !s.committed && !s.abandoned && !s.storageFailed)
    && (s.stage in {Releasing, Done} && s.accepted && !s.abandoned && !s.storageFailed ==> s.cleaned)
    && (s.stage == Done ==> s.reg.words[c] != Open && Settled(s, k, c))
  }

  /** After the lease is gone: an accepted cancel is left for the next queue clean-up,
      any other attempt has left the registry. */
  ghost predicate Settled<C>(s: State<C>, k: Key, c: C)
    requires Wf(s.reg) && c in s.reg.words
  {
    if s.reg.words[c] == Cancelled
    then k in CancelledPending(s.reg) && s.reg.entries[k].control == c
    else k !in s.reg.entries
  }

  lemma FrontendKeepsInv<C>(s: State<C>, k: Key, c: C, e: Event<C>)
    requires Inv(s, k, c) && Enabled(s, k, c, e) && e.Frontend?
    ensures Inv(Step(s, k, c, e), k, c)
  {
  }

  lemma LeaseKeepsInv<C>(s: State<C>, k: Key, c: C, e: Event<C>)
    requires Inv(s, k, c) && Enabled(s, k, c, e) && (e.Begin? || e.Tell? || e.Release?)
    ensures Inv(Step(s, k, c, e), k, c)
  {
  }

  lemma StepKeepsInv<C>(s: State<C>, k: Key, c: C, e: Event<C>)
    requires Inv(s, k, c) && Enabled(s, k, c, e)
    ensures Inv(Step(s, k, c, e), k, c)
  {
    if e.Frontend? {
      FrontendKeepsInv(s, k, c, e);
    } else if e.Begin? || e.Tell? || e.Release? {
      LeaseKeepsInv(s, k, c, e);
    }
  }

  lemma {:induction false} RunKeepsInv<C>(s: State<C>, k: Key, c: C, es: seq<Event<C>>)
    requires Inv(s, k, c) && Run(s, k, c, es)
    ensures Inv(After(s, k, c, es), k, c)
    decreases |es|
  {
    if es != [] {
      StepKeepsInv(s, k, c, es[0]);
      RunKeepsInv(Step(s, k, c, es[0]), k, c, es[1..]);
    }
  }

  lemma StartIsInv<C>(s: State<C>, k: Key, c: C)
    requires Start(s, k, c)
    ensures Inv(s, k, c)
  {
  }

  ghost predicate Left<C>(s: State<C>) { s.committed || s.cleaned }

  lemma StepLoses<C>(s: State<C>, k: Key, c: C, e: Event<C>)
    requires Enabled(s, k, c, e) && (Left(s) ==> k !in s.journal)
    ensures
      var z := Step(s, k, c, e);
      && (Left(s) ==> Left(z)) && (Left(z) ==> k !in z.journal)
      && z.journal == if Left(z) then s.journal - {k} else s.journal
  {
  }

  /** The journal loses the file of this attempt by its commit or its clean-up, and nothing else. */
  lemma {:induction false} JournalLosesOnly<C>(s: State<C>, k: Key, c: C, es: seq<Event<C>>)
    requires Run(s, k, c, es) && (Left(s) ==> k !in s.journal)
    ensures
      var z := After(s, k, c, es);
      && (Left(s) ==> Left(z)) && z.journal == if Left(z) then s.journal - {k} else s.journal
    decreases |es|
  {
    if es != [] {
      StepLoses(s, k, c, es[0]);
      JournalLosesOnly(Step(s, k, c, es[0]), k, c, es[1..]);
    }
  }

  /** Whatever the interleaving, the file leaves the queue by this attempt exactly when it was
      committed or cleaned up, and it is cleaned up only after an accepted cancel. */
  lemma FileLeavesByCommitOrCancel<C>(s: State<C>, k: Key, c: C, es: seq<Event<C>>)
    requires Start(s, k, c) && Run(s, k, c, es)
    ensures
      var z := After(s, k, c, es);
      && z.journal == (if z.committed || z.cleaned then s.journal - {k} else s.journal)
      && (z.cleaned ==> z.accepted)
  {
    StartIsInv(s, k, c);
    RunKeepsInv(s, k, c, es);
    JournalLosesOnly(s, k, c, es);
  }

  /** Whatever the interleaving: an accepted cancel means this attempt never commits, and
      once it is over the intent is on record and, unless the operation was dropped or the
      storage failed, the file has left the queue. */
  lemma CancelMeansNoCommit<C>(s: State<C>, k: Key, c: C, es: seq<Event<C>>)
    requires Start(s, k, c) && Run(s, k, c, es)
    ensures
      var z := After(s, k, c, es);
      && !(z.accepted && z.committed)
      && (z.accepted && z.stage == Done ==>
            Wf(z.reg) && k in CancelledPending(z.reg)
            && (!z.abandoned && !z.storageFailed ==> k !in z.journal))
  {
    RunKeepsInv(s, k, c, es);
  }

  /** A committed attempt answers false to every later cancel, however it is reached. */
  lemma CommittedRefusesCancel<C>(s: State<C>, k: Key, c: C, es: seq<Event<C>>, op: Op<C>)
    requires Start(s, k, c) && Run(s, k, c, es) && After(s, k, c, es).committed
    requires Possible(After(s, k, c, es).reg, op)
    ensures
      var z := After(s, k, c, es);
      !AcceptedFor(z.reg, op, c) && k !in z.journal && !CancelAnswer(z.reg, k)
  {
    RunKeepsInv(s, k, c, es);
  }

  /** A cancel accepted while the file was only queued reaches the attempt that starts
      later with a fresh control: that attempt never commits. */
  lemma QueuedCancelStopsLaterAttempt<C>(s: State<C>, k: Key, c: C, explicit: bool, es: seq<Event<C>>)
    requires Start(s, k, c) && Intent(s.reg, k) && !AnyActive(s.reg)
    requires Run(s, k, c, [Begin(explicit)] + es)
    ensures !After(s, k, c, [Begin(explicit)] + es).committed
  {
    var s1 := Step(s, k, c, Begin(explicit));
    assert ([Begin(explicit)] + es)[1..] == es;
    StartIsInv(s, k, c);
    StepKeepsInv(s, k, c, Begin(explicit));
    AcceptedStays(s1, k, c, es);
    RunKeepsInv(s1, k, c, es);
  }

  // ---------------------------------------------------------------- attempts end, and commit

  lemma Prepend<C>(s: State<C>, k: Key, c: C, e: Event<C>, es: seq<Event<C>>)
    requires Enabled(s, k, c, e) && Run(Step(s, k, c, e), k, c, es)
    ensures Run(s, k, c, [e] + es) && After(s, k, c, [e] + es) == After(Step(s, k, c, e), k, c, es)
  {
    assert ([e] + es)[1..] == es;
  }

  lemma {:induction false} Concat<C>(s: State<C>, k: Key, c: C, es: seq<Event<C>>, fs: seq<Event<C>>)
    requires Run(s, k, c, es) && Run(After(s, k, c, es), k, c, fs)
    ensures Run(s, k, c, es + fs) && After(s, k, c, es + fs) == After(After(s, k, c, es), k, c, fs)
    decreases |es|
  {
    if es == [] {
      assert es + fs == fs;
    } else {
      Concat(Step(s, k, c, es[0]), k, c, es[1..], fs);
      assert (es + fs)[1..] == es[1..] + fs;
    }
  }

  /** Nobody cancels any more, the vault works, and the local commit works as told. */
  ghost predicate Calm<C>(es: seq<Event<C>>, works: bool) {
    forall e :: e in es ==> e in {TryCommit, LocalCommit(works), FinishControl, CheckControl, Cleanup(true), Release}
  }

  /** The attempt is over: it committed its file, cleaned it up, or left it queued, and if nothing
      was cancelled its entry left the registry. */
  ghost predicate Over<C>(z: State<C>, k: Key, committed: bool, cleaned: bool) {
    && z.stage == Done && z.committed == committed && z.cleaned == cleaned
    && (committed || cleaned ==> k !in z.journal) && (!cleaned ==> k !in z.reg.entries)
  }

  lemma EndFromReleasing<C>(s: State<C>, k: Key, c: C) returns (es: seq<Event<C>>)
    requires Inv(s, k, c) && s.stage == Releasing && (s.accepted ==> s.cleaned) && !(s.committed && s.cleaned)
    ensures Run(s, k, c, es) && Calm(es, true) && Calm(es, false)
    ensures Over(After(s, k, c, es), k, s.committed, s.cleaned)
  {
    LeaseKeepsInv(s, k, c, Release);
    Prepend(s, k, c, Release, []);
    es := [Release] + [];
  }

  lemma EndFromCleaning<C>(s: State<C>, k: Key, c: C) returns (es: seq<Event<C>>)
    requires Inv(s, k, c) && s.stage == CleaningUp && k in s.journal
    ensures Run(s, k, c, es) && Calm(es, true) && Calm(es, false)
    ensures Over(After(s, k, c, es), k, false, true)
  {
    var t := Step(s, k, c, Cleanup(true));
    StepKeepsInv(s, k, c, Cleanup(true));
    es := EndFromReleasing(t, k, c);
    Prepend(s, k, c, Cleanup(true), es);
    es := [Cleanup(true)] + es;
  }

  lemma EndFromChecking<C>(s: State<C>, k: Key, c: C) returns (es: seq<Event<C>>)
    requires Inv(s, k, c) && s.stage == Checking && !s.cleaned && (k in s.journal || s.committed)
    ensures Run(s, k, c, es) && Calm(es, true) && Calm(es, false)
    ensures Over(After(s, k, c, es), k, s.committed, s.accepted)
  {
    var t := Step(s, k, c, CheckControl);
    StepKeepsInv(s, k, c, CheckControl);
    if t.stage == CleaningUp { es := EndFromCleaning(t, k, c); } else { es := EndFromReleasing(t, k, c); }
    Prepend(s, k, c, CheckControl, es);
    es := [CheckControl] + es;
  }

  /** From the point where its work is over, committed or not. */
  lemma EndFromFinishing<C>(s: State<C>, k: Key, c: C) returns (es: seq<Event<C>>)
    requires Inv(s, k, c) && s.stage == Finishing && !s.cleaned && (k in s.journal || s.committed)
    ensures Run(s, k, c, es) && Calm(es, true) && Calm(es, false)
    ensures Over(After(s, k, c, es), k, s.committed, s.accepted)
  {
    var t := Step(s, k, c, FinishControl);
    StepKeepsInv(s, k, c, FinishControl);
    es := EndFromChecking(t, k, c);
    Prepend(s, k, c, FinishControl, es);
    es := [FinishControl] + es;
  }

  /** From the end of its work the attempt can always be carried through. It commits the file if
      and only if no cancel was accepted before and the local commit works; and it removes the file
      if and only if one was accepted. */
  lemma EndFromWorking<C>(s: State<C>, k: Key, c: C, works: bool) returns (es: seq<Event<C>>)
    requires Inv(s, k, c) && s.stage == Working && k in s.journal && !s.cleaned && !s.refused
    ensures Run(s, k, c, [TryCommit] + es) && Calm(es, works)
    ensures Over(After(s, k, c, [TryCommit] + es), k, !s.accepted && works, s.accepted)
  {
    var t := Step(s, k, c, TryCommit);
    StepKeepsInv(s, k, c, TryCommit);
    if s.accepted {
      es := EndFromFinishing(t, k, c);
    } else {
      var u := Step(t, k, c, LocalCommit(works));
      StepKeepsInv(t, k, c, LocalCommit(works));
      es := EndFromFinishing(u, k, c);
      Prepend(t, k, c, LocalCommit(works), es);
      es := [LocalCommit(works)] + es;
    }
    Prepend(s, k, c, TryCommit, es);
  }

  lemma StepCommits<C>(s: State<C>, k: Key, c: C, e: Event<C>)
    requires Enabled(s, k, c, e)
    ensures Step(s, k, c, e).committed <==> s.committed || e == LocalCommit(true)
  {
    match e
    case Frontend(_) =>
    case Begin(_) =>
    case Tell(_, _, _) =>
    case Release =>
    case LocalCommit(works) =>
    case _ =>
  }

  /** In every run the attempt has committed exactly when its local commit worked. */
  lemma {:induction false} CommittedByLocalCommit<C>(s: State<C>, k: Key, c: C, es: seq<Event<C>>)
    requires Run(s, k, c, es)
    ensures After(s, k, c, es).committed <==> s.committed || LocalCommit(true) in es
    decreases |es|
  {
    if es != [] {
      StepCommits(s, k, c, es[0]);
      CommittedByLocalCommit(Step(s, k, c, es[0]), k, c, es[1..]);
      assert es == [es[0]] + es[1..];
    }
  }

  /** While the attempt works, nothing is settled yet. */
  ghost predicate Pristine<C>(s: State<C>, k: Key) {
    s.stage in {Waiting, Working} ==> !s.committed && !s.cleaned && !s.refused && k in s.journal
  }

  lemma StepIsPristine<C>(s: State<C>, k: Key, c: C, e: Event<C>)
    requires Enabled(s, k, c, e) && Pristine(s, k)
    ensures Pristine(Step(s, k, c, e), k)
  {
  }

  lemma {:induction false} WorkingIsPristine<C>(s: State<C>, k: Key, c: C, es: seq<Event<C>>)
    requires Run(s, k, c, es) && Pristine(s, k)
    ensures Pristine(After(s, k, c, es), k)
    decreases |es|
  {
    if es != [] {
      StepIsPristine(s, k, c, es[0]);
      WorkingIsPristine(Step(s, k, c, es[0]), k, c, es[1..]);
    }
  }

  /** The commit decision, whatever frontends did before it: at any reachable point of the work the
      attempt can be carried through to its end, and then its file is committed exactly when no
      cancel was accepted before the decision and the local commit works, and removed from the
      queue exactly when one was. */
  lemma CommitIsExact<C>(s: State<C>, k: Key, c: C, es: seq<Event<C>>, works: bool) returns (fs: seq<Event<C>>)
    requires Start(s, k, c) && k in s.journal && Run(s, k, c, es) && After(s, k, c, es).stage == Working
    ensures Run(s, k, c, es + ([TryCommit] + fs)) && Calm(fs, works)
    ensures
      var accepted := After(s, k, c, es).accepted;
      Over(After(s, k, c, es + ([TryCommit] + fs)), k, !accepted && works, accepted)
  {
    StartIsInv(s, k, c);
    RunKeepsInv(s, k, c, es);
    WorkingIsPristine(s, k, c, es);
    fs := EndFromWorking(After(s, k, c, es), k, c, works);
    Concat(s, k, c, es, [TryCommit] + fs);
  }

  lemma {:induction false} TellsKeepWorking<C>(s: State<C>, k: Key, c: C, es: seq<Event<C>>)
    requires Wf(s.reg) && c in s.reg.words && s.stage == Working && forall e :: e in es ==> e.Tell?
    ensures Run(s, k, c, es)
    ensures var z := After(s, k, c, es); z.stage == Working && z.accepted == s.accepted && z.journal == s.journal
    decreases |es|
  {
    if es != [] {
      assert es[0] in es;
      TellsKeepWorking(Step(s, k, c, es[0]), k, c, es[1..]);
    }
  }

  /** An attempt nobody disturbs sends its file: it starts, reports, commits and ends, with the
      file out of the queue and out of the registry. */
  lemma UndisturbedAttemptCommits<C>(s: State<C>, k: Key, c: C, explicit: bool, tells: seq<Event<C>>)
    returns (fs: seq<Event<C>>)
    requires Start(s, k, c) && k in s.journal && !AnyActive(s.reg) && !Intent(s.reg, k)
    requires forall e :: e in tells ==> e.Tell?
    ensures
      var es := [Begin(explicit)] + tells;
      && Run(s, k, c, es + ([TryCommit] + fs)) && Calm(fs, true)
      && Over(After(s, k, c, es + ([TryCommit] + fs)), k, true, false)
      && !After(s, k, c, es + ([TryCommit] + fs)).accepted
  {
    var t := Step(s, k, c, Begin(explicit));
    TellsKeepWorking(t, k, c, tells);
    Prepend(s, k, c, Begin(explicit), tells);
    fs := CommitIsExact(s, k, c, [Begin(explicit)] + tells, true);
    StartIsInv(s, k, c);
    RunKeepsInv(s, k, c, [Begin(explicit)] + tells + ([TryCommit] + fs));
    CancelMeansNoCommit(s, k, c, [Begin(explicit)] + tells + ([TryCommit] + fs));
  }

  // ---------------------------------------------------------------- progress reports

  /** The progress after the reports among these events, when each one is taken. */
  function Told<C>(p: Progress, es: seq<Event<C>>): Progress
    decreases |es|
  {
    if es == [] then p
    else if es[0].Tell? then Told(Progress(es[0].completed, es[0].total, es[0].phase, p.explicit), es[1..])
    else Told(p, es[1..])
  }

  /** Reports that only go forward, within one total, with cancels anywhere between them. */
  predicate Advances<C>(p: Progress, es: seq<Event<C>>)
    decreases |es|
  {
    es != [] ==>
      if es[0].Tell? then
        && p.completed <= es[0].completed <= es[0].total && (p.total != 0 ==> es[0].total == p.total)
        && Advances(Progress(es[0].completed, es[0].total, es[0].phase, p.explicit), es[1..])
      else es[0].Frontend? && Advances(p, es[1..])
  }

  /** Frontends that cancel between two reports never make a report be refused. */
  lemma {:induction false} ReportsLandDespiteCancels<C>(s: State<C>, k: Key, c: C, p: Progress, es: seq<Event<C>>)
    requires Run(s, k, c, es) && Advances(p, es)
    requires k in s.reg.entries && s.reg.entries[k] == Entry(true, Some(p), c)
    ensures
      var z := After(s, k, c, es);
      k in z.reg.entries && z.reg.entries[k] == Entry(true, Some(Told(p, es)), c)
    decreases |es|
  {
    if es != [] {
      var next := if es[0].Tell? then Progress(es[0].completed, es[0].total, es[0].phase, p.explicit) else p;
      ReportsLandDespiteCancels(Step(s, k, c, es[0]), k, c, next, es[1..]);
    }
  }

  lemma {:induction false} AcceptedStays<C>(s: State<C>, k: Key, c: C, es: seq<Event<C>>)
    requires s.accepted && Run(s, k, c, es)
    ensures After(s, k, c, es).accepted
    decreases |es|
  {
    if es != [] { AcceptedStays(Step(s, k, c, es[0]), k, c, es[1..]); }
  }
}
