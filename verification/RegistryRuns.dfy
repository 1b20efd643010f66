/** What every run of registry and control operations keeps: the engine, its leases and
    any number of frontends may interleave these operations in any order. */
module RegistryRuns {
  import opened Common
  import opened Transfer

  datatype Op<C> =
    | AdoptOp(control: C)
    | CancelKeyOp(key: Key)
    | CancelControlOp(control: C)
    | CommitControlOp(control: C)
    | PrepareOp(pending: set<Key>, made: map<Key, C>)
    | RegisterOp(key: Key, control: C, explicit: bool)
    | ReportOp(key: Key, control: C, completed: nat, total: nat, phase: Phase)
    | EndOp(key: Key, control: C)

  /** What an operation needs to exist: a caller holds its control, and a refresh makes
      new controls. */
  ghost predicate Possible<C>(r: Registry<C>, op: Op<C>) {
    Wf(r) &&
    match op
    case AdoptOp(c) => c !in r.words
    case CancelKeyOp(_) => true
    case CancelControlOp(c) => c in r.words
    case CommitControlOp(c) => c in r.words
    case PrepareOp(pending, made) => FreshControls(r, pending, made)
    case RegisterOp(_, c, _) => c in r.words
    case ReportOp(_, _, _, _, _) => true
    case EndOp(_, c) => c in r.words
  }

  function Apply<C(==)>(r: Registry<C>, op: Op<C>): (r': Registry<C>)
    requires Possible(r, op)
  {
    match op
    case AdoptOp(c) => WriteWord(r, c, Open)
    case CancelKeyOp(k) => CancelKey(r, k)
    case CancelControlOp(c) => WriteWord(r, c, CancelWord(r.words[c]))
    case CommitControlOp(c) => WriteWord(r, c, CommitWord(r.words[c]))
    case PrepareOp(pending, made) => Prepare(r, pending, made)
    case RegisterOp(k, c, explicit) => Register(r, k, c, explicit)
    case ReportOp(k, c, completed, total, phase) => Report(r, k, c, completed, total, phase)
    case EndOp(k, c) => DropLease(r, k, c)
  }

  lemma ApplyKeepsWf<C>(r: Registry<C>, op: Op<C>)
    requires Possible(r, op)
    ensures Wf(Apply(r, op)) && r.words.Keys <= Apply(r, op).words.Keys
  {
    if op.PrepareOp? {
      var r' := Apply(r, op);
      forall k | k in r'.entries ensures r'.entries[k].control in r'.words {
        if k in op.made { assert op.made[k] in op.made.Values; }
      }
    }
  }

  /** A run: each operation is possible in the state the earlier ones left. */
  ghost predicate Run<C>(r: Registry<C>, ops: seq<Op<C>>)
    decreases |ops|
  {
    ops != [] ==> Possible(r, ops[0]) && Run(Apply(r, ops[0]), ops[1..])
  }

  ghost function After<C>(r: Registry<C>, ops: seq<Op<C>>): Registry<C>
    requires Run(r, ops)
    decreases |ops|
  {
    if ops == [] then r else After(Apply(r, ops[0]), ops[1..])
  }

  // ---------------------------------------------------------------- the control word

  /** Once a control left Open its answer never changes, so the second read of `cancel`
      (after a lost compare-exchange) agrees with the moment of the exchange. */
  lemma {:induction false} SettledWordIsFinal<C>(r: Registry<C>, ops: seq<Op<C>>, c: C)
    requires Run(r, ops) && c in r.words && r.words[c] != Open
    ensures c in After(r, ops).words && After(r, ops).words[c] == r.words[c]
    decreases |ops|
  {
    if ops != [] {
      ApplyKeepsWf(r, ops[0]);
      SettledWordIsFinal(Apply(r, ops[0]), ops[1..], c);
    }
  }

  // ---------------------------------------------------------------- accepted intent

  /** A cancel of this file was accepted and its intent is on record. */
  ghost predicate Intent<C>(r: Registry<C>, k: Key) {
    k in r.entries && r.entries[k].control in r.words && r.words[r.entries[k].control] == Cancelled
  }

  /** The two ways an intent can be lost: a refresh whose journal no longer lists the
      inactive file, or a registration with a control that is already finished. */
  ghost predicate Forgets<C>(r: Registry<C>, op: Op<C>, k: Key)
    requires Possible(r, op) && k in r.entries
  {
    || (op.PrepareOp? && !r.entries[k].active && k !in op.pending)
    || (op.RegisterOp? && op.key == k && !AnyActive(r) && r.words[op.control] == Committed)
  }

  lemma AcceptedCancelIsIntent<C>(r: Registry<C>, k: Key)
    requires Wf(r)
    ensures CancelAnswer(r, k) <==> Intent(CancelKey(r, k), k)
  {
  }

  /** Exactly the forgetting operations lose an accepted intent. */
  lemma StepKeepsIntent<C>(r: Registry<C>, op: Op<C>, k: Key)
    requires Possible(r, op) && Intent(r, k)
    ensures Intent(Apply(r, op), k) <==> !Forgets(r, op, k)
  {
    ApplyKeepsWf(r, op);
    if op.PrepareOp? && (r.entries[k].active || k in op.pending) {
      assert k !in op.made;
      var c := r.entries[k].control;
      assert c !in op.made.Values;
    }
  }

  /** A file with a recorded cancel, registered with a control that was finished before: the
      cancel is forgotten. */
  lemma FinishedControlForgets<C>(k: Key, c: C, d: C)
    requires c != d
    ensures
      var r := Registry(map[k := Entry(false, None, c)], map[c := Cancelled, d := Committed]);
      Possible(r, RegisterOp(k, d, true)) && Intent(r, k) && !Intent(Apply(r, RegisterOp(k, d, true)), k)
  {
    var r := Registry(map[k := Entry(false, None, c)], map[c := Cancelled, d := Committed]);
    assert !r.entries[k].active;
    assert Forgets(r, RegisterOp(k, d, true), k);
    StepKeepsIntent(r, RegisterOp(k, d, true), k);
  }

  ghost predicate NeverForgets<C>(r: Registry<C>, ops: seq<Op<C>>, k: Key)
    requires Run(r, ops)
    decreases |ops|
  {
    ops != [] && k in r.entries ==>
      !Forgets(r, ops[0], k) && NeverForgets(Apply(r, ops[0]), ops[1..], k)
  }

  /** A cancel that returned true is on record after every later run of refreshes,
      registrations, reports, other cancels and current or stale lease drops. */
  lemma {:induction false} CancelSurvives<C>(r: Registry<C>, k: Key, ops: seq<Op<C>>)
    requires Wf(r) && CancelAnswer(r, k)
    requires Run(CancelKey(r, k), ops) && NeverForgets(CancelKey(r, k), ops, k)
    ensures Intent(After(CancelKey(r, k), ops), k)
  {
    AcceptedCancelIsIntent(r, k);
    IntentSurvives(CancelKey(r, k), k, ops);
  }

  lemma {:induction false} IntentSurvives<C>(r: Registry<C>, k: Key, ops: seq<Op<C>>)
    requires Intent(r, k) && Run(r, ops) && NeverForgets(r, ops, k)
    ensures Intent(After(r, ops), k)
    decreases |ops|
  {
    if ops != [] {
      StepKeepsIntent(r, ops[0], k);
      IntentSurvives(Apply(r, ops[0]), k, ops[1..]);
    }
  }

  // ---------------------------------------------------------------- one active transfer

  ghost predicate OneActive<C>(r: Registry<C>) {
    forall k, l :: k in r.entries && l in r.entries && r.entries[k].active && r.entries[l].active ==> k == l
  }

  lemma {:induction false} AtMostOneActive<C>(r: Registry<C>, ops: seq<Op<C>>)
    requires OneActive(r) && Run(r, ops)
    ensures OneActive(After(r, ops))
    decreases |ops|
  {
    if ops != [] {
      var r' := Apply(r, ops[0]);
      forall k | k in r'.entries && r'.entries[k].active
        ensures (k in r.entries && r.entries[k].active) || (ops[0].RegisterOp? && k == ops[0].key && !AnyActive(r))
      {
      }
      AtMostOneActive(r', ops[1..]);
    }
  }

  // ---------------------------------------------------------------- progress

  ghost predicate Reporting<C>(r: Registry<C>, k: Key) {
    k in r.entries && r.entries[k].progress.Some?
  }

  /** A total once reported stays. */
  ghost predicate SameTotal<C>(r: Registry<C>, r': Registry<C>, k: Key)
    requires Reporting(r, k) && Reporting(r', k)
  {
    var total := r.entries[k].progress.value.total;
    total != 0 ==> r'.entries[k].progress.value.total == total
  }

  /** Only an active attempt has progress, and it is within its total. */
  ghost predicate Bounded<C>(r: Registry<C>) {
    forall k :: Reporting(r, k) ==>
      r.entries[k].active && r.entries[k].progress.value.completed <= r.entries[k].progress.value.total
  }

  lemma ReportsStayBounded<C>(r: Registry<C>, op: Op<C>)
    requires Possible(r, op) && Bounded(r)
    ensures Bounded(Apply(r, op))
  {
  }

  lemma StepProgress<C>(r: Registry<C>, op: Op<C>, k: Key)
    requires Possible(r, op) && Bounded(r) && (op.RegisterOp? ==> op.key != k)
    ensures Bounded(Apply(r, op))
    ensures
      var r' := Apply(r, op);
      if Reporting(r, k) then
        Reporting(r', k) ==>
          && r'.entries[k].control == r.entries[k].control
          && r.entries[k].progress.value.completed <= r'.entries[k].progress.value.completed
          && SameTotal(r, r', k)
      else (k in r.entries ==> !r.entries[k].active) ==>
        !Reporting(r', k) && (k in r'.entries ==> !r'.entries[k].active)
    ensures Reporting(r, k) && !Reporting(Apply(r, op), k) ==>
              k in Apply(r, op).entries ==> !Apply(r, op).entries[k].active
  {
    ReportsStayBounded(r, op);
  }

  lemma {:induction false} StaysQuiet<C>(r: Registry<C>, ops: seq<Op<C>>, k: Key)
    requires Run(r, ops) && Bounded(r) && !Reporting(r, k)
    requires forall op :: op in ops ==> !op.RegisterOp? || op.key != k
    requires k in r.entries ==> !r.entries[k].active
    ensures !Reporting(After(r, ops), k)
    decreases |ops|
  {
    if ops != [] {
      StepProgress(r, ops[0], k);
      StaysQuiet(Apply(r, ops[0]), ops[1..], k);
    }
  }

  /** Until the file is registered again, its progress is that of one control, never goes
      back and never passes its total, whoever reports and in whatever order. */
  lemma {:induction false} ProgressIsMonotone<C>(r: Registry<C>, ops: seq<Op<C>>, k: Key)
    requires Run(r, ops) && Bounded(r) && Reporting(r, k)
    requires forall op :: op in ops ==> !op.RegisterOp? || op.key != k
    ensures
      var r' := After(r, ops);
      Reporting(r', k) ==>
        && r'.entries[k].control == r.entries[k].control
        && r.entries[k].progress.value.completed <= r'.entries[k].progress.value.completed
                                                 <= r'.entries[k].progress.value.total
        && SameTotal(r, r', k)
    decreases |ops|
  {
    if ops != [] {
      StepProgress(r, ops[0], k);
      var r1 := Apply(r, ops[0]);
      if Reporting(r1, k) { ProgressIsMonotone(r1, ops[1..], k); } else { StaysQuiet(r1, ops[1..], k); }
    }
  }
}
