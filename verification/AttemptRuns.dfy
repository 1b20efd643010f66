/** Any number of attempts of one engine, and the control that an explicit operation leaves in
    the engine's field (crates/mutte-client/src/engine.rs). */
module AttemptRuns {
  import opened Common
  import opened Transfer
  import A = Attempt
  import R = RegistryRuns

  /** A cancellable operation makes at most one attempt, at the file it names. */
  datatype Operation = Operation(file: Key, began: bool)

  datatype Engine<C> = Engine(
    a: A.State<C>,           // the latest attempt, with the registry and the journal
    key: Key,
    control: C,
    field: Option<C>,        // the control of an explicit operation, cleared only at its end
    op: Option<Operation>,   // the explicit operation under way
    used: set<C>,            // controls of registry entries and explicit operations
    wanted: set<Key>,        // a cancel of the file took effect since it was last queued
    sent: set<Key>,          // the file was committed since it was last queued
    seen: set<Key>)          // every file that was ever queued

  datatype Event<C> =
    | Make(control: C)
    | Cancel(op: R.Op<C>)
    | Refresh(made: map<Key, C>)
    | CleanUp(key: Key)
    | Queue(key: Key, made: map<Key, C>)
    | Explicit(control: C, key: Key)
    | Close
    | Drop                   // the operation's future is dropped outside an attempt
    | Begin(key: Key, spare: C)
    | Inner(e: A.Event<C>)

  predicate Idle<C>(s: Engine<C>) { s.a.stage in {A.Waiting, A.Refused, A.Done} }

  ghost predicate Enabled<C>(s: Engine<C>, e: Event<C>) {
    Wf(s.a.reg) && s.used <= s.a.reg.words.Keys && (s.field.Some? ==> s.field.value in s.used) &&
    match e
    case Make(c) => c !in s.a.reg.words
    case Cancel(op) => A.Cancels(op) && R.Possible(s.a.reg, op)
    case Refresh(made) => Idle(s) && FreshControls(s.a.reg, s.a.journal, made)
    case CleanUp(k) => Idle(s) && k in CancelledPending(s.a.reg) && k in s.a.journal
    case Queue(k, made) =>
      && Idle(s) && k !in s.a.journal && FreshControls(s.a.reg, s.a.journal, made)
      && (s.op.Some? ==> s.op.value == Operation(k, false))
    case Explicit(c, _) =>
      Idle(s) && s.op.None? && c in s.a.reg.words && c !in s.used && s.a.reg.words[c] == Open
    case Close => Idle(s) && s.op.Some? && s.field.Some?
    case Drop => Idle(s) && s.op.Some?
    case Begin(k, spare) =>
      && Idle(s) && k in s.a.journal && (s.field.None? ==> spare !in s.a.reg.words)
      && (s.op.Some? ==> s.op.value == Operation(k, false))
    case Inner(e) => !Idle(s) && !e.Begin? && !e.Frontend? && A.Enabled(s.a, s.key, s.control, e)
  }

  /** The files an effective cancel is a cancel of: the one named, or those registered with the
      control and the one of the explicit operation that holds it. */
  ghost function Accepts<C>(s: Engine<C>, op: R.Op<C>): set<Key>
    requires Wf(s.a.reg)
  {
    var r := s.a.reg;
    match op
    case CancelKeyOp(k) => if k in r.entries && r.words[r.entries[k].control] == Open then {k} else {}
    case CancelControlOp(d) =>
      if d in r.words && r.words[d] == Open then
        (set k | k in r.entries && r.entries[k].control == d)
        + (if s.field == Some(d) && s.op.Some? then {s.op.value.file} else {})
      else {}
    case _ => {}
  }

  function Registry<C>(s: Engine<C>, reg: Transfer.Registry<C>): Engine<C> { s.(a := s.a.(reg := reg)) }

  function Chosen<C>(s: Engine<C>, spare: C): C { s.field.GetOr(spare) }

  ghost function Step<C>(s: Engine<C>, e: Event<C>): Engine<C>
    requires Enabled(s, e)
  {
    match e
    case Make(c) => Registry(s, WriteWord(s.a.reg, c, Open))
    case Cancel(op) => Registry(s, R.Apply(s.a.reg, op)).(wanted := s.wanted + Accepts(s, op))
    case Refresh(made) => Registry(s, Prepare(s.a.reg, s.a.journal, made)).(used := s.used + made.Values)
    case CleanUp(k) => s.(a := s.a.(journal := s.a.journal - {k}))
    case Queue(k, made) =>
      var t := Registry(s, Prepare(s.a.reg, s.a.journal, made)).(used := s.used + made.Values);
      var cancelled := s.op.Some? && s.field.Some? && s.a.reg.words[s.field.value] == Cancelled;
      t.(a := t.a.(journal := s.a.journal + {k}), seen := s.seen + {k}, sent := s.sent - {k},
         wanted := if cancelled then s.wanted + {k} else s.wanted - {k})
    case Explicit(c, k) => s.(field := Some(c), op := Some(Operation(k, false)), used := s.used + {c})
    case Close =>
      var c := s.field.value;
      Registry(s, WriteWord(s.a.reg, c, CommitWord(s.a.reg.words[c]))).(field := None, op := None)
    case Drop => s.(op := None)
    case Begin(k, spare) =>
      var c := Chosen(s, spare);
      var reg := if s.field.Some? then s.a.reg else WriteWord(s.a.reg, spare, Open);
      var start := A.State(reg, s.a.journal, A.Waiting, false, false, false, false, false, false);
      s.(a := A.Step(start, k, c, A.Begin(s.field.Some?)), key := k, control := c, used := s.used + {c},
         op := if s.op.Some? then Some(s.op.value.(began := true)) else None)
    case Inner(e) =>
      s.(a := A.Step(s.a, s.key, s.control, e),
         sent := if e == A.LocalCommit(true) then s.sent + {s.key} else s.sent,
         op := if e.Abandon? then None else s.op)
  }

  ghost predicate Run<C>(s: Engine<C>, es: seq<Event<C>>)
    decreases |es|
  {
    es != [] ==> Enabled(s, es[0]) && Run(Step(s, es[0]), es[1..])
  }

  ghost function After<C>(s: Engine<C>, es: seq<Event<C>>): Engine<C>
    requires Run(s, es)
    decreases |es|
  {
    if es == [] then s else After(Step(s, es[0]), es[1..])
  }

  /** The attempt about to start registers an open control, or a cancel of its file took effect
      before. */
  ghost predicate Honest<C>(s: Engine<C>, k: Key)
    requires s.field.Some? ==> s.field.value in s.a.reg.words
  {
    s.field.Some? ==> s.a.reg.words[s.field.value] == Open || k in s.wanted
  }

  ghost predicate AllHonest<C>(s: Engine<C>, es: seq<Event<C>>)
    requires Run(s, es)
    decreases |es|
  {
    es != [] ==> (es[0].Begin? ==> Honest(s, es[0].key)) && AllHonest(Step(s, es[0]), es[1..])
  }

  // ---------------------------------------------------------------- the invariant

  ghost predicate GoodEntries<C>(r: Transfer.Registry<C>, used: set<C>, wanted: set<Key>) {
    && Wf(r) && used <= r.words.Keys
    && (forall k :: k in r.entries ==> r.entries[k].control in used)
    && (forall k :: k in r.entries && r.words[r.entries[k].control] == Cancelled ==> k in wanted)
    && (forall k :: k in r.entries && !r.entries[k].active ==> r.words[r.entries[k].control] != Committed)
    && (forall k, l :: k in r.entries && l in r.entries && r.entries[k].control == r.entries[l].control && k != l
          ==> r.words[r.entries[k].control] == Cancelled)
  }

  ghost predicate GoodIdle<C>(s: Engine<C>)
    requires s.field.Some? ==> s.field.value in s.a.reg.words
  {
    && (forall k :: k in s.a.reg.entries ==> !s.a.reg.entries[k].active)
    && (s.field.Some? && s.a.reg.words[s.field.value] == Open ==>
          forall k :: k in s.a.reg.entries ==> s.a.reg.entries[k].control != s.field.value)
  }

  ghost predicate GoodBusy<C>(s: Engine<C>) {
    var r := s.a.reg;
    && s.control in s.used && s.control in r.words
    && s.key in r.entries && r.entries[s.key].active && r.entries[s.key].control == s.control
    && (forall k :: k in r.entries && r.entries[k].active ==> k == s.key)
    && (s.field.Some? ==> s.field.value == s.control)
    && (s.a.stage == A.Working ==> r.words[s.control] != Committed || s.key in s.wanted)
    && (s.a.refused || s.a.stage == A.CleaningUp ==> s.key in s.wanted)
  }

  ghost predicate Accounted<C>(s: Engine<C>) {
    && s.a.journal <= s.seen && s.a.journal !! s.sent
    && forall k :: k in s.seen ==> k in s.a.journal || k in s.wanted || k in s.sent
  }

  ghost predicate Inv<C>(s: Engine<C>) {
    && GoodEntries(s.a.reg, s.used, s.wanted) && (s.field.Some? ==> s.field.value in s.used)
    && (if Idle(s) then GoodIdle(s) else GoodBusy(s))
    && Accounted(s)
  }

  ghost predicate Fresh<C>(s: Engine<C>) {
    && s.a == A.State(Transfer.Registry(map[], map[]), {}, A.Waiting, false, false, false, false, false, false)
    && s.field.None? && s.op.None? && s.used == {} && s.wanted == {} && s.sent == {} && s.seen == {}
  }

  lemma CancelKeyKeepsEntries<C>(s: Engine<C>, k: Key)
    requires Inv(s) && Enabled(s, Cancel(R.CancelKeyOp(k)))
    ensures var t := Step(s, Cancel(R.CancelKeyOp(k))); GoodEntries(t.a.reg, t.used, t.wanted)
  {
  }

  lemma CancelKeyKeepsStage<C>(s: Engine<C>, k: Key)
    requires Inv(s) && Enabled(s, Cancel(R.CancelKeyOp(k)))
    ensures var t := Step(s, Cancel(R.CancelKeyOp(k)));
            (s.field.Some? ==> s.field.value in t.a.reg.words) && if Idle(t) then GoodIdle(t) else GoodBusy(t)
  {
  }

  lemma CancelKeyKeepsInv<C>(s: Engine<C>, k: Key)
    requires Inv(s) && Enabled(s, Cancel(R.CancelKeyOp(k)))
    ensures Inv(Step(s, Cancel(R.CancelKeyOp(k))))
  {
    CancelKeyKeepsEntries(s, k);
    CancelKeyKeepsStage(s, k);
  }

  lemma CancelControlKeepsInv<C>(s: Engine<C>, d: C)
    requires Inv(s) && Enabled(s, Cancel(R.CancelControlOp(d)))
    ensures Inv(Step(s, Cancel(R.CancelControlOp(d))))
  {
  }

  lemma PrepareKeepsEntries<C>(
      r: Transfer.Registry<C>, used: set<C>, wanted: set<Key>, listed: set<Key>, made: map<Key, C>)
    requires GoodEntries(r, used, wanted) && FreshControls(r, listed, made)
    ensures GoodEntries(Prepare(r, listed, made), used + made.Values, wanted)
    ensures forall k :: k in Prepare(r, listed, made).entries ==> k in listed || (k in r.entries && r.entries[k].active)
    ensures forall c :: c in r.words ==> Prepare(r, listed, made).words[c] == r.words[c]
  {
    assert forall k :: k in made ==> made[k] in made.Values;
  }

  lemma RefreshKeepsInv<C>(s: Engine<C>, made: map<Key, C>)
    requires Inv(s) && Enabled(s, Refresh(made))
    ensures Inv(Step(s, Refresh(made)))
  {
    PrepareKeepsEntries(s.a.reg, s.used, s.wanted, s.a.journal, made);
  }

  /** A file without an entry may be wanted or not. */
  lemma WantedIsFree<C>(r: Transfer.Registry<C>, used: set<C>, wanted: set<Key>, k: Key)
    requires GoodEntries(r, used, wanted) && k !in r.entries
    ensures GoodEntries(r, used, wanted + {k}) && GoodEntries(r, used, wanted - {k})
  {
  }

  /** The file queued had no entry left, so its own cancel is the only one that counts now. */
  lemma QueueKeepsInv<C>(s: Engine<C>, k: Key, made: map<Key, C>)
    requires Inv(s) && Enabled(s, Queue(k, made))
    ensures Inv(Step(s, Queue(k, made)))
  {
    RefreshKeepsInv(s, made);
    PrepareKeepsEntries(s.a.reg, s.used, s.wanted, s.a.journal, made);
    var t := Step(s, Refresh(made));
    WantedIsFree(t.a.reg, t.used, t.wanted, k);
  }

  lemma RegisterKeepsEntries<C>(r: Transfer.Registry<C>, used: set<C>, wanted: set<Key>, k: Key, c: C, explicit: bool)
    requires GoodEntries(r, used, wanted) && c in r.words && (r.words[c] == Open || k in wanted) && !AnyActive(r)
    requires r.words[c] == Open ==> forall l :: l in r.entries ==> r.entries[l].control != c
    ensures
      var s := Register(r, k, c, explicit);
      && GoodEntries(s, used + {c}, wanted) && (s.words[c] == Open || k in wanted)
      && k in s.entries && s.entries[k].active && s.entries[k].control == c
      && forall l :: l in s.entries && s.entries[l].active ==> l == k
  {
  }

  lemma CloseKeepsInv<C>(s: Engine<C>)
    requires Inv(s) && Enabled(s, Close)
    ensures Inv(Step(s, Close))
  {
  }

  lemma BeginKeepsInv<C>(s: Engine<C>, k: Key, spare: C)
    requires Inv(s) && Enabled(s, Begin(k, spare)) && Honest(s, k)
    ensures Inv(Step(s, Begin(k, spare)))
  {
    var c := Chosen(s, spare);
    var reg := if s.field.Some? then s.a.reg else WriteWord(s.a.reg, spare, Open);
    assert GoodEntries(reg, s.used, s.wanted);
    RegisterKeepsEntries(reg, s.used, s.wanted, k, c, s.field.Some?);
  }

  /** The two steps that write the control's word. */
  lemma TryCommitKeepsInv<C>(s: Engine<C>)
    requires Inv(s) && Enabled(s, Inner(A.TryCommit))
    ensures Inv(Step(s, Inner(A.TryCommit)))
  {
  }

  lemma FinishKeepsInv<C>(s: Engine<C>)
    requires Inv(s) && Enabled(s, Inner(A.FinishControl))
    ensures Inv(Step(s, Inner(A.FinishControl)))
  {
  }

  lemma DropKeepsEntries<C>(r: Transfer.Registry<C>, used: set<C>, wanted: set<Key>, k: Key, c: C)
    requires GoodEntries(r, used, wanted) && c in r.words && k in r.entries && r.entries[k].control == c
    requires forall l :: l in r.entries && r.entries[l].active ==> l == k
    ensures
      var s := DropLease(r, k, c);
      && GoodEntries(s, used, wanted) && s.words[c] != Open
      && forall l :: l in s.entries ==> !s.entries[l].active
  {
  }

  lemma ReleaseKeepsInv<C>(s: Engine<C>)
    requires Inv(s) && Enabled(s, Inner(A.Release))
    ensures Inv(Step(s, Inner(A.Release)))
  {
    DropKeepsEntries(s.a.reg, s.used, s.wanted, s.key, s.control);
  }

  lemma TellKeepsInv<C>(s: Engine<C>, e: A.Event<C>)
    requires Inv(s) && Enabled(s, Inner(e)) && e.Tell?
    ensures Inv(Step(s, Inner(e)))
  {
  }

  /** A step that leaves registry and words alone. */
  lemma LocalKeepsInv<C>(s: Engine<C>, t: Engine<C>)
    requires Inv(s) && !Idle(s) && !Idle(t)
    requires t.a.reg == s.a.reg && t.key == s.key && t.control == s.control && t.field == s.field
    requires t.used == s.used && t.wanted == s.wanted && t.seen == s.seen
    requires t.a.stage == A.Working ==> s.a.stage == A.Working
    requires t.a.refused || t.a.stage == A.CleaningUp ==> s.key in s.wanted
    requires Accounted(t)
    ensures Inv(t)
  {
  }

  /** A step that leaves the registry alone changes only how far the attempt is, and what was
      removed from the journal. */
  ghost predicate Local<C>(a: A.State<C>, k: Key, c: C, e: A.Event<C>, b: A.State<C>)
    requires c in a.reg.words
  {
    && b.reg == a.reg && b.stage !in {A.Waiting, A.Refused, A.Working, A.Done}
    && (b.refused || b.stage == A.CleaningUp ==> a.refused || a.reg.words[c] == Cancelled)
    && (b.journal == a.journal
        || (b.journal == a.journal - {k} && (a.stage == A.CleaningUp || e == A.LocalCommit(true))))
    && (e == A.LocalCommit(true) ==> k !in b.journal)
  }

  lemma LocalStepIsLocal<C>(a: A.State<C>, k: Key, c: C, e: A.Event<C>)
    requires A.Enabled(a, k, c, e) && !e.TryCommit? && !e.FinishControl? && !e.Release? && !e.Tell?
    requires !e.Begin? && !e.Frontend?
    ensures Local(a, k, c, e, A.Step(a, k, c, e))
  {
  }

  lemma LocalStepKeepsInv<C>(s: Engine<C>, e: A.Event<C>)
    requires Inv(s) && Enabled(s, Inner(e)) && !e.TryCommit? && !e.FinishControl? && !e.Release? && !e.Tell?
    ensures Inv(Step(s, Inner(e)))
  {
    LocalStepIsLocal(s.a, s.key, s.control, e);
    LocalKeepsInv(s, Step(s, Inner(e)));
  }

  lemma InnerKeepsInv<C>(s: Engine<C>, e: A.Event<C>)
    requires Inv(s) && Enabled(s, Inner(e))
    ensures Inv(Step(s, Inner(e)))
  {
    if e.TryCommit? { TryCommitKeepsInv(s); }
    else if e.FinishControl? { FinishKeepsInv(s); }
    else if e.Release? { ReleaseKeepsInv(s); }
    else if e.Tell? { TellKeepsInv(s, e); }
    else { LocalStepKeepsInv(s, e); }
  }

  lemma StepKeepsInv<C>(s: Engine<C>, e: Event<C>)
    requires Inv(s) && Enabled(s, e) && (e.Begin? ==> Honest(s, e.key))
    ensures Inv(Step(s, e))
  {
    match e
    case Cancel(op) =>
      if op.CancelKeyOp? { CancelKeyKeepsInv(s, op.key); } else { CancelControlKeepsInv(s, op.control); }
    case Refresh(made) => RefreshKeepsInv(s, made);
    case Queue(k, made) => QueueKeepsInv(s, k, made);
    case Begin(k, spare) => BeginKeepsInv(s, k, spare);
    case Inner(inner) => InnerKeepsInv(s, inner);
    case Close => CloseKeepsInv(s);
    case _ =>
  }

  lemma {:induction false} RunKeepsInv<C>(s: Engine<C>, es: seq<Event<C>>)
    requires Inv(s) && Run(s, es) && AllHonest(s, es)
    ensures Inv(After(s, es))
    decreases |es|
  {
    if es != [] {
      StepKeepsInv(s, es[0]);
      RunKeepsInv(Step(s, es[0]), es[1..]);
    }
  }

  // ---------------------------------------------------------------- how files leave the queue

  lemma FreshIsInv<C>(s: Engine<C>)
    requires Fresh(s)
    ensures Inv(s)
  {
  }

  /** Whatever the engine, its frontends and dropped operations do: while every attempt starts
      honestly, a queued file stays queued until it is committed or a cancel of it took effect. */
  lemma FilesLeaveByCommitOrCancel<C>(s: Engine<C>, es: seq<Event<C>>, k: Key)
    requires Fresh(s) && Run(s, es) && AllHonest(s, es) && k in After(s, es).seen
    ensures var z := After(s, es); k in z.a.journal || k in z.sent || k in z.wanted
  {
    FreshIsInv(s);
    RunKeepsInv(s, es);
  }

  lemma Prepend<C>(s: Engine<C>, e: Event<C>, es: seq<Event<C>>)
    requires Enabled(s, e) && Run(Step(s, e), es)
    ensures Run(s, [e] + es) && After(s, [e] + es) == After(Step(s, e), es)
  {
    assert ([e] + es)[1..] == es;
  }

  ghost predicate Stands<C>(s: Engine<C>) {
    && Wf(s.a.reg) && s.used <= s.a.reg.words.Keys && (s.field.Some? ==> s.field.value in s.used)
    && s.control in s.a.reg.words && s.key in s.a.journal
  }

  /** Only the journal changed, by the file of the latest attempt. */
  ghost predicate Removes<C>(s: Engine<C>, z: Engine<C>) {
    z.a.journal == s.a.journal - {s.key} && z.wanted == s.wanted && z.sent == s.sent
  }

  function Removing<C>(): seq<Event<C>> { [Inner(A.Cleanup(true))] + ([Inner(A.Release)] + []) }

  lemma RemovingRuns<C>(s: Engine<C>)
    requires Stands(s) && s.a.stage == A.CleaningUp
    ensures Run(s, Removing()) && Removes(s, After(s, Removing()))
  {
    var t := Step(s, Inner(A.Cleanup(true)));
    Prepend(t, Inner(A.Release), []);
    Prepend(s, Inner(A.Cleanup(true)), [Inner(A.Release)] + []);
  }

  /** The end of an attempt whose own result says that it was cancelled. */
  function Retreat<C>(): seq<Event<C>> { [Inner(A.FinishControl)] + ([Inner(A.CheckControl)] + Removing()) }

  lemma RetreatRuns<C>(s: Engine<C>)
    requires Stands(s) && s.a.stage == A.Finishing && s.a.refused
    ensures Run(s, Retreat()) && Removes(s, After(s, Retreat()))
  {
    var t := Step(s, Inner(A.FinishControl));
    var u := Step(t, Inner(A.CheckControl));
    RemovingRuns(u);
    Prepend(t, Inner(A.CheckControl), Removing());
    Prepend(s, Inner(A.FinishControl), [Inner(A.CheckControl)] + Removing());
  }

  lemma SignalRuns<C>(s: Engine<C>)
    requires Stands(s) && s.a.stage == A.Working && s.a.reg.words[s.control] == Cancelled
    ensures var es := [Inner(A.SeeSignal)] + Retreat(); Run(s, es) && Removes(s, After(s, es))
  {
    var t := Step(s, Inner(A.SeeSignal));
    RetreatRuns(t);
    Prepend(s, Inner(A.SeeSignal), Retreat());
  }

  lemma LateCommitRuns<C>(s: Engine<C>)
    requires Stands(s) && s.a.stage == A.Working && s.a.reg.words[s.control] == Committed
    ensures var es := [Inner(A.TryCommit)] + Retreat(); Run(s, es) && Removes(s, After(s, es))
  {
    var t := Step(s, Inner(A.TryCommit));
    RetreatRuns(t);
    Prepend(s, Inner(A.TryCommit), Retreat());
  }

  /** A start with a control that was settled for something else, and what follows. */
  function Removal<C>(k: Key, spare: C, cancelled: bool): seq<Event<C>> {
    [Begin(k, spare)] + ([Inner(if cancelled then A.SeeSignal else A.TryCommit)] + Retreat())
  }

  /** The attempt finds its control settled, so the file is taken from the queue. */
  lemma RemovalRuns<C>(s: Engine<C>, k: Key, spare: C)
    requires Inv(s) && Enabled(s, Begin(k, spare)) && !Honest(s, k)
    ensures
      var es := Removal(k, spare, s.a.reg.words[s.field.value] == Cancelled);
      && Run(s, es) && After(s, es).a.journal == s.a.journal - {k}
      && After(s, es).wanted == s.wanted && After(s, es).sent == s.sent
  {
    var cancelled := s.a.reg.words[s.field.value] == Cancelled;
    var t := Step(s, Begin(k, spare));
    assert t.a.reg.words == s.a.reg.words && t.a.stage == A.Working;
    if cancelled { SignalRuns(t); } else { LateCommitRuns(t); }
    Prepend(s, Begin(k, spare), [Inner(if cancelled then A.SeeSignal else A.TryCommit)] + Retreat());
  }

  /** The file loses its place although nobody cancelled it and nothing was committed. */
  ghost predicate Loses<C>(s: Engine<C>, k: Key, es: seq<Event<C>>) {
    Run(s, es) && k !in After(s, es).a.journal && k !in After(s, es).wanted && k !in After(s, es).sent
  }

  /** `es` starts an attempt at the file and goes on without a dishonest start. */
  ghost predicate Tries<C>(s: Engine<C>, k: Key, spare: C, es: seq<Event<C>>) {
    es != [] && es[0] == Begin(k, spare) && Run(s, es) && AllHonest(Step(s, es[0]), es[1..])
  }

  /** From a reachable state an attempt may start at a queued file without any risk of losing it
      if and only if the start is honest: the control is new or open, or the file was cancelled. */
  lemma HonestyIsExact<C>(s: Engine<C>, k: Key, spare: C)
    requires Inv(s) && Enabled(s, Begin(k, spare))
    ensures Honest(s, k) <==> forall es :: Tries(s, k, spare, es) ==> !Loses(s, k, es)
  {
    if Honest(s, k) {
      forall es | Tries(s, k, spare, es) ensures !Loses(s, k, es) {
        HonestTryKeeps(s, k, spare, es);
      }
    } else {
      DishonestTryLoses(s, k, spare);
    }
  }

  lemma HonestTryKeeps<C>(s: Engine<C>, k: Key, spare: C, es: seq<Event<C>>)
    requires Inv(s) && Honest(s, k) && Enabled(s, Begin(k, spare)) && Tries(s, k, spare, es)
    ensures !Loses(s, k, es)
  {
    BeginKeepsInv(s, k, spare);
    RunKeepsInv(Step(s, es[0]), es[1..]);
    SeenStays(s, es, k);
  }

  lemma DishonestTryLoses<C>(s: Engine<C>, k: Key, spare: C)
    requires Inv(s) && Enabled(s, Begin(k, spare)) && !Honest(s, k)
    ensures exists es :: Tries(s, k, spare, es) && Loses(s, k, es)
  {
    var es := Removal(k, spare, s.a.reg.words[s.field.value] == Cancelled);
    RemovalRuns(s, k, spare);
    NoFurtherStart(Step(s, es[0]), es[1..]);
    assert Tries(s, k, spare, es) && Loses(s, k, es);
  }

  lemma {:induction false} NoFurtherStart<C>(s: Engine<C>, es: seq<Event<C>>)
    requires Run(s, es) && forall e :: e in es ==> !e.Begin?
    ensures AllHonest(s, es)
    decreases |es|
  {
    if es != [] { NoFurtherStart(Step(s, es[0]), es[1..]); }
  }

  lemma {:induction false} SeenStays<C>(s: Engine<C>, es: seq<Event<C>>, k: Key)
    requires Run(s, es) && k in s.seen
    ensures k in After(s, es).seen
    decreases |es|
  {
    if es != [] { SeenStays(Step(s, es[0]), es[1..], k); }
  }

  // ---------------------------------------------------------------- operations that are not dropped

  ghost predicate NeverDrops<C>(es: seq<Event<C>>) {
    forall e :: e in es ==> !e.Drop? && !(e.Inner? && e.e.Abandon?)
  }

  /** The field holds a control only during its operation, unspent until the attempt starts. */
  ghost predicate Current<C>(s: Engine<C>)
    requires s.field.Some? ==> s.field.value in s.a.reg.words
  {
    && (s.field.Some? <==> s.op.Some?)
    && (s.op.Some? && !s.op.value.began ==>
          && Idle(s)
          && var w := s.a.reg.words[s.field.value];
             w == Open || (w == Cancelled && s.op.value.file in s.wanted))
  }

  lemma StepKeepsCurrent<C>(s: Engine<C>, e: Event<C>)
    requires Inv(s) && Current(s) && Enabled(s, e) && NeverDrops([e]) && Inv(Step(s, e))
    ensures Current(Step(s, e)) && (e.Begin? ==> Honest(s, e.key))
  {
    assert e in [e];
  }

  /** When no operation is dropped, every attempt starts honestly. */
  lemma {:induction false} UndroppedRunsAreHonest<C>(s: Engine<C>, es: seq<Event<C>>)
    requires Inv(s) && Current(s) && Run(s, es) && NeverDrops(es)
    ensures AllHonest(s, es)
    decreases |es|
  {
    if es != [] {
      assert es[0] in es;
      if es[0].Begin? { BeginIsHonest(s, es[0]); }
      StepKeepsInv(s, es[0]);
      StepKeepsCurrent(s, es[0]);
      UndroppedRunsAreHonest(Step(s, es[0]), es[1..]);
    }
  }

  lemma BeginIsHonest<C>(s: Engine<C>, e: Event<C>)
    requires Inv(s) && Current(s) && Enabled(s, e) && e.Begin?
    ensures Honest(s, e.key)
  {
  }

  /** So a client that awaits its operations never loses a queued file to a settled control. */
  lemma UndroppedFilesLeaveByCommitOrCancel<C>(s: Engine<C>, es: seq<Event<C>>, k: Key)
    requires Fresh(s) && Run(s, es) && NeverDrops(es) && k in After(s, es).seen
    ensures var z := After(s, es); k in z.a.journal || k in z.sent || k in z.wanted
  {
    FreshIsInv(s);
    UndroppedRunsAreHonest(s, es);
    FilesLeaveByCommitOrCancel(s, es, k);
  }

  // ---------------------------------------------------------------- one operation dropped

  /** A file is queued by an explicit operation whose future is dropped during the attempt. */
  function Dropped<C>(c: C, k: Key): seq<Event<C>> {
    [Make(c)] + ([Explicit(c, k)] + ([Queue(k, map[])] + Interrupted(c, k)))
  }

  function Interrupted<C>(c: C, k: Key): seq<Event<C>> { [Begin(k, c)] + Abandoned() }

  function Abandoned<C>(): seq<Event<C>> { [Inner(A.Abandon)] + ([Inner(A.Release)] + []) }

  /** Nothing but the control, which is spent, and the registry, which is empty again. */
  ghost predicate Spent<C>(s: Engine<C>, c: C, z: Engine<C>) {
    && z.field == Some(c) && z.op.None? && z.a.stage == A.Done
    && z.a.reg.entries == map[] && z.a.reg.words == s.a.reg.words[c := Committed]
    && z.a.journal == s.a.journal && z.used == s.used && z.seen == s.seen && z.wanted == s.wanted && z.sent == s.sent
  }

  lemma AbandonedRuns<C>(s: Engine<C>, c: C)
    requires Wf(s.a.reg) && s.used <= s.a.reg.words.Keys && c in s.used && s.field == Some(c) && s.control == c
    requires s.a.stage == A.Working && s.a.reg.words[c] == Open
    requires s.a.reg.entries.Keys == {s.key} && s.a.reg.entries[s.key].control == c
    ensures Run(s, Abandoned()) && Spent(s, c, After(s, Abandoned()))
  {
    var t := Step(s, Inner(A.Abandon));
    Prepend(t, Inner(A.Release), []);
    Prepend(s, Inner(A.Abandon), [Inner(A.Release)] + []);
  }

  lemma InterruptedRuns<C>(s: Engine<C>, c: C, k: Key)
    requires Enabled(s, Begin(k, c)) && s.a.reg.entries == map[] && c in s.used
    requires s.field == Some(c) && s.op == Some(Operation(k, false)) && s.a.reg.words[c] == Open
    ensures Run(s, Interrupted(c, k)) && Spent(s, c, After(s, Interrupted(c, k)))
  {
    var t := Step(s, Begin(k, c));
    assert t.a.reg.words == s.a.reg.words && t.used == s.used;
    AbandonedRuns(t, c);
    Prepend(s, Begin(k, c), Abandoned());
  }

  lemma QueuedByOperation<C>(s: Engine<C>, c: C, k: Key)
    requires Idle(s) && s.a.reg == Transfer.Registry(map[], map[c := Open]) && s.a.journal == {} && s.used == {c}
    requires s.field == Some(c) && s.op == Some(Operation(k, false)) && s.wanted == {} && s.sent == {} && s.seen == {}
    ensures
      && Enabled(s, Queue(k, map[]))
      && var z := Step(s, Queue(k, map[]));
         && Enabled(z, Begin(k, c)) && z.a.reg.entries == map[] && z.a.reg.words == map[c := Open] && z.used == {c}
         && z.field == Some(c) && z.op == s.op && OnlyQueued(z, k)
  {
    var none: map<Key, C> := map[];
    assert none.Values == {};
  }

  /** The file is queued, unsent and uncancelled. */
  ghost predicate OnlyQueued<C>(s: Engine<C>, k: Key) {
    s.a.journal == s.seen == {k} && s.wanted == {} && s.sent == {}
  }

  lemma SpentIsInv<C>(s: Engine<C>, c: C, k: Key, z: Engine<C>)
    requires Spent(s, c, z) && OnlyQueued(s, k) && s.used == {c} && s.a.reg.words == map[c := Open]
    ensures Inv(z) && Enabled(z, Begin(k, c)) && !Honest(z, k)
  {
  }

  /** Then the spent control is still in the field and the file is still queued. */
  lemma DroppedRuns<C>(s: Engine<C>, c: C, k: Key)
    requires Fresh(s)
    ensures
      && Run(s, Dropped(c, k))
      && var z := After(s, Dropped(c, k));
         Inv(z) && Enabled(z, Begin(k, c)) && !Honest(z, k)
  {
    var s1 := Step(s, Make(c));
    var s2 := Step(s1, Explicit(c, k));
    QueuedByOperation(s2, c, k);
    var s3 := Step(s2, Queue(k, map[]));
    InterruptedRuns(s3, c, k);
    SpentIsInv(s3, c, k, After(s3, Interrupted(c, k)));
    Prepend(s2, Queue(k, map[]), Interrupted(c, k));
    Prepend(s1, Explicit(c, k), [Queue(k, map[])] + Interrupted(c, k));
    Prepend(s, Make(c), [Explicit(c, k)] + ([Queue(k, map[])] + Interrupted(c, k)));
  }

  /** In every new engine, one operation whose future is dropped is enough: the next attempt at
      its file takes it from the queue, though nothing was sent and no cancel was asked for. */
  lemma DroppedOperationLosesItsFile<C>(s: Engine<C>, c: C, k: Key)
    requires Fresh(s)
    ensures Run(s, Dropped(c, k)) && exists es :: Loses(After(s, Dropped(c, k)), k, es)
  {
    DroppedRuns(s, c, k);
    DishonestTryLoses(After(s, Dropped(c, k)), k, c);
  }
}
