/** Crash-safe sign-out: a durable intent, two vaults and one local identity
    (apps/mutte/src/session_control.rs, apps/mutte/src/main.rs). */
module SignOut {
  import opened Common

  datatype Session = Session(device: nat, account: nat)

  /** The intent file; a reader refuses any version but the first. */
  datatype Intent = Intent(version: nat, session: Session)

  datatype Vault = Vault(session: Option<Session>, conversations: seq<nat>)

  /** Everything that survives a crash. A scoped vault's file path is its binding. */
  datatype Disk = Disk(
    intent: Option<Intent>,
    identity: Option<nat>,         // the relay-scoped identity file
    released: Option<nat>,         // the identity file of the released terminal, kept as a backup
    legacy: Vault,
    vaults: map<Session, Vault>)

  /** The next write of the running process. `exit` tells the sign-out at the end of a
      session from the one at launch. */
  datatype Stage =
    | Off
    | Copying
    | Loading
    | ReadingIntent(exit: bool)
    | ClearingScoped(target: Session, exit: bool)
    | ClearingLegacy(target: Session, exit: bool)
    | Retiring(target: Session, exit: bool)
    | Creating(target: Session, exit: bool)
    | Removing(target: Session, exit: bool)
    | PastFinish
    | Rotating                      // the identity was retired because the relay refused it
    | Running(session: Session)

  datatype Past = Past(used: set<nat>, requested: set<Session>, done: set<Session>, retired: seq<nat>)

  datatype State = State(disk: Disk, stage: Stage, device: nat, past: Past)

  datatype Event =
    | Launch
    | Proceed(newId: nat)           // the running process performs its next write
    | Crash
    | Rotate                        // from PastFinish: replace the local identity
    | SignIn(account: nat)          // from PastFinish: a validated or newly approved session
    | Request                       // the user confirms sign-out
    | Quit

  // ---------------------------------------------------------------- single writes

  function OpenVault(d: Disk, b: Session): Vault {
    if b in d.vaults then d.vaults[b] else Vault(None, [])
  }

  function ClearFor(v: Vault, device: nat): Vault {
    if v.session.Some? && v.session.value.device == device then v.(session := None) else v
  }

  function ClearScoped(d: Disk, b: Session): Disk {
    if b in d.vaults then d.(vaults := d.vaults[b := ClearFor(d.vaults[b], b.device)]) else d
  }

  /** The vault at the intent's path must hold the intent's session or none. */
  predicate BindingMatches(d: Disk, b: Session) {
    OpenVault(d, b).session in {None, Some(b)}
  }

  function CopyReleased(d: Disk): Disk {
    if d.identity.Some? || d.legacy.session.None? || d.released.None? then d
    else if d.released.value == d.legacy.session.value.device then d.(identity := d.released) else d
  }

  /** The vault a session continues in: its own if that is bound to it, else a copy of the
      released terminal's when that one is bound to it, else its own path, old or new. */
  function SessionVault(d: Disk, b: Session): Vault {
    if b in d.vaults then d.vaults[b] else if d.legacy.session == Some(b) then d.legacy else Vault(None, [])
  }

  function SaveSession(d: Disk, b: Session): Disk {
    d.(vaults := d.vaults[b := SessionVault(d, b).(session := Some(b))])
  }

  // ---------------------------------------------------------------- the step machine

  ghost predicate Enabled(s: State, e: Event) {
    match e
    case Launch => s.stage == Off
    case Crash => true
    case Proceed(newId) =>
      (s.stage in {Loading, Rotating} || s.stage.Creating? ==> newId !in s.past.used) &&
      (match s.stage
       case Copying => true
       case Loading => true
       case ReadingIntent(_) =>
         s.disk.intent.Some? ==> s.disk.intent.value.version == 1 && BindingMatches(s.disk, s.disk.intent.value.session)
       case ClearingScoped(_, _) => true
       case ClearingLegacy(_, _) => true
       case Retiring(_, _) => true
       case Creating(_, _) => true
       case Removing(_, _) => true
       case Rotating => true
       case _ => false)
    case Rotate => s.stage == PastFinish
    case SignIn(_) => s.stage == PastFinish
    case Request => s.stage.Running?
    case Quit => s.stage.Running?
  }

  function LoadOrCreate(s: State, newId: nat, next: Stage): State {
    if s.disk.identity.Some? then s.(device := s.disk.identity.value, stage := next)
    else s.(disk := s.disk.(identity := Some(newId)), device := newId, stage := next,
            past := s.past.(used := s.past.used + {newId}))
  }

  function Done(exit: bool): Stage { if exit then Off else PastFinish }

  function Proceeded(s: State, newId: nat): State {
    match s.stage
    case Copying => s.(disk := CopyReleased(s.disk), stage := Loading)
    case Loading => LoadOrCreate(s, newId, ReadingIntent(false))
    case ReadingIntent(exit) =>
      if s.disk.intent.None? then s.(stage := Done(exit))
      else s.(stage := ClearingScoped(s.disk.intent.value.session, exit))
    case ClearingScoped(b, exit) => s.(disk := ClearScoped(s.disk, b), stage := ClearingLegacy(b, exit))
    case ClearingLegacy(b, exit) =>
      s.(disk := s.disk.(legacy := ClearFor(s.disk.legacy, b.device)),
         stage := if s.device == b.device then Retiring(b, exit) else Removing(b, exit))
    case Retiring(b, exit) =>
      s.(disk := s.disk.(identity := None), stage := Creating(b, exit),
         past := s.past.(retired := s.past.retired + [b.device]))
    case Creating(b, exit) => LoadOrCreate(s, newId, Removing(b, exit))
    case Removing(b, exit) =>
      s.(disk := s.disk.(intent := None), stage := Done(exit), past := s.past.(done := s.past.done + {b}))
    case Rotating => LoadOrCreate(s, newId, PastFinish)
    case _ => s
  }

  ghost function Step(s: State, e: Event): State
    requires Enabled(s, e)
  {
    match e
    case Launch => s.(stage := Copying)
    case Crash => s.(stage := Off)
    case Proceed(newId) => Proceeded(s, newId)
    case Rotate => s.(disk := s.disk.(identity := None), stage := Rotating)
    case SignIn(account) =>
      var b := Session(s.device, account); s.(disk := SaveSession(s.disk, b), stage := Running(b))
    case Request =>
      s.(disk := s.disk.(intent := Some(Intent(1, s.stage.session))),
         past := s.past.(requested := s.past.requested + {s.stage.session}))
    case Quit => s.(stage := ReadingIntent(true))
  }

  ghost predicate Run(s: State, es: seq<Event>)
    decreases |es|
  {
    es != [] ==> Enabled(s, es[0]) && Run(Step(s, es[0]), es[1..])
  }

  ghost function After(s: State, es: seq<Event>): State
    requires Run(s, es)
    decreases |es|
  {
    if es == [] then s else After(Step(s, es[0]), es[1..])
  }

  // ---------------------------------------------------------------- the invariant

  ghost predicate Bound(d: Disk) {
    forall b :: b in d.vaults ==> d.vaults[b].session in {None, Some(b)}
  }

  ghost predicate Known(d: Disk, used: set<nat>) {
    && (d.identity.Some? ==> d.identity.value in used)
    && (d.released.Some? ==> d.released.value in used)
    && (d.legacy.session.Some? ==> d.legacy.session.value.device in used)
    && (d.intent.Some? ==> d.intent.value.session.device in used)
  }

  /** No trace of this device can bring it back. */
  ghost predicate Forgotten(d: Disk, device: nat) {
    && d.identity != Some(device)
    && (d.legacy.session.Some? ==> d.legacy.session.value.device != device)
  }

  ghost predicate SignedOut(d: Disk, b: Session) {
    OpenVault(d, b).session.None? && Forgotten(d, b.device)
  }

  /** The device the process holds is the one in the identity file. */
  ghost predicate HoldsIdentity(s: State) {
    s.disk.identity == Some(s.device)
  }

  ghost predicate GoodStage(s: State) {
    match s.stage
    case Off => true
    case Copying => true
    case Loading => true
    case ReadingIntent(_) => HoldsIdentity(s)
    case ClearingScoped(b, _) => HoldsIdentity(s) && s.disk.intent == Some(Intent(1, b))
    case ClearingLegacy(b, _) =>
      HoldsIdentity(s) && s.disk.intent == Some(Intent(1, b)) && OpenVault(s.disk, b).session.None?
    case Retiring(b, _) =>
      && HoldsIdentity(s) && s.disk.intent == Some(Intent(1, b)) && OpenVault(s.disk, b).session.None?
      && s.device == b.device && (s.disk.legacy.session.Some? ==> s.disk.legacy.session.value.device != b.device)
    case Creating(b, _) =>
      s.disk.identity.None? && s.disk.intent == Some(Intent(1, b)) && SignedOut(s.disk, b)
    case Removing(b, _) => HoldsIdentity(s) && s.disk.intent == Some(Intent(1, b)) && SignedOut(s.disk, b)
    case PastFinish => HoldsIdentity(s) && s.disk.intent.None?
    case Rotating => s.disk.intent.None?
    case Running(b) =>
      HoldsIdentity(s) && b.device == s.device && s.disk.intent in {None, Some(Intent(1, b))}
  }

  ghost predicate NoRepeats(xs: seq<nat>) {
    forall i, j :: 0 <= i < j < |xs| ==> xs[i] != xs[j]
  }

  ghost predicate Inv(s: State) {
    && Bound(s.disk) && Known(s.disk, s.past.used) && GoodStage(s)
    && (forall b :: b in s.past.done ==> SignedOut(s.disk, b) && b.device in s.past.used)
    && (forall b :: b in s.past.requested ==> b in s.past.done || s.disk.intent == Some(Intent(1, b)))
    && NoRepeats(s.past.retired)
    && (forall d :: d in s.past.retired ==> Forgotten(s.disk, d) && d in s.past.used)
  }

  /** Any earlier installation; nothing has been signed out under observation yet. */
  ghost predicate Start(s: State) {
    && s.stage == Off && Bound(s.disk) && Known(s.disk, s.past.used)
    && s.past.requested == {} && s.past.done == {} && s.past.retired == []
  }

  /** The stages that may write the identity file. */
  predicate OnIdentity(stage: Stage) {
    stage in {Copying, Loading, Rotating} || stage.Retiring? || stage.Creating?
  }

  lemma IdentityStepKeepsInv(s: State, newId: nat)
    requires Inv(s) && Enabled(s, Proceed(newId)) && OnIdentity(s.stage)
    ensures Inv(Proceeded(s, newId))
  {
  }

  lemma VaultStepKeepsInv(s: State, newId: nat)
    requires Inv(s) && Enabled(s, Proceed(newId)) && !OnIdentity(s.stage)
    ensures Inv(Proceeded(s, newId))
  {
  }

  lemma ProceedKeepsInv(s: State, newId: nat)
    requires Inv(s) && Enabled(s, Proceed(newId))
    ensures Inv(Proceeded(s, newId))
  {
    if OnIdentity(s.stage) { IdentityStepKeepsInv(s, newId); } else { VaultStepKeepsInv(s, newId); }
  }

  lemma StepKeepsInv(s: State, e: Event)
    requires Inv(s) && Enabled(s, e)
    ensures Inv(Step(s, e))
  {
    if e.Proceed? { ProceedKeepsInv(s, e.newId); }
  }

  lemma {:induction false} RunKeepsInv(s: State, es: seq<Event>)
    requires Inv(s) && Run(s, es)
    ensures Inv(After(s, es))
    decreases |es|
  {
    if es != [] {
      StepKeepsInv(s, es[0]);
      RunKeepsInv(Step(s, es[0]), es[1..]);
    }
  }

  /** Any launch that gets past sign-out, after any crashes: every requested sign-out is
      complete, and neither vault nor identity knows the device any more. */
  lemma PastFinishIsSignedOut(s: State, es: seq<Event>, b: Session)
    requires Start(s) && Run(s, es) && After(s, es).stage == PastFinish && b in After(s, es).past.requested
    ensures
      var z := After(s, es);
      && z.disk.intent.None?
      && OpenVault(z.disk, b).session.None?
      && (z.disk.legacy.session.Some? ==> z.disk.legacy.session.value.device != b.device)
      && z.disk.identity == Some(z.device) && z.device != b.device
  {
    RunKeepsInv(s, es);
  }

  lemma {:induction false} RequestsStay(s: State, es: seq<Event>)
    requires Run(s, es)
    ensures s.past.requested <= After(s, es).past.requested
    decreases |es|
  {
    if es != [] {
      assert s.past.requested <= Step(s, es[0]).past.requested;
      RequestsStay(Step(s, es[0]), es[1..]);
    }
  }

  lemma {:induction false} Concat(s: State, es: seq<Event>, fs: seq<Event>)
    requires Run(s, es) && Run(After(s, es), fs)
    ensures Run(s, es + fs) && After(s, es + fs) == After(After(s, es), fs)
    decreases |es|
  {
    if es == [] {
      assert es + fs == fs;
    } else {
      Concat(Step(s, es[0]), es[1..], fs);
      assert (es + fs)[1..] == es[1..] + fs;
    }
  }

  /** A user who asked to sign out while `b` was running is signed out at every later point past
      sign-out, however often the process was killed in between. */
  lemma RequestIsCarriedOut(s: State, es: seq<Event>, b: Session, fs: seq<Event>)
    requires Start(s) && Run(s, es) && After(s, es).stage == Running(b)
    requires Run(Step(After(s, es), Request), fs) && After(Step(After(s, es), Request), fs).stage == PastFinish
    ensures
      var z := After(Step(After(s, es), Request), fs);
      && z.disk.intent.None? && z.disk.identity == Some(z.device)
      && OpenVault(z.disk, b).session.None? && z.device != b.device
      && (z.disk.legacy.session.Some? ==> z.disk.legacy.session.value.device != b.device)
  {
    RunAppend(s, es, Request);
    Concat(s, es + [Request], fs);
    RequestsStay(Step(After(s, es), Request), fs);
    PastFinishIsSignedOut(s, es + [Request] + fs, b);
  }

  /** However often sign-out is interrupted, it retires each identity at most once. */
  lemma RetiredAtMostOnce(s: State, es: seq<Event>)
    requires Start(s) && Run(s, es)
    ensures NoRepeats(After(s, es).past.retired)
  {
    RunKeepsInv(s, es);
  }

  /** A finished sign-out stays finished whatever happens later. */
  lemma {:induction false} SignedOutForever(s: State, es: seq<Event>, b: Session)
    requires Inv(s) && b in s.past.done && Run(s, es)
    ensures SignedOut(After(s, es).disk, b)
    decreases |es|
  {
    if es != [] {
      StepKeepsInv(s, es[0]);
      SignedOutForever(Step(s, es[0]), es[1..], b);
    }
  }

  ghost predicate KeepsConversations(d: Disk, d': Disk) {
    && d'.legacy.conversations == d.legacy.conversations
    && forall b :: b in d.vaults ==> b in d'.vaults && d'.vaults[b].conversations == d.vaults[b].conversations
  }

  /** No run of launches, sign-ins and sign-outs touches a stored conversation. */
  lemma {:induction false} ConversationsUntouched(s: State, es: seq<Event>)
    requires Run(s, es)
    ensures KeepsConversations(s.disk, After(s, es).disk)
    decreases |es|
  {
    if es != [] {
      assert KeepsConversations(s.disk, Step(s, es[0]).disk);
      ConversationsUntouched(Step(s, es[0]), es[1..]);
    }
  }

  /** An intent of an unknown version keeps every launch before sign-in. */
  lemma {:induction false} UnknownIntentStaysClosed(s: State, es: seq<Event>)
    requires s.stage in {Off, Copying, Loading, ReadingIntent(false)}
    requires s.disk.intent.Some? && s.disk.intent.value.version != 1 && Run(s, es)
    ensures After(s, es).stage in {Off, Copying, Loading, ReadingIntent(false)}
    ensures After(s, es).disk.intent == s.disk.intent
    decreases |es|
  {
    if es != [] { UnknownIntentStaysClosed(Step(s, es[0]), es[1..]); }
  }

  // ---------------------------------------------------------------- the identity of a launch

  /** The identity on disk changes only where a sign-out or a rotation retires it, or where there
      is none: there the released one is copied, or a new one is made. */
  lemma IdentityChangesOnly(s: State, e: Event)
    requires Enabled(s, e) && Step(s, e).disk.identity != s.disk.identity
    ensures
      var id := Step(s, e).disk.identity;
      if e.Rotate? || (e.Proceed? && s.stage.Retiring?) then id.None?
      else
        && e.Proceed? && s.disk.identity.None?
        && (if s.stage == Copying then
              s.disk.legacy.session.Some? && id == s.disk.released == Some(s.disk.legacy.session.value.device)
            else (s.stage in {Loading, Rotating} || s.stage.Creating?) && id == Some(e.newId))
  {
  }

  function Proceeds(newId: nat, n: nat): (es: seq<Event>)
    ensures |es| == n && forall e :: e in es ==> e == Proceed(newId)
  {
    seq(n, _ => Proceed(newId))
  }

  lemma ProceedsRun(s: State, newId: nat, n: nat)
    requires n > 0 && Enabled(s, Proceed(newId)) && Run(Proceeded(s, newId), Proceeds(newId, n - 1))
    ensures Run(s, Proceeds(newId, n))
    ensures After(s, Proceeds(newId, n)) == After(Proceeded(s, newId), Proceeds(newId, n - 1))
  {
    assert Proceeds(newId, n)[1..] == Proceeds(newId, n - 1);
  }

  /** The writes of a sign-out after both vaults are cleared. */
  lemma ReplaceEnds(s: State, newId: nat) returns (n: nat)
    requires s.stage.Retiring? || (s.stage.Removing? && HoldsIdentity(s))
    requires newId !in s.past.used && !s.stage.exit
    ensures Run(s, Proceeds(newId, n))
    ensures
      var z := After(s, Proceeds(newId, n));
      && z.stage == PastFinish && z.disk.intent.None? && HoldsIdentity(z)
      && z.device == if s.stage.Retiring? then newId else s.device
  {
    if s.stage.Retiring? {
      var t := Proceeded(s, newId);
      var u := Proceeded(t, newId);
      ProceedsRun(u, newId, 1);
      ProceedsRun(t, newId, 2);
      ProceedsRun(s, newId, 3);
      n := 3;
    } else {
      ProceedsRun(s, newId, 1);
      n := 1;
    }
  }

  lemma FinishEnds(s: State, newId: nat) returns (n: nat)
    requires s.stage == ReadingIntent(false) && newId !in s.past.used && Bound(s.disk) && HoldsIdentity(s)
    requires s.disk.intent.Some? ==> s.disk.intent.value.version == 1
    ensures Run(s, Proceeds(newId, n))
    ensures
      var z := After(s, Proceeds(newId, n));
      && z.stage == PastFinish && z.disk.intent.None? && HoldsIdentity(z)
      && (s.disk.intent.None? ==> z == s.(stage := PastFinish))
      && z.device == if s.disk.intent.Some? && s.disk.intent.value.session.device == s.device then newId else s.device
  {
    if s.disk.intent.None? {
      ProceedsRun(s, newId, 1);
      n := 1;
    } else {
      var t := Proceeded(s, newId);
      var u := Proceeded(t, newId);
      var v := Proceeded(u, newId);
      n := ReplaceEnds(v, newId);
      ProceedsRun(u, newId, n + 1);
      ProceedsRun(t, newId, n + 2);
      ProceedsRun(s, newId, n + 3);
      n := n + 3;
    }
  }

  /** What an unhindered launch comes to: nothing pending, and the identity it started with unless
      that one was being signed out. */
  ghost predicate Launched(s: State, z: State, newId: nat) {
    && z.stage == PastFinish && z.disk.intent.None? && HoldsIdentity(z)
    && (s.disk.identity.Some? ==>
          if s.disk.intent.Some? && s.disk.intent.value.session.device == s.disk.identity.value
          then z.device == newId
          else z.device == s.disk.identity.value)
    && (s.disk.identity.Some? && s.disk.intent.None? ==> z.disk == s.disk)
  }

  /** After any run, a launch that is not killed and meets no unknown intent gets past sign-out,
      with the device it had unless that one was being signed out. */
  lemma LaunchEnds(s: State, es: seq<Event>, newId: nat, nextId: nat) returns (n: nat)
    requires Start(s) && Run(s, es) && After(s, es).stage == Off
    requires newId !in After(s, es).past.used && nextId !in After(s, es).past.used && newId != nextId
    requires After(s, es).disk.intent.Some? ==> After(s, es).disk.intent.value.version == 1
    ensures
      var z, fs := After(s, es), [Launch] + ([Proceed(newId)] + ([Proceed(newId)] + Proceeds(nextId, n)));
      Run(z, fs) && Launched(z, After(z, fs), nextId)
  {
    RunKeepsInv(s, es);
    var z := After(s, es);
    var a := Step(z, Launch);
    var b := Step(a, Proceed(newId));
    var c := Step(b, Proceed(newId));
    StepKeepsInv(z, Launch);
    StepKeepsInv(a, Proceed(newId));
    StepKeepsInv(b, Proceed(newId));
    n := FinishEnds(c, nextId);
    Prepend(b, Proceed(newId), Proceeds(nextId, n));
    Prepend(a, Proceed(newId), [Proceed(newId)] + Proceeds(nextId, n));
    Prepend(z, Launch, [Proceed(newId)] + ([Proceed(newId)] + Proceeds(nextId, n)));
  }

  lemma Prepend(s: State, e: Event, es: seq<Event>)
    requires Enabled(s, e) && Run(Step(s, e), es)
    ensures Run(s, [e] + es) && After(s, [e] + es) == After(Step(s, e), es)
  {
    assert ([e] + es)[1..] == es;
  }

  /** Nobody asks for a sign-out, and the relay does not refuse the device. */
  ghost predicate Quiet(es: seq<Event>) {
    forall e :: e in es ==> !e.Request? && !e.Rotate?
  }

  /** Signed in with this session: the vault at its path names it, and the device is the one of the
      identity file, on disk and in the process. */
  ghost predicate SignedIn(s: State, b: Session) {
    && OpenVault(s.disk, b).session == Some(b) && s.disk.identity == Some(b.device) && s.disk.intent.None?
    && (s.stage in {Off, Copying, Loading}
        || (s.device == b.device && (s.stage == PastFinish || s.stage.ReadingIntent? || s.stage.Running?)))
  }

  lemma StepKeepsSignedIn(s: State, e: Event, b: Session)
    requires SignedIn(s, b) && Enabled(s, e) && !e.Request? && !e.Rotate?
    ensures SignedIn(Step(s, e), b)
  {
  }

  /** A session that was saved stays together with its device over every run of launches, crashes,
      sign-ins and quits without a request to sign out and without a rotation. */
  lemma {:induction false} SignedInStays(s: State, es: seq<Event>, b: Session)
    requires SignedIn(s, b) && Run(s, es) && Quiet(es)
    ensures SignedIn(After(s, es), b)
    decreases |es|
  {
    if es != [] {
      assert es[0] in es;
      StepKeepsSignedIn(s, es[0], b);
      SignedInStays(Step(s, es[0]), es[1..], b);
    }
  }

  /** Signing in saves the session with the identity it was made for, and a first vault continues
      the conversations of the released terminal when they were bound to the same session. */
  lemma SignInSaves(s: State, es: seq<Event>, account: nat)
    requires Start(s) && Run(s, es) && After(s, es).stage == PastFinish
    ensures
      var z := After(s, es);
      var b := Session(z.device, account);
      var t := Step(z, SignIn(account));
      && SignedIn(t, b) && t.stage == Running(b)
      && (b !in z.disk.vaults ==>
            OpenVault(t.disk, b).conversations
            == if z.disk.legacy.session == Some(b) then z.disk.legacy.conversations else [])
  {
    RunKeepsInv(s, es);
  }

  lemma {:induction false} RunAppend(s: State, es: seq<Event>, e: Event)
    requires Run(s, es) && Enabled(After(s, es), e)
    ensures Run(s, es + [e]) && After(s, es + [e]) == Step(After(s, es), e)
    decreases |es|
  {
    if es == [] {
      assert [] + [e] == [e];
    } else {
      assert (es + [e])[1..] == es[1..] + [e];
      RunAppend(Step(s, es[0]), es[1..], e);
    }
  }

  // ---------------------------------------------------------------- the program

  datatype Result = NothingToDo | Finished | Killed | UnknownVersion | BindingMismatch

  class Installation {
    var disk: Disk
    var device: nat
    ghost var stage: Stage
    ghost var past: Past

    ghost function View(): State
      reads this
    {
      State(disk, stage, device, past)
    }

    constructor (disk: Disk, ghost past: Past)
      ensures View() == State(disk, Off, device, past)
    {
      this.disk, this.stage, this.past := disk, Off, past;
    }

    /** One durable write of the machine; `trace` is the run so far. */
    ghost method Record(start: State, trace: seq<Event>, newId: nat) returns (trace': seq<Event>)
      requires Run(start, trace)
      requires Enabled(After(start, trace), Proceed(newId))
      requires disk == Proceeded(After(start, trace), newId).disk
      requires device == Proceeded(After(start, trace), newId).device
      modifies this`stage, this`past
      ensures trace' == trace + [Proceed(newId)]
      ensures Run(start, trace') && View() == After(start, trace') == Proceeded(After(start, trace), newId)
    {
      RunAppend(start, trace, Proceed(newId));
      trace' := trace + [Proceed(newId)];
      stage, past := After(start, trace').stage, After(start, trace').past;
    }

    /** Copies the released identity into the relay's scope only if the legacy session, an
        independent record, names the same device. */
    method CopyReleasedIdentityIfBound() returns (copied: bool)
      modifies this`disk
      ensures disk == CopyReleased(old(disk))
      ensures copied <==> old(disk).identity.None? && old(disk).legacy.session.Some?
                          && old(disk).released == Some(old(disk).legacy.session.value.device)
      ensures copied ==> disk.identity == Some(old(disk).legacy.session.value.device)
      ensures !copied ==> disk == old(disk)
    {
      if disk.identity.Some? { return false; }
      if disk.legacy.session.None? { return false; }
      var expected := disk.legacy.session.value.device;
      if disk.released.None? || disk.released.value != expected { return false; }
      disk := disk.(identity := disk.released);
      copied := true;
    }

    method LoadOrCreateIdentity(newId: nat)
      modifies this`disk, this`device
      ensures disk == LoadOrCreate(old(View()), newId, stage).disk
      ensures device == LoadOrCreate(old(View()), newId, stage).device
      ensures disk == old(disk).(identity := Some(device))
      ensures device == old(disk).identity.GetOr(newId)
    {
      if disk.identity.Some? {
        device := disk.identity.value;
      } else {
        disk, device := disk.(identity := Some(newId)), newId;
      }
    }

    /** The writes of a sign-out after both vaults are cleared: another identity if the device is
        still the one signed out, then the intent. */
    method Replace(target: Session, newId: nat, kill: nat, ghost start: State, ghost trace: seq<Event>)
      returns (r: Result, ghost trace': seq<Event>)
      requires newId !in past.used && Run(start, trace) && View() == After(start, trace)
      requires stage.Retiring? || stage.Removing?
      requires stage == if device == target.device then Retiring(target, stage.exit) else Removing(target, stage.exit)
      modifies this
      ensures Run(start, trace') && View() == After(start, trace')
      ensures r in {Finished, Killed} && (kill >= 5 ==> r == Finished)
      ensures r == Finished ==> stage == Done(old(stage).exit) && disk.intent.None?
    {
      trace' := trace;
      if device == target.device {
        if kill == 2 { return Killed, trace'; }
        disk := disk.(identity := None);
        trace' := Record(start, trace', newId);
        if kill == 3 { return Killed, trace'; }
        LoadOrCreateIdentity(newId);
        trace' := Record(start, trace', newId);
      }
      if kill == 4 { return Killed, trace'; }
      disk := disk.(intent := None);
      trace' := Record(start, trace', newId);
      r := Finished;
    }

    /** Finishes a pending sign-out. The process may be killed before its `kill`-th write;
        whatever it did until then is a run of the step machine. */
    method Finish(newId: nat, kill: nat) returns (r: Result, ghost trace: seq<Event>)
      requires stage.ReadingIntent? && newId !in past.used
      modifies this
      ensures Run(old(View()), trace) && View() == After(old(View()), trace)
      ensures r in {NothingToDo, Finished} ==> stage == Done(old(stage).exit) && disk.intent.None?
      ensures r in {UnknownVersion, BindingMismatch} ==> trace == []
      ensures r == UnknownVersion <==> old(disk).intent.Some? && old(disk).intent.value.version != 1
      ensures r == BindingMismatch ==>
                old(disk).intent.Some? && !BindingMatches(old(disk), old(disk).intent.value.session)
      ensures Bound(old(disk)) ==> r != BindingMismatch
      ensures kill >= 5 ==> r != Killed
    {
      ghost var start := View();
      trace := [];
      if disk.intent.None? {
        trace := Record(start, trace, newId);
        return NothingToDo, trace;
      }
      if disk.intent.value.version != 1 { return UnknownVersion, trace; }
      var target := disk.intent.value.session;
      if !BindingMatches(disk, target) { return BindingMismatch, trace; }
      trace := Record(start, trace, newId);
      if kill == 0 { return Killed, trace; }
      disk := ClearScoped(disk, target);
      trace := Record(start, trace, newId);
      if kill == 1 { return Killed, trace; }
      disk := disk.(legacy := ClearFor(disk.legacy, target.device));
      trace := Record(start, trace, newId);
      r, trace := Replace(target, newId, kill, start, trace);
    }
  }
}
