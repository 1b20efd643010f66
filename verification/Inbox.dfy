/** Inbound delivery: decrypt into a durable journal, store in the vault, acknowledge to the
    relay, complete the journal entry; with failures and crashes in between
    (crates/mutte-client/src/engine.rs, process_mailbox_message and restore_pending). */
module Inbox {
  import opened Common

  datatype Key = Key(conversation: nat, id: nat)

  datatype Message = Message(key: Key, body: nat)

  /** What becomes of a delivery: its payload is accepted, or refused after decryption, or
      decryption itself rejects it although the ratchet may have moved on. */
  datatype Fate = Sound | Refused | Rejected

  /** One relay delivery; its position in the relay's log is its delivery id. */
  datatype Letter = Letter(message: Message, fate: Fate)

  datatype Stage = Decrypt | Present | Acknowledge | Complete

  datatype Ack = Delivered | LostRequest | LostReply

  datatype Answer = Answer(save: Save, ack: Ack)

  /** `base` is the vault before the first delivery. The last three fields are history:
      how many deliveries the relay and the vault have taken, and what was announced. */
  datatype State = State(
    mail: seq<Letter>,
    acked: set<nat>,
    journal: seq<nat>,          // decrypted deliveries kept in the identity document, in memory
    journalDisk: seq<nat>,
    spent: set<nat>,            // deliveries whose ratchet key is used up, in the same document
    spentDisk: set<nat>,
    vault: seq<Message>,        // in memory
    vaultDisk: seq<Message>,
    batch: seq<nat>,            // deliveries still to process; empty when idle
    stage: Stage,               // of the first one
    restoring: bool,            // replaying the journal at startup
    base: seq<Message>,
    taken: nat,
    stored: nat,
    announced: seq<Key>)

  datatype Event =
    | Arrive(letter: Letter)
    | Fetch(count: nat)
    | Work(answer: Answer)
    | Fail                      // the network or a receipt fails; the batch is given up
    | OtherVaultSave(save: Save)
    | OtherJournalSave(save: Save)
    | CrashAndRestart
    | Replay                    // on every connection, before the mailbox is fetched

  function HasKey(vault: seq<Message>, k: Key): bool {
    exists i :: 0 <= i < |vault| && vault[i].key == k
  }

  /** `store_inbound` is idempotent by message key. */
  function Store(vault: seq<Message>, m: Message): seq<Message> {
    if HasKey(vault, m.key) then vault else vault + [m]
  }

  /** The vault a crash-free client reaches after these deliveries. */
  function StoreAll(base: seq<Message>, mail: seq<Letter>): seq<Message> {
    if mail == [] then base else Store(StoreAll(base, mail[..|mail| - 1]), mail[|mail| - 1].message)
  }

  function Unacked(n: nat, acked: set<nat>, from: nat): seq<nat>
    decreases n - from
  {
    if from >= n then []
    else if from in acked then Unacked(n, acked, from + 1)
    else [from] + Unacked(n, acked, from + 1)
  }

  function Drop(journal: seq<nat>, id: nat): (r: seq<nat>)
    ensures forall i :: i in r <==> i in journal && i != id
  {
    if journal == [] then []
    else if journal[0] == id then Drop(journal[1..], id)
    else [journal[0]] + Drop(journal[1..], id)
  }

  function Idle(s: State): State { s.(batch := [], stage := Decrypt, restoring := false) }

  /** Every save of the identity writes journal and ratchet together. */
  function SaveIdentity(s: State, save: Save): State {
    s.(journalDisk := save.OnDisk(s.journalDisk, s.journal), spentDisk := save.OnDisk(s.spentDisk, s.spent))
  }

  /** The journal answers for a delivery decrypted before; any other must still have its key. */
  function DoDecrypt(s: State, save: Save): State
    requires s.batch != [] && s.batch[0] < |s.mail|
  {
    var id := s.batch[0];
    if id in s.journal then Opened(SaveIdentity(s, save), save)
    else if id in s.spent || s.mail[id].fate.Rejected? then Idle(s.(spent := s.spent + {id}))
    else Opened(SaveIdentity(s.(journal := s.journal + [id], spent := s.spent + {id}), save), save)
  }

  function Opened(s: State, save: Save): State { if save.Saved? then s.(stage := Present) else Idle(s) }

  function Took(s: State): State
    requires s.batch != []
  {
    s.(stage := Acknowledge, stored := if s.batch[0] == s.stored then s.stored + 1 else s.stored)
  }

  function DoPresent(s: State, save: Save): State
    requires s.batch != [] && s.batch[0] < |s.mail|
  {
    var letter := s.mail[s.batch[0]];
    if !letter.fate.Sound? then Idle(s)
    else if HasKey(s.vault, letter.message.key) then Took(s)
    else
      var v := s.vault + [letter.message];
      if save.Saved? then
        Took(s.(vault := v, vaultDisk := v, announced := s.announced + [letter.message.key]))
      else Idle(s.(vaultDisk := save.OnDisk(s.vaultDisk, v)))
  }

  function DoAck(s: State, ack: Ack): State
    requires s.batch != []
  {
    var t := if ack.LostRequest? then s
             else s.(acked := s.acked + {s.batch[0]}, taken := if s.batch[0] == s.taken then s.taken + 1 else s.taken);
    if ack.Delivered? then t.(stage := Complete) else Idle(t)
  }

  /** Completion removes the entry from memory even when the save fails. */
  function DoComplete(s: State, save: Save): State
    requires s.batch != []
  {
    var t := SaveIdentity(s.(journal := Drop(s.journal, s.batch[0])), save);
    if save.Saved? then t.(batch := s.batch[1..], stage := if s.restoring then Present else Decrypt) else Idle(t)
  }

  function Reload(s: State): State {
    Idle(s.(journal := s.journalDisk, spent := s.spentDisk, vault := s.vaultDisk,
            stored := if s.vaultDisk == s.vault then s.stored else s.stored + 1))
  }

  predicate Enabled(s: State, e: Event) {
    match e
    case Fetch(count) => s.batch == [] && count <= |Unacked(|s.mail|, s.acked, 0)|
    case Work(_) => s.batch != [] && s.batch[0] < |s.mail|
    case Replay => s.batch == []
    case _ => true
  }

  function Step(s: State, e: Event): State
    requires Enabled(s, e)
  {
    match e
    case Arrive(letter) => s.(mail := s.mail + [letter])
    case Fetch(count) =>
      s.(batch := Unacked(|s.mail|, s.acked, 0)[..count], stage := Decrypt, restoring := false)
    case Work(answer) =>
      (match s.stage
       case Decrypt => DoDecrypt(s, answer.save)
       case Present => DoPresent(s, answer.save)
       case Acknowledge => DoAck(s, answer.ack)
       case Complete => DoComplete(s, answer.save))
    case Fail => Idle(s)
    case OtherVaultSave(save) => s.(vaultDisk := save.OnDisk(s.vaultDisk, s.vault))
    case OtherJournalSave(save) => SaveIdentity(s, save)
    case CrashAndRestart => Reload(s)
    case Replay => s.(batch := s.journal, stage := Present, restoring := true)
  }

  ghost predicate Run(s: State, es: seq<Event>)
    decreases |es|
  {
    es != [] ==> Enabled(s, es[0]) && Run(Step(s, es[0]), es[1..])
  }

  ghost function After(s: State, es: seq<Event>): State
    requires Run(s, es)
    decreases |es|
  {
    if es == [] then s else After(Step(s, es[0]), es[1..])
  }

  // ---------------------------------------------------------------- the crash-free vault

  ghost function Vault(s: State, k: nat): seq<Message>
    requires k <= |s.mail|
  {
    StoreAll(s.base, s.mail[..k])
  }

  lemma VaultNext(s: State, k: nat)
    requires k < |s.mail|
    ensures Vault(s, k + 1) == Store(Vault(s, k), s.mail[k].message)
  {
    assert s.mail[..k + 1][..k] == s.mail[..k];
  }

  lemma {:induction false} StoredStays(s: State, i: nat, k: nat)
    requires i < k <= |s.mail|
    ensures HasKey(Vault(s, k), s.mail[i].message.key)
  {
    VaultNext(s, k - 1);
    var v := Vault(s, k - 1);
    var m := s.mail[k - 1].message;
    if i < k - 1 {
      StoredStays(s, i, k - 1);
      var j :| 0 <= j < |v| && v[j].key == s.mail[i].message.key;
      assert Store(v, m)[j] == v[j];
    } else if !HasKey(v, m.key) {
      assert Store(v, m)[|v|] == m;
    }
  }

  /** The relay has taken exactly the first `a` deliveries. */
  ghost predicate FirstOnes(acked: set<nat>, a: nat) {
    forall i: nat :: i in acked <==> i < a
  }

  /** `r` counts up from `base` and stays below `n`. */
  ghost predicate CountsUp(r: seq<nat>, base: nat, n: nat) {
    forall j :: 0 <= j < |r| ==> r[j] == base + j < n
  }

  lemma {:induction false} UnackedIsRest(n: nat, a: nat, acked: set<nat>, from: nat)
    requires FirstOnes(acked, a)
    ensures CountsUp(Unacked(n, acked, from), Max(a, from), n)
    decreases n - from
  {
    if from < n {
      UnackedIsRest(n, a, acked, from + 1);
      var rest := Unacked(n, acked, from + 1);
      assert from in acked <==> from < a;
      if from !in acked {
        assert CountsUp([from] + rest, from, n);
      }
    }
  }

  // ---------------------------------------------------------------- the invariant

  ghost predicate GoodVaults(s: State) {
    && s.taken <= s.stored <= s.taken + 1 && s.stored <= |s.mail|
    && FirstOnes(s.acked, s.taken)
    && (forall i :: 0 <= i < s.stored ==> s.mail[i].fate.Sound?)
    && s.vault == Vault(s, s.stored)
    && (s.vaultDisk == s.vault
        || (s.stored == s.taken < |s.mail| && s.mail[s.stored].fate.Sound? && s.vaultDisk == Vault(s, s.stored + 1)))
  }

  ghost predicate GoodAnnounced(s: State) {
    && (forall i :: 0 <= i < |s.announced| ==> HasKey(s.vault, s.announced[i]))
    && (forall i, j :: 0 <= i < j < |s.announced| ==> s.announced[i] != s.announced[j])
  }

  ghost predicate GoodJournals(s: State) {
    && (forall i :: i in s.journal ==> i <= s.taken && i < |s.mail|)
    && (forall i :: i in s.journalDisk ==> i <= s.taken && i < |s.mail|)
  }

  /** A delivery whose key is used up is still readable, unless the relay knows that it is stored
      or decryption rejected it. */
  ghost predicate Readable(s: State, journal: seq<nat>, spent: set<nat>) {
    forall i :: i in spent ==>
      i < |s.mail| && (i in journal || i in s.acked || s.mail[i].fate.Rejected?)
  }

  ghost predicate GoodSpent(s: State) {
    Readable(s, s.journal, s.spent) && Readable(s, s.journalDisk, s.spentDisk)
  }

  ghost predicate GoodBatch(s: State) {
    && (s.restoring ==> s.stage != Decrypt && forall i :: i in s.batch ==> i <= s.taken && i < |s.mail|)
    && (!s.restoring && s.batch != [] ==>
          && s.batch[0] == (if s.stage == Complete then s.taken - 1 else s.taken)
          && forall j :: 0 <= j < |s.batch| ==> s.batch[j] == s.batch[0] + j && s.batch[j] < |s.mail|)
    && (s.batch != [] && s.stage == Acknowledge ==> s.batch[0] < s.stored)
    && (s.batch != [] && s.stage == Complete ==> s.batch[0] < s.taken)
  }

  ghost predicate Inv(s: State) {
    GoodVaults(s) && GoodAnnounced(s) && GoodJournals(s) && GoodSpent(s) && GoodBatch(s)
  }

  ghost predicate Start(s: State) {
    && s.mail == [] && s.acked == {} && s.batch == []
    && s.journal == s.journalDisk == [] && s.spent == s.spentDisk == {}
    && s.vault == s.vaultDisk == s.base && s.taken == s.stored == 0 && s.announced == [] && !s.restoring
  }

  lemma SaveKeepsInv(s: State, save: Save)
    requires Inv(s)
    ensures Inv(SaveIdentity(s, save))
  {
  }

  lemma JournalKeepsInv(s: State, id: nat)
    requires Inv(s) && id <= s.taken && id < |s.mail|
    ensures Inv(s.(journal := s.journal + [id], spent := s.spent + {id}))
  {
    var t := s.(journal := s.journal + [id], spent := s.spent + {id});
    assert forall i :: i in t.journal <==> i in s.journal || i == id;
  }

  lemma OpenedKeepsInv(s: State, save: Save)
    requires Inv(s) && !s.restoring && s.stage == Decrypt
    ensures Inv(Opened(SaveIdentity(s, save), save))
  {
    SaveKeepsInv(s, save);
  }

  lemma ClosedKeepsInv(s: State, id: nat)
    requires Inv(s) && id < |s.mail| && (id in s.spent || s.mail[id].fate.Rejected?)
    ensures Inv(Idle(s.(spent := s.spent + {id})))
  {
  }

  lemma DecryptKeepsInv(s: State, save: Save)
    requires Inv(s) && s.batch != [] && s.batch[0] < |s.mail| && s.stage == Decrypt
    ensures Inv(DoDecrypt(s, save))
  {
    var id := s.batch[0];
    if id in s.journal {
      OpenedKeepsInv(s, save);
    } else if id in s.spent || s.mail[id].fate.Rejected? {
      ClosedKeepsInv(s, id);
    } else {
      JournalKeepsInv(s, id);
      OpenedKeepsInv(s.(journal := s.journal + [id], spent := s.spent + {id}), save);
    }
  }

  /** Presenting an old delivery changes nothing; presenting the next one extends the vault
      by one step of the crash-free run. */
  lemma PresentedVault(s: State)
    requires Inv(s) && s.batch != [] && s.batch[0] < |s.mail| && s.stage == Present && s.mail[s.batch[0]].fate.Sound?
    ensures s.batch[0] < s.stored || s.batch[0] == s.stored == s.taken
    ensures s.batch[0] < s.stored ==> HasKey(s.vault, s.mail[s.batch[0]].message.key)
    ensures s.batch[0] == s.stored ==> Vault(s, s.stored + 1) == Store(s.vault, s.mail[s.batch[0]].message)
  {
    assert s.batch[0] in s.batch;
    if s.batch[0] < s.stored { StoredStays(s, s.batch[0], s.stored); } else { VaultNext(s, s.stored); }
  }

  lemma MoreKeys(v: seq<Message>, m: Message)
    ensures HasKey(v + [m], m.key)
    ensures forall k :: HasKey(v, k) ==> HasKey(v + [m], k)
  {
    assert (v + [m])[|v|] == m;
    forall k | HasKey(v, k) ensures HasKey(v + [m], k) {
      var j :| 0 <= j < |v| && v[j].key == k;
      assert (v + [m])[j].key == k;
    }
  }

  lemma PresentKeepsVaults(s: State, save: Save)
    requires Inv(s) && s.batch != [] && s.batch[0] < |s.mail| && s.stage == Present
    ensures GoodVaults(DoPresent(s, save))
  {
    if s.mail[s.batch[0]].fate.Sound? { PresentedVault(s); }
  }

  lemma PresentKeepsAnnounced(s: State, save: Save)
    requires GoodAnnounced(s) && s.batch != [] && s.batch[0] < |s.mail|
    ensures GoodAnnounced(DoPresent(s, save))
  {
    MoreKeys(s.vault, s.mail[s.batch[0]].message);
  }

  lemma PresentKeepsInv(s: State, save: Save)
    requires Inv(s) && s.batch != [] && s.batch[0] < |s.mail| && s.stage == Present
    ensures Inv(DoPresent(s, save))
  {
    if s.mail[s.batch[0]].fate.Sound? { PresentedVault(s); }
    PresentKeepsVaults(s, save);
    PresentKeepsAnnounced(s, save);
  }

  lemma AckKeepsJournals(s: State, ack: Ack)
    requires GoodJournals(s) && GoodSpent(s) && s.batch != []
    ensures GoodJournals(DoAck(s, ack)) && GoodSpent(DoAck(s, ack))
  {
  }

  lemma AckKeepsVaults(s: State, ack: Ack)
    requires GoodVaults(s) && GoodBatch(s) && s.batch != [] && s.stage == Acknowledge
    ensures GoodVaults(DoAck(s, ack)) && GoodBatch(DoAck(s, ack))
  {
  }

  lemma AckKeepsInv(s: State, ack: Ack)
    requires Inv(s) && s.batch != [] && s.stage == Acknowledge
    ensures Inv(DoAck(s, ack))
  {
    AckKeepsJournals(s, ack);
    AckKeepsVaults(s, ack);
  }

  lemma CompleteKeepsInv(s: State, save: Save)
    requires Inv(s) && s.batch != [] && s.stage == Complete
    ensures Inv(DoComplete(s, save))
  {
    var t := DoComplete(s, save);
    assert forall i :: i in s.batch[1..] ==> i in s.batch;
    assert forall j :: 0 <= j < |s.batch[1..]| ==> s.batch[1..][j] == s.batch[j + 1];
  }

  lemma FetchKeepsInv(s: State, count: nat)
    requires Inv(s) && Enabled(s, Fetch(count))
    ensures Inv(Step(s, Fetch(count)))
  {
    UnackedIsRest(|s.mail|, s.taken, s.acked, 0);
  }

  lemma ReloadKeepsInv(s: State)
    requires Inv(s)
    ensures Inv(Reload(s))
  {
    var t := Reload(s);
    if s.vaultDisk != s.vault {
      VaultNext(s, s.stored);
      forall k | HasKey(s.vault, k) ensures HasKey(t.vault, k) {
        var j :| 0 <= j < |s.vault| && s.vault[j].key == k;
        assert t.vault[j].key == k;
      }
    }
  }

  lemma ArriveKeepsInv(s: State, letter: Letter)
    requires Inv(s)
    ensures Inv(s.(mail := s.mail + [letter]))
  {
    var t := s.(mail := s.mail + [letter]);
    assert forall k :: 0 <= k <= |s.mail| ==> t.mail[..k] == s.mail[..k];
  }

  lemma StepKeepsInv(s: State, e: Event)
    requires Inv(s) && Enabled(s, e)
    ensures Inv(Step(s, e))
  {
    match e
    case Arrive(letter) => ArriveKeepsInv(s, letter);
    case Fetch(count) => FetchKeepsInv(s, count);
    case Work(answer) =>
      match s.stage {
        case Decrypt => DecryptKeepsInv(s, answer.save);
        case Present => PresentKeepsInv(s, answer.save);
        case Acknowledge => AckKeepsInv(s, answer.ack);
        case Complete => CompleteKeepsInv(s, answer.save);
      }
    case CrashAndRestart => ReloadKeepsInv(s);
    case OtherJournalSave(save) => SaveKeepsInv(s, save);
    case _ =>
  }

  lemma StepKeepsBase(s: State, e: Event)
    requires Enabled(s, e)
    ensures Step(s, e).base == s.base
  {
  }

  lemma {:induction false} RunKeepsBase(s: State, es: seq<Event>)
    requires Run(s, es)
    ensures After(s, es).base == s.base
    decreases |es|
  {
    if es != [] {
      StepKeepsBase(s, es[0]);
      RunKeepsBase(Step(s, es[0]), es[1..]);
    }
  }

  lemma {:induction false} RunKeepsInv(s: State, es: seq<Event>)
    requires Inv(s) && Run(s, es)
    ensures Inv(After(s, es)) && After(s, es).base == s.base
    decreases |es|
  {
    RunKeepsBase(s, es);
    if es != [] {
      StepKeepsInv(s, es[0]);
      var t := Step(s, es[0]);
      RunKeepsInv(t, es[1..]);
    }
  }

  /** The relay is told only about deliveries whose message is on disk in the vault, and
      it is told in order. */
  lemma AcknowledgedIsDurable(s: State, es: seq<Event>, i: nat)
    requires Start(s) && Run(s, es) && i in After(s, es).acked
    ensures
      var z := After(s, es);
      && i < |z.mail| && HasKey(z.vaultDisk, z.mail[i].message.key)
      && forall j: nat :: j < i ==> j in z.acked
  {
    RunKeepsInv(s, es);
    var z := After(s, es);
    StoredStays(z, i, z.stored);
    if z.vaultDisk != z.vault { StoredStays(z, i, z.stored + 1); }
  }

  lemma {:induction false} VaultMembers(base: seq<Message>, mail: seq<Letter>, m: Message)
    requires m in StoreAll(base, mail)
    ensures m in base || exists i :: 0 <= i < |mail| && mail[i].message == m
  {
    if mail != [] {
      var n := |mail| - 1;
      if m in StoreAll(base, mail[..n]) {
        VaultMembers(base, mail[..n], m);
        if m !in base {
          var i :| 0 <= i < n && mail[..n][i].message == m;
          assert mail[i].message == m;
        }
      } else {
        assert mail[n].message == m;
      }
    }
  }

  /** The first delivery of a key. */
  ghost predicate FirstOfKey(base: seq<Message>, mail: seq<Letter>, i: nat) {
    && i < |mail| && (forall m :: m in base ==> m.key != mail[i].message.key)
    && forall j :: 0 <= j < i ==> mail[j].message.key != mail[i].message.key
  }

  lemma {:induction false} FirstOfKeyIsKept(base: seq<Message>, mail: seq<Letter>, i: nat)
    requires FirstOfKey(base, mail, i)
    ensures mail[i].message in StoreAll(base, mail)
  {
    var n := |mail| - 1;
    var v := StoreAll(base, mail[..n]);
    if i < n {
      FirstOfKeyIsKept(base, mail[..n], i);
    } else {
      if HasKey(v, mail[i].message.key) {
        var k :| 0 <= k < |v| && v[k].key == mail[i].message.key;
        VaultMembers(base, mail[..n], v[k]);
      }
      assert Store(v, mail[n].message) == v + [mail[n].message];
    }
  }

  /** The document holds the crash-free vault of some prefix of accepted deliveries. */
  lemma DiskVault(z: State, i: nat) returns (k: nat)
    requires Inv(z) && i in z.acked
    ensures i < k <= |z.mail| && z.vaultDisk == StoreAll(z.base, z.mail[..k])
    ensures forall j :: 0 <= j < k ==> z.mail[j].fate.Sound?
  {
    k := if z.vaultDisk == z.vault then z.stored else z.stored + 1;
  }

  /** What the relay was told is stored is on disk with its own text, if it was the first of its
      key; and every message on disk was there before or came in a delivery. */
  lemma AcknowledgedTextIsOnDisk(s: State, es: seq<Event>, i: nat)
    requires Start(s) && Run(s, es) && i in After(s, es).acked
    ensures
      var z := After(s, es);
      && (FirstOfKey(s.base, z.mail, i) ==> z.mail[i].message in z.vaultDisk)
      && (forall m :: m in z.vaultDisk ==>
            m in s.base || exists j :: 0 <= j < |z.mail| && z.mail[j].message == m && z.mail[j].fate.Sound?)
  {
    RunKeepsInv(s, es);
    var z := After(s, es);
    var k := DiskVault(z, i);
    if FirstOfKey(s.base, z.mail, i) { FirstOfKeyIsKept(s.base, z.mail[..k], i); }
    forall m | m in z.vaultDisk && m !in s.base
      ensures exists j :: 0 <= j < |z.mail| && z.mail[j].message == m && z.mail[j].fate.Sound?
    {
      VaultMembers(s.base, z.mail[..k], m);
      var j :| 0 <= j < k && z.mail[..k][j].message == m;
      assert z.mail[j].message == m && z.mail[j].fate.Sound?;
    }
  }

  /** No message id is announced twice, across retries, crashes and replays. */
  lemma AnnouncedAtMostOnce(s: State, es: seq<Event>)
    requires Start(s) && Run(s, es)
    ensures
      var z := After(s, es);
      && (forall i, j :: 0 <= i < j < |z.announced| ==> z.announced[i] != z.announced[j])
      && (forall i :: 0 <= i < |z.announced| ==> HasKey(z.vaultDisk, z.announced[i]))
  {
    RunKeepsInv(s, es);
    ReloadKeepsInv(After(s, es));
  }

  function KeysOf(messages: seq<Message>): (keys: seq<Key>)
    ensures |keys| == |messages| && forall i :: 0 <= i < |keys| ==> keys[i] == messages[i].key
  {
    seq(|messages|, i requires 0 <= i < |messages| => messages[i].key)
  }

  /** The vault only grew, and what came is announced, in the order it came. */
  ghost predicate AnnouncesArrivals(s: State, z: State) {
    s.vault <= z.vault && z.announced == s.announced + KeysOf(z.vault[|s.vault|..])
  }

  lemma AnnouncesTwice(s: State, t: State, z: State)
    requires AnnouncesArrivals(s, t) && AnnouncesArrivals(t, z)
    ensures AnnouncesArrivals(s, z)
  {
    assert z.vault[|s.vault|..] == t.vault[|s.vault|..] + z.vault[|t.vault|..];
  }

  lemma StepAnnounces(s: State, e: Event)
    requires Enabled(s, e) && !e.CrashAndRestart?
    ensures AnnouncesArrivals(s, Step(s, e))
  {
    var z := Step(s, e);
    if z.vault == s.vault { assert z.vault[|s.vault|..] == []; }
  }

  /** Between two crashes, every message that enters the vault of the running client is announced,
      in order, and nothing else is. */
  lemma {:induction false} ArrivalsAreAnnounced(s: State, es: seq<Event>)
    requires Run(s, es) && CrashAndRestart !in es
    ensures AnnouncesArrivals(s, After(s, es))
    decreases |es|
  {
    if es == [] {
      assert s.vault[|s.vault|..] == [];
    } else {
      assert es[0] in es;
      var t := Step(s, es[0]);
      StepAnnounces(s, es[0]);
      ArrivalsAreAnnounced(t, es[1..]);
      AnnouncesTwice(s, t, After(s, es));
    }
  }

  ghost predicate KeysDistinct(vault: seq<Message>) {
    forall i, j :: 0 <= i < j < |vault| ==> vault[i].key != vault[j].key
  }

  lemma {:induction false} StoreAllDistinct(base: seq<Message>, mail: seq<Letter>)
    requires KeysDistinct(base)
    ensures KeysDistinct(StoreAll(base, mail))
  {
    if mail != [] { StoreAllDistinct(base, mail[..|mail| - 1]); }
  }

  /** Whatever failed or crashed on the way, the vault is that of a crash-free client after
      some prefix of the deliveries, each id is in it at most once, and once the relay has
      seen every acknowledgement it is exactly the crash-free vault, in memory and on disk. */
  lemma VaultIsAPrefix(s: State, es: seq<Event>)
    requires Start(s) && Run(s, es) && KeysDistinct(s.base)
    ensures
      var z := After(s, es);
      && z.stored <= |z.mail| && z.vault == StoreAll(s.base, z.mail[..z.stored])
      && KeysDistinct(z.vault) && KeysDistinct(z.vaultDisk)
      && ((forall i: nat :: i < |z.mail| ==> i in z.acked) ==> z.vault == z.vaultDisk == StoreAll(s.base, z.mail))
  {
    RunKeepsInv(s, es);
    var z := After(s, es);
    StoreAllDistinct(s.base, z.mail[..z.stored]);
    if z.vaultDisk != z.vault { StoreAllDistinct(s.base, z.mail[..z.stored + 1]); }
    assert z.mail[..|z.mail|] == z.mail;
    if forall i: nat :: i < |z.mail| ==> i in z.acked {
      assert z.taken < |z.mail| ==> z.taken in z.acked;
    }
  }

  /** A ratchet key works once. Over every run a delivery whose key is used up, and which the
      relay still holds for this device, is in the journal with its text: in memory, and on disk
      beside the ratchet that forgot the key. */
  lemma SpentIsJournaled(s: State, es: seq<Event>, i: nat)
    requires Start(s) && Run(s, es) && i !in After(s, es).acked
    ensures
      var z := After(s, es);
      && (i in z.spent ==> i < |z.mail| && (i in z.journal || z.mail[i].fate.Rejected?))
      && (i in z.spentDisk ==> i < |z.mail| && (i in z.journalDisk || z.mail[i].fate.Rejected?))
  {
    RunKeepsInv(s, es);
  }

  /** The relay is never told about a delivery that is refused or rejected, nor about any later
      one. */
  lemma NothingPassesABadDelivery(s: State, es: seq<Event>, bad: nat, i: nat)
    requires Start(s) && Run(s, es) && bad <= i && bad < |After(s, es).mail|
    requires !After(s, es).mail[bad].fate.Sound?
    ensures i !in After(s, es).acked
  {
    RunKeepsInv(s, es);
  }

  // ---------------------------------------------------------------- the program

  /** How the outside world answers while one delivery is processed. */
  datatype Answers = Answers(decrypt: Save, present: Save, ack: Ack, complete: Save)

  /** One delivery processed without a crash; any failure gives the batch up. */
  function ProcessOne(s: State, a: Answers): State
    requires s.batch != [] && s.batch[0] < |s.mail|
  {
    var t1 := DoDecrypt(s, a.decrypt);
    if t1.batch == [] then t1 else PresentOne(t1, a)
  }

  /** The same from the vault insertion on. */
  function PresentOne(s: State, a: Answers): State
    requires s.batch != [] && s.batch[0] < |s.mail|
  {
    var t := DoPresent(s, a.present);
    if t.batch == [] then t else AckOne(t, a)
  }

  function AckOne(s: State, a: Answers): State
    requires s.batch != []
  {
    var t := DoAck(s, a.ack);
    if !a.ack.Delivered? then t else DoComplete(t, a.complete)
  }

  lemma AckOneIsARun(s: State, a: Answers) returns (es: seq<Event>)
    requires s.batch != [] && s.batch[0] < |s.mail| && s.stage == Acknowledge
    ensures Run(s, es) && After(s, es) == AckOne(s, a)
  {
    var k, c := Work(Answer(Saved, a.ack)), Work(Answer(a.complete, a.ack));
    es := [];
    if a.ack.Delivered? {
      Prepend(DoAck(s, a.ack), c, []);
      es := [c] + [];
    }
    Prepend(s, k, es);
    es := [k] + es;
  }

  lemma PresentOneIsARun(s: State, a: Answers) returns (es: seq<Event>)
    requires s.batch != [] && s.batch[0] < |s.mail| && s.stage == Present
    ensures Run(s, es) && After(s, es) == PresentOne(s, a)
  {
    var p := Work(Answer(a.present, a.ack));
    var t := DoPresent(s, a.present);
    es := [];
    if t.batch != [] { es := AckOneIsARun(t, a); }
    Prepend(s, p, es);
    es := [p] + es;
  }

  /** Processing one delivery is a run of the state machine. */
  lemma ProcessOneIsARun(s: State, a: Answers) returns (es: seq<Event>)
    requires s.batch != [] && s.batch[0] < |s.mail| && s.stage == Decrypt
    ensures Run(s, es) && After(s, es) == ProcessOne(s, a)
  {
    var d := Work(Answer(a.decrypt, a.ack));
    var t := DoDecrypt(s, a.decrypt);
    es := [];
    if t.batch != [] { es := PresentOneIsARun(t, a); }
    Prepend(s, d, es);
    es := [d] + es;
  }

  lemma Prepend(s: State, e: Event, es: seq<Event>)
    requires Enabled(s, e) && Run(Step(s, e), es)
    ensures Run(s, [e] + es) && After(s, [e] + es) == After(Step(s, e), es)
  {
    assert ([e] + es)[1..] == es;
  }

  class Client {
    var mail: seq<Letter>
    var acked: set<nat>
    var journal: seq<nat>
    var journalDisk: seq<nat>
    var spent: set<nat>
    var spentDisk: set<nat>
    var vault: seq<Message>
    var vaultDisk: seq<Message>
    var batch: seq<nat>
    var announced: seq<Key>
    ghost var history: State

    /** The history supplies only what the program does not hold. */
    ghost function View(): State
      reads this
    {
      history.(mail := mail, acked := acked, journal := journal, journalDisk := journalDisk, spent := spent,
               spentDisk := spentDisk, vault := vault, vaultDisk := vaultDisk, batch := batch, announced := announced)
    }

    constructor (s: State)
      ensures View() == s
    {
      mail, acked, journal, journalDisk := s.mail, s.acked, s.journal, s.journalDisk;
      spent, spentDisk := s.spent, s.spentDisk;
      vault, vaultDisk, batch, announced := s.vault, s.vaultDisk, s.batch, s.announced;
      history := s;
    }

    method Persist(save: Save) returns (ok: bool)
      modifies this`journalDisk, this`spentDisk
      ensures journalDisk == save.OnDisk(old(journalDisk), journal)
      ensures spentDisk == save.OnDisk(old(spentDisk), spent) && ok == save.Saved?
    {
      if save != LostOld { journalDisk, spentDisk := journal, spent; }
      ok := save == Saved;
    }

    method StoreInbound(m: Message, save: Save) returns (ok: bool, inserted: bool)
      modifies this`vault, this`vaultDisk
      ensures inserted == (ok && !HasKey(old(vault), m.key))
      ensures ok == (HasKey(old(vault), m.key) || save.Saved?)
      ensures vault == if inserted then old(vault) + [m] else old(vault)
      ensures vaultDisk == if HasKey(old(vault), m.key) then old(vaultDisk)
                           else save.OnDisk(old(vaultDisk), old(vault) + [m])
    {
      if HasKey(vault, m.key) { return true, false; }
      if save != LostOld { vaultDisk := vault + [m]; }
      if save != Saved { return false, false; }
      vault := vault + [m];
      return true, true;
    }

    method ProcessMailboxMessage(a: Answers) returns (ok: bool)
      requires batch != [] && batch[0] < |mail|
      modifies this
      ensures View() == ProcessOne(old(View()), a)
    {
      var id := batch[0];
      ghost var before := View();
      if id !in journal {
        var works := id !in spent && !mail[id].fate.Rejected?;
        spent := spent + {id};
        if !works {
          batch, history := [], ProcessOne(before, a);
          return false;
        }
        journal := journal + [id];
      }
      ok := Persist(a.decrypt);
      if !ok {
        batch, history := [], ProcessOne(before, a);
        return;
      }
      history := DoDecrypt(before, a.decrypt);
      ok := PresentAndAcknowledge(a);
    }

    method PresentAndAcknowledge(a: Answers) returns (ok: bool)
      requires batch != [] && batch[0] < |mail|
      modifies this
      ensures View() == PresentOne(old(View()), a)
    {
      var id := batch[0];
      ghost var before := View();
      if !mail[id].fate.Sound? {
        batch, history := [], PresentOne(before, a);
        return false;
      }
      var inserted;
      ok, inserted := StoreInbound(mail[id].message, a.present);
      if !ok {
        batch, history := [], PresentOne(before, a);
        return;
      }
      if inserted { announced := announced + [mail[id].message.key]; }
      history := DoPresent(before, a.present);
      ok := AcknowledgeAndComplete(a);
    }

    method AcknowledgeAndComplete(a: Answers) returns (ok: bool)
      requires batch != []
      modifies this
      ensures View() == AckOne(old(View()), a)
    {
      var id := batch[0];
      ghost var before := View();
      if a.ack != LostRequest { acked := acked + {id}; }
      if a.ack != Delivered {
        batch, history := [], AckOne(before, a);
        return false;
      }
      journal := Drop(journal, id);
      ok := Persist(a.complete);
      batch := if ok then batch[1..] else [];
      history := AckOne(before, a);
    }
  }
}
