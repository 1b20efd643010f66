/** Replays and fetches that meet no failure: what they bring back from any reachable state
    (crates/mutte-client/src/engine.rs, restore_pending and sync_mailbox). */
module InboxReplay {
  import opened Common
  import opened Inbox

  const GOOD := Answers(Saved, Saved, Delivered, Saved)

  /** Every delivery of the batch exists, and the batch stands at the start of its first one. */
  predicate Ready(s: State) {
    && (forall j :: 0 <= j < |s.batch| ==> s.batch[j] < |s.mail|)
    && (s.batch != [] ==> s.stage == if s.restoring then Present else Decrypt)
  }

  lemma PresentOneShortens(s: State)
    requires s.batch != [] && forall j :: 0 <= j < |s.batch| ==> s.batch[j] < |s.mail|
    ensures |PresentOne(s, GOOD).batch| < |s.batch| && Ready(PresentOne(s, GOOD))
  {
  }

  lemma ProcessOneShortens(s: State)
    requires s.batch != [] && Ready(s) && !s.restoring
    ensures |ProcessOne(s, GOOD).batch| < |s.batch| && Ready(ProcessOne(s, GOOD))
  {
    var t := DoDecrypt(s, GOOD.decrypt);
    if t.batch != [] { PresentOneShortens(t); }
  }

  function OneGood(s: State): (t: State)
    requires s.batch != [] && Ready(s)
    ensures |t.batch| < |s.batch| && Ready(t)
  {
    if s.restoring then PresentOneShortens(s); PresentOne(s, GOOD)
    else ProcessOneShortens(s); ProcessOne(s, GOOD)
  }

  /** The batch to its end, or to the delivery that stops it. */
  function AllGood(s: State): State
    requires Ready(s)
    decreases |s.batch|
  {
    if s.batch == [] then s else AllGood(OneGood(s))
  }

  lemma {:induction false} Concat(s: State, es: seq<Event>, fs: seq<Event>)
    requires Run(s, es) && Run(After(s, es), fs)
    ensures Run(s, es + fs) && After(s, es + fs) == After(After(s, es), fs)
    decreases |es|
  {
    if es == [] {
      assert es + fs == fs;
    } else {
      Concat(Step(s, es[0]), es[1..], fs);
      assert (es + fs)[1..] == es[1..] + fs;
    }
  }

  lemma {:induction false} AllGoodIsARun(s: State) returns (es: seq<Event>)
    requires Ready(s)
    ensures Run(s, es) && After(s, es) == AllGood(s)
    decreases |s.batch|
  {
    es := [];
    if s.batch != [] {
      var first;
      if s.restoring { first := PresentOneIsARun(s, GOOD); } else { first := ProcessOneIsARun(s, GOOD); }
      var rest := AllGoodIsARun(OneGood(s));
      Concat(s, first, rest);
      es := first + rest;
    }
  }

  lemma OneGoodKeepsInv(s: State)
    requires Inv(s) && s.batch != [] && Ready(s)
    ensures Inv(OneGood(s)) && OneGood(s).base == s.base
  {
    var es;
    if s.restoring { es := PresentOneIsARun(s, GOOD); } else { es := ProcessOneIsARun(s, GOOD); }
    RunKeepsInv(s, es);
  }

  // ---------------------------------------------------------------- replay

  lemma ReplayOne(s: State)
    requires s.batch != [] && Ready(s) && s.restoring && s.mail[s.batch[0]].fate.Sound?
    ensures
      var t := OneGood(s);
      && t.batch == s.batch[1..] && t.restoring && t.mail == s.mail && t.acked == s.acked + {s.batch[0]}
      && t.journal == t.journalDisk == Drop(s.journal, s.batch[0]) && t.spent == s.spent
  {
  }

  lemma EmptyOrMember(journal: seq<nat>)
    ensures journal == [] || exists i :: i in journal
  {
    if journal != [] { assert journal[0] in journal; }
  }

  /** Each delivery of a replayed batch is acknowledged and leaves the journal. */
  lemma {:induction false} ReplayTakesBatch(s: State)
    requires Inv(s) && Ready(s) && s.restoring
    requires forall i :: i in s.batch ==> s.mail[i].fate.Sound?
    requires forall i :: i in s.journal ==> i in s.batch
    ensures
      var t := AllGood(s);
      && Inv(t) && t.batch == [] && t.mail == s.mail && t.base == s.base && t.journal == [] && t.spent == s.spent
      && (s.batch == [] ==> t == s) && (s.batch != [] ==> t.journalDisk == [])
      && s.acked <= t.acked && forall i :: i in s.batch ==> i in t.acked
    decreases |s.batch|
  {
    if s.batch == [] {
      EmptyOrMember(s.journal);
    } else {
      var t := OneGood(s);
      ReplayOne(s);
      OneGoodKeepsInv(s);
      assert forall i :: i in s.batch <==> i == s.batch[0] || i in s.batch[1..];
      ReplayTakesBatch(t);
    }
  }

  /** What a connection does first after a crash. */
  function Reconnected(s: State): State {
    Reload(s).(batch := s.journalDisk, stage := Present, restoring := true)
  }

  lemma AcknowledgedIsStored(t: State, i: nat)
    requires Inv(t) && i in t.acked
    ensures i < t.stored <= |t.mail| && HasKey(t.vaultDisk, t.mail[i].message.key)
  {
    StoredStays(t, i, t.stored);
    if t.vaultDisk != t.vault { StoredStays(t, i, t.stored + 1); }
  }

  /** The replay ends with every journaled delivery stored on disk and acknowledged. */
  lemma ReplayStores(r: State)
    requires Inv(r) && Ready(r) && r.restoring && r.batch == r.journal == r.journalDisk
    requires forall i :: i in r.batch ==> r.mail[i].fate.Sound?
    ensures
      var t := AllGood(r);
      && Inv(t) && t.batch == [] && t.journal == t.journalDisk == [] && t.base == r.base && t.mail == r.mail
      && forall i :: i in r.batch ==> i in t.acked && i < t.stored && HasKey(t.vaultDisk, t.mail[i].message.key)
  {
    ReplayTakesBatch(r);
    var t := AllGood(r);
    forall i | i in r.batch ensures i < t.stored && HasKey(t.vaultDisk, t.mail[i].message.key) {
      AcknowledgedIsStored(t, i);
    }
  }

  lemma ReconnectedIsReady(z: State)
    requires Inv(z)
    ensures Inv(Reconnected(z)) && Ready(Reconnected(z)) && Reconnected(z).base == z.base
    ensures Reconnected(z) == Step(Reload(z), Replay)
  {
    var journal := z.journalDisk;
    assert forall j :: 0 <= j < |journal| ==> journal[j] in journal;
    ReloadKeepsInv(z);
    StepKeepsInv(Reload(z), Replay);
  }

  lemma ReconnectIsARun(z: State) returns (fs: seq<Event>)
    requires Ready(Reconnected(z))
    ensures Run(z, fs) && After(z, fs) == AllGood(Reconnected(z))
    ensures |fs| >= 2 && fs[0] == CrashAndRestart && fs[1] == Replay
  {
    var rest := AllGoodIsARun(Reconnected(z));
    Prepend(Reload(z), Replay, rest);
    Prepend(z, CrashAndRestart, [Replay] + rest);
    fs := [CrashAndRestart] + ([Replay] + rest);
  }

  /** After any run and any crash, a replay that works, of accepted deliveries, empties the
      journal in memory and on disk. Every delivery it held is stored and acknowledged, none that
      the device ever decrypted is still owed, and the vault is the crash-free vault of a prefix
      that holds them all. */
  lemma ReplayReachesTheSameVault(s: State, es: seq<Event>) returns (fs: seq<Event>)
    requires Start(s) && Run(s, es)
    requires forall i :: i in After(s, es).journalDisk ==>
      i < |After(s, es).mail| && After(s, es).mail[i].fate.Sound?
    ensures
      var z := After(s, es);
      && Run(z, fs) && |fs| >= 2 && fs[0] == CrashAndRestart && fs[1] == Replay
      && var t := After(z, fs);
         && t.mail == z.mail && t.batch == [] && t.journal == t.journalDisk == []
         && t.stored <= |t.mail| && t.vault == StoreAll(s.base, t.mail[..t.stored])
         && (forall i :: i in z.journalDisk ==>
               i in t.acked && i < t.stored && HasKey(t.vaultDisk, t.mail[i].message.key))
         && (forall i :: i in t.spent ==> i < |t.mail| && (i in t.acked || t.mail[i].fate.Rejected?))
  {
    RunKeepsInv(s, es);
    var z := After(s, es);
    ReconnectedIsReady(z);
    ReplayStores(Reconnected(z));
    fs := ReconnectIsARun(z);
  }

  // ---------------------------------------------------------------- fetch

  /** All deliveries before `bad` are sound, and `bad` is not, or is the end. */
  ghost predicate FirstBad(mail: seq<Letter>, bad: nat) {
    bad <= |mail| && (forall i :: 0 <= i < bad ==> mail[i].fate.Sound?) && (bad < |mail| ==> !mail[bad].fate.Sound?)
  }

  lemma {:induction false} UnackedCount(n: nat, a: nat, acked: set<nat>, from: nat)
    requires FirstOnes(acked, a) && a <= n
    ensures |Unacked(n, acked, from)| == Max(0, n - Max(a, from))
    decreases n - from
  {
    if from < n {
      UnackedCount(n, a, acked, from + 1);
      assert from in acked <==> from < a;
    }
  }

  /** A fetch under way: everything the relay still holds, and each of it can be read, its key
      being unused or its text journaled. */
  ghost predicate Fetching(s: State) {
    && Ready(s) && !s.restoring && |s.batch| == |s.mail| - s.taken
    && (forall j :: 0 <= j < |s.batch| ==> s.batch[j] == s.taken + j)
    && forall i :: i in s.batch && i in s.spent ==> i in s.journal || s.mail[i].fate.Rejected?
  }

  lemma FetchDecrypts(s: State)
    requires Fetching(s) && s.batch != []
    ensures
      var t := DoDecrypt(s, Saved);
      if s.mail[s.taken].fate.Sound? then Fetching(t.(stage := Decrypt)) && t.batch == s.batch && t.mail == s.mail
      else t.mail == s.mail && t.taken == s.taken && t.batch in {[], s.batch}
  {
    assert s.taken in s.batch;
  }

  lemma FetchPresents(t: State)
    requires t.batch != [] && Fetching(t.(stage := Decrypt))
    ensures
      var u := PresentOne(t, GOOD);
      && u.mail == t.mail
      && if t.mail[t.taken].fate.Sound? then Fetching(u) && u.batch == t.batch[1..] && u.taken == t.taken + 1
         else u.batch == [] && u.taken == t.taken
  {
    assert forall i :: i in t.batch[1..] ==> i in t.batch && i != t.taken;
  }

  lemma FetchOne(s: State)
    requires Fetching(s) && s.batch != []
    ensures
      var t := OneGood(s);
      && t.mail == s.mail
      && if s.mail[s.taken].fate.Sound? then Fetching(t) && t.batch == s.batch[1..] && t.taken == s.taken + 1
         else t.batch == [] && t.taken == s.taken
  {
    FetchDecrypts(s);
    var t := DoDecrypt(s, Saved);
    if s.mail[s.taken].fate.Sound? { FetchPresents(t); }
  }

  lemma {:induction false} FetchTakesUpToBad(s: State, bad: nat)
    requires Fetching(s) && s.taken <= bad && FirstBad(s.mail, bad)
    ensures
      var t := AllGood(s);
      t.batch == [] && t.mail == s.mail && t.taken == bad
    decreases |s.batch|
  {
    if s.batch != [] {
      var t := OneGood(s);
      FetchOne(s);
      if s.mail[s.taken].fate.Sound? {
        FetchTakesUpToBad(t, bad);
      } else {
        assert AllGood(t) == t;
      }
    }
  }

  function Fetched(z: State): State
    requires z.batch == []
  {
    z.(batch := Unacked(|z.mail|, z.acked, 0), stage := Decrypt, restoring := false)
  }

  lemma FetchedIsReady(z: State)
    requires Inv(z) && z.batch == []
    ensures Inv(Fetched(z)) && Fetching(Fetched(z))
    ensures Enabled(z, Fetch(|Fetched(z).batch|)) && Step(z, Fetch(|Fetched(z).batch|)) == Fetched(z)
  {
    var all := Unacked(|z.mail|, z.acked, 0);
    UnackedCount(|z.mail|, z.taken, z.acked, 0);
    UnackedIsRest(|z.mail|, z.taken, z.acked, 0);
    FetchKeepsInv(z, |all|);
    assert all[..|all|] == all;
  }

  lemma FetchIsARun(z: State) returns (fs: seq<Event>)
    requires Inv(z) && z.batch == [] && Ready(Fetched(z))
    requires Enabled(z, Fetch(|Fetched(z).batch|)) && Step(z, Fetch(|Fetched(z).batch|)) == Fetched(z)
    requires Inv(Fetched(z))
    ensures Run(z, fs) && After(z, fs) == AllGood(Fetched(z)) && Inv(After(z, fs)) && After(z, fs).base == z.base
  {
    var rest := AllGoodIsARun(Fetched(z));
    RunKeepsInv(Fetched(z), rest);
    Prepend(z, Fetch(|Fetched(z).batch|), rest);
    fs := [Fetch(|Fetched(z).batch|)] + rest;
  }

  lemma StoredUpToBad(t: State, bad: nat)
    requires Inv(t) && t.taken == bad && FirstBad(t.mail, bad)
    ensures (forall i: nat :: i in t.acked <==> i < bad) && t.vault == t.vaultDisk == Vault(t, bad)
  {
  }

  /** After any run a fetch of everything that meets no failure acknowledges exactly the
      deliveries before the first bad one and leaves their crash-free vault, in memory and on
      disk. Without a bad one nothing is ever lost, whatever happened before. */
  lemma FetchStopsAtTheFirstBadDelivery(s: State, es: seq<Event>, bad: nat) returns (fs: seq<Event>)
    requires Start(s) && Run(s, es) && After(s, es).batch == [] && FirstBad(After(s, es).mail, bad)
    ensures
      var z := After(s, es);
      && Run(z, fs)
      && var t := After(z, fs);
         && t.mail == z.mail && t.batch == []
         && (forall i: nat :: i in t.acked <==> i < bad)
         && t.vault == t.vaultDisk == StoreAll(s.base, t.mail[..bad])
  {
    RunKeepsInv(s, es);
    var z := After(s, es);
    FetchedIsReady(z);
    FetchTakesUpToBad(Fetched(z), bad);
    fs := FetchIsARun(z);
    StoredUpToBad(After(z, fs), bad);
  }
}
