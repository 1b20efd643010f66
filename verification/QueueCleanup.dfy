/** Persisting accepted cancels of queued files without any network
    (crates/mutte-client/src/engine.rs, finish_queued_cancellations). */
module QueueCleanup {
  import opened Transfer
  import opened FileQueue

  datatype Outcome = Fine | Missing | Ambiguous | Storage

  /** A vault edit works, or fails and leaves the vault as it was, or is durable while a
      later part of the same clean-up (such as deleting a partial file) fails. */
  datatype Effect = Works | FailsBefore | FailsAfter

  /** The cancelled, inactive entries whose file is still queued. */
  function CancelledPendingIn<C>(r: Registry<C>, queued: set<Key>): set<Key>
  {
    set k | k in r.entries && k in queued && !r.entries[k].active
            && r.entries[k].control in r.words && r.words[r.entries[k].control] == Cancelled
  }

  /** After a refresh the cancelled queue is what is still queued of it. */
  lemma RefreshLists<C>(r: Registry<C>, queued: set<Key>, made: map<Key, C>)
    requires Wf(r) && FreshControls(r, queued, made) && Wf(Prepare(r, queued, made))
    ensures CancelledPending(Prepare(r, queued, made)) == CancelledPendingIn(r, queued)
  {
    var s := Prepare(r, queued, made);
    forall k | k in s.entries
      ensures k in CancelledPending(s) <==> k in CancelledPendingIn(r, queued)
    {
      if k in made { assert made[k] in made.Values; } else { assert r.entries[k].control !in made.Values; }
    }
  }

  predicate EditWorks(effects: map<Key, Effect>, k: Key) { k in effects ==> effects[k] == Works }

  /** The positions of the messages that wait for the file. */
  method PendingAt(items: seq<Item>, file: nat) returns (found: seq<nat>)
    ensures forall i: nat :: i in found <==> i < |items| && Pending(items[i]) && items[i].file == file
    ensures forall i, j :: 0 <= i < j < |found| ==> found[i] < found[j]
  {
    found := [];
    for i := 0 to |items|
      invariant forall j: nat :: j in found <==> j < i && Pending(items[j]) && items[j].file == file
      invariant forall a, b :: 0 <= a < b < |found| ==> found[a] < found[b]
      invariant forall a :: 0 <= a < |found| ==> found[a] < i
    {
      if Pending(items[i]) && items[i].file == file { found := found + [i]; }
    }
  }

  lemma WithdrawOne(v: Vault, i: nat)
    requires Sound(v) && i < |v.items| && Pending(v.items[i])
    ensures v.(items := v.items[i := v.items[i].(requested := false)])
         == Cleared(v, {Key(v.items[i].file, Download)})
  {
    var k := Key(v.items[i].file, Download);
    KeptAll(v.uploads, {k});
    forall j | 0 <= j < |v.items| && j != i ensures Withdrawn(v.items[j], {k}) == v.items[j] {
      if Pending(v.items[j]) && v.items[j].file == v.items[i].file { OnePending(v, i, j); }
    }
    assert v.items[i := v.items[i].(requested := false)] == WithdrawnAll(v.items, {k});
  }

  lemma RemoveOne(v: Vault, file: nat)
    requires Sound(v) && file in v.uploads
    ensures v.(uploads := RemoveFirst(v.uploads, file)) == Cleared(v, {Key(file, Upload)})
  {
    RemoveFirstKeeps(v.uploads, file);
    assert WithdrawnAll(v.items, {Key(file, Upload)}) == v.items;
  }

  class Engine {
    const registry: ActiveAttachmentTransfers
    var vault: Vault

    constructor (registry: ActiveAttachmentTransfers, vault: Vault)
      ensures this.registry == registry && this.vault == vault
    {
      this.registry := registry;
      this.vault := vault;
    }

    method CancelUpload(file: nat, effect: Effect) returns (r: Outcome, ghost gone: set<Key>)
      requires Sound(vault)
      modifies this`vault
      ensures r == (if file !in old(vault).uploads then Missing else if effect == Works then Fine else Storage)
      ensures gone == if r != Missing && effect != FailsBefore then {Key(file, Upload)} else {}
      ensures vault == Cleared(old(vault), gone)
    {
      ClearedNothing(vault);
      gone := {};
      if file !in vault.uploads { return Missing, gone; }
      if effect == FailsBefore { return Storage, gone; }
      RemoveOne(vault, file);
      vault, gone := vault.(uploads := RemoveFirst(vault.uploads, file)), {Key(file, Upload)};
      r := if effect == Works then Fine else Storage;
    }

    /** A second message waiting for the file would be an error; there never is one. */
    method CancelDownload(file: nat, effect: Effect) returns (r: Outcome, ghost gone: set<Key>)
      requires Sound(vault)
      modifies this`vault
      ensures r == (if Key(file, Download) !in Queued(old(vault)) then Missing
                    else if effect == Works then Fine else Storage)
      ensures gone == if r != Missing && effect != FailsBefore then {Key(file, Download)} else {}
      ensures vault == Cleared(old(vault), gone)
    {
      ClearedNothing(vault);
      gone := {};
      var found := PendingAt(vault.items, file);
      if found == [] {
        assert forall i: nat :: i < |vault.items| && Pending(vault.items[i]) ==> i in found || vault.items[i].file != file;
        return Missing, gone;
      }
      assert found[0] in found;
      var clash := |found| > 1;
      if clash {
        assert found[1] in found;
        OnePending(vault, found[0], found[1]);
      }
      r := if clash then Ambiguous else if effect == Works then Fine else Storage;
      if !clash && effect != FailsBefore {
        WithdrawOne(vault, found[0]);
        var items := vault.items;
        vault := vault.(items := items[found[0] := items[found[0]].(requested := false)]);
        gone := {Key(file, Download)};
      }
    }

    method CancelLocally(k: Key, effect: Effect) returns (r: Outcome, ghost gone: set<Key>)
      requires Sound(vault)
      modifies this`vault
      ensures r == (if k !in Queued(old(vault)) then Missing else if effect == Works then Fine else Storage)
      ensures gone == if r != Missing && effect != FailsBefore then {k} else {}
      ensures vault == Cleared(old(vault), gone)
    {
      if k.direction == Upload {
        r, gone := CancelUpload(k.id, effect);
      } else {
        r, gone := CancelDownload(k.id, effect);
      }
    }

    /** Only inactive entries that are cancelled and still queued are cleaned up. The two
        refreshes around the loop keep the registry and the vault in step. */
    method FinishQueuedCancellations(effects: map<Key, Effect>)
      returns (r: Outcome, ghost listed: set<Key>, ghost done: set<Key>)
      requires registry.Valid() && Sound(vault)
      modifies this`vault, registry
      ensures registry.Valid() && Wf(registry.View()) && Sound(vault)
      ensures listed == CancelledPendingIn(old(registry.View()), Queued(old(vault)))
      ensures done <= listed && vault == Cleared(old(vault), done)
      ensures r == if forall k :: k in listed ==> EditWorks(effects, k) then Fine else Storage
      ensures r == Fine ==> done == listed && CancelledPending(registry.View()) == {}
      ensures r != Fine ==> CancelledPending(registry.View()) == listed
    {
      Refresh();
      var keys := registry.CancelledKeys();
      listed := keys;
      r, done := CleanUp(keys, effects);
      ClearedIsSound(old(vault), done);
      if r == Fine {
        ClearedLeaves(old(vault), listed);
        Refresh();
      }
    }

    /** The refresh after a clean-up: what is no longer queued is forgotten. */
    method Refresh()
      requires registry.Valid()
      modifies registry
      ensures registry.Valid() && Wf(registry.View())
      ensures CancelledPending(registry.View()) == CancelledPendingIn(old(registry.View()), Queued(vault))
    {
      ghost var made := registry.PreparePending(Queued(vault));
      RefreshLists(old(registry.View()), Queued(vault), made);
    }

    /** One step of the clean-up of `before`, of which `done` is already gone. */
    method CancelNext(k: Key, effect: Effect, ghost before: Vault, ghost done: set<Key>)
      returns (r: Outcome, ghost gone: set<Key>)
      requires Sound(before) && vault == Cleared(before, done) && k in Queued(before) && k !in done
      modifies this`vault
      ensures r == if effect == Works then Fine else Storage
      ensures gone == if effect != FailsBefore then {k} else {}
      ensures vault == Cleared(before, done + gone)
    {
      ClearedIsSound(before, done);
      ClearedLeaves(before, done);
      r, gone := CancelLocally(k, effect);
      ClearedTwice(before, done, gone);
    }

    method CleanUp(keys: set<Key>, effects: map<Key, Effect>) returns (r: Outcome, ghost done: set<Key>)
      requires Sound(vault) && keys <= Queued(vault)
      modifies this`vault
      ensures done <= keys && vault == Cleared(old(vault), done)
      ensures r == if forall k :: k in keys ==> EditWorks(effects, k) then Fine else Storage
      ensures r == Fine ==> done == keys
    {
      r, done := Fine, {};
      ClearedNothing(vault);
      var todo := keys;
      while todo != {}
        invariant todo <= keys && done == keys - todo && vault == Cleared(old(vault), done)
        invariant r == Fine && forall k :: k in done ==> EditWorks(effects, k)
        decreases todo
      {
        var k :| k in todo;
        ghost var gone;
        r, gone := CancelNext(k, if k in effects then effects[k] else Works, old(vault), done);
        done := done + gone;
        if r != Fine { return; }
        todo := todo - {k};
      }
    }
  }
}
