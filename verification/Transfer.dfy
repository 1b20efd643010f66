/** The attachment cancellation control and the registry of transfers
    (crates/mutte-client/src/transfer.rs). */
module Transfer {
  import opened Common

  /** The three values of the control's atomic state word: 0, 1 and 2. */
  datatype Word = Open | Cancelled | Committed

  function CancelWord(w: Word): Word { if w == Open then Cancelled else w }

  function CommitWord(w: Word): Word { if w == Open then Committed else w }

  datatype Direction = Upload | Download

  datatype Key = Key(id: nat, direction: Direction)

  datatype Phase = Preparing | Transferring | Finalizing | Cancelling

  datatype Progress = Progress(completed: nat, total: nat, phase: Phase, explicit: bool)

  /** `C` is the identity of a control: the object itself in the class below. */
  datatype Entry<C> = Entry(active: bool, progress: Option<Progress>, control: C)

  /** The registry's map together with the state word of every control in play. */
  datatype Registry<C> = Registry(entries: map<Key, Entry<C>>, words: map<C, Word>)

  ghost predicate Wf<C>(r: Registry<C>) {
    forall k :: k in r.entries ==> r.entries[k].control in r.words
  }

  // ---------------------------------------------------------------- operations on values

  function WriteWord<C>(r: Registry<C>, c: C, w: Word): Registry<C> {
    r.(words := r.words[c := w])
  }

  /** A cancel by key goes through the map and never adds or removes an entry. */
  function CancelKey<C>(r: Registry<C>, k: Key): Registry<C>
    requires Wf(r)
  {
    if k !in r.entries then r
    else var c := r.entries[k].control; WriteWord(r, c, CancelWord(r.words[c]))
  }

  function CancelAnswer<C>(r: Registry<C>, k: Key): bool
    requires Wf(r)
  {
    k in r.entries && r.words[r.entries[k].control] != Committed
  }

  /** `made` names the new control made for each queued file that had no entry. */
  function Prepare<C>(r: Registry<C>, pending: set<Key>, made: map<Key, C>): Registry<C> {
    Registry(
      map k | k in r.entries.Keys + made.Keys && (k in made || r.entries[k].active || k in pending) ::
        if k in made then Entry(false, None, made[k]) else r.entries[k],
      map c | c in r.words.Keys + made.Values :: if c in made.Values then Open else r.words[c])
  }

  ghost predicate OneToOne<K, V>(m: map<K, V>) {
    forall k, l :: k in m && l in m && m[k] == m[l] ==> k == l
  }

  ghost predicate FreshControls<C>(r: Registry<C>, pending: set<Key>, made: map<Key, C>) {
    && made.Keys == pending - r.entries.Keys
    && (forall k :: k in made ==> made[k] !in r.words)
    && OneToOne(made)
  }

  /** `after` is `before` with an inactive entry for each new control. */
  ghost predicate Inserted<C>(before: map<Key, Entry<C>>, made: map<Key, C>, after: map<Key, Entry<C>>) {
    && after.Keys == before.Keys + made.Keys
    && forall k :: k in after ==> after[k] == if k in made then Entry(false, None, made[k]) else before[k]
  }

  predicate AnyActive<C>(r: Registry<C>) {
    exists k :: k in r.entries && r.entries[k].active
  }

  /** Registration refuses while another entry is active. A cancel accepted for the
      queued file is carried over to the new attempt's control. */
  function Register<C>(r: Registry<C>, k: Key, c: C, explicit: bool): Registry<C>
    requires Wf(r) && c in r.words
  {
    if AnyActive(r) then r
    else
      var w := if k in r.entries && r.words[r.entries[k].control] == Cancelled
               then CancelWord(r.words[c]) else r.words[c];
      Registry(r.entries[k := Entry(true, Some(Progress(0, 0, Preparing, explicit)), c)], r.words[c := w])
  }

  predicate ReportAccepted<C(==)>(r: Registry<C>, k: Key, c: C, completed: nat, total: nat) {
    && k in r.entries
    && r.entries[k].active
    && r.entries[k].control == c
    && completed <= total
    && (r.entries[k].progress.Some? ==>
          var last := r.entries[k].progress.value;
          last.completed <= completed && (last.total != 0 ==> last.total == total))
  }

  function Report<C(==)>(r: Registry<C>, k: Key, c: C, completed: nat, total: nat, phase: Phase): Registry<C> {
    if ReportAccepted(r, k, c, completed, total) then
      var e := r.entries[k];
      var explicit := e.progress.Some? && e.progress.value.explicit;
      r.(entries := r.entries[k := e.(progress := Some(Progress(completed, total, phase, explicit)))])
    else r
  }

  /** The end of a lease: the control can no longer be cancelled, and the entry is
      touched only while it still holds this lease's control. */
  function DropLease<C(==)>(r: Registry<C>, k: Key, c: C): Registry<C>
    requires Wf(r) && c in r.words
  {
    var s := WriteWord(r, c, CommitWord(r.words[c]));
    if k !in s.entries || s.entries[k].control != c then s
    else if s.words[c] == Cancelled then
      s.(entries := s.entries[k := s.entries[k].(active := false, progress := None)])
    else s.(entries := s.entries - {k})
  }

  function CancelledPending<C>(r: Registry<C>): set<Key>
    requires Wf(r)
  {
    set k | k in r.entries && !r.entries[k].active && r.words[r.entries[k].control] == Cancelled
  }

  lemma ValuesOfInsert<K, V>(m: map<K, V>, k: K, v: V)
    requires k !in m
    ensures m[k := v].Values == m.Values + {v}
  {
    var n := m[k := v];
    forall x | x in m.Values + {v} ensures x in n.Values {
      if x == v { assert n[k] == x; } else {
        var l :| l in m && m[l] == x;
        assert n[l] == x;
      }
    }
  }

  // ---------------------------------------------------------------- the lock-free control

  class AttachmentCancellation {
    var started: bool
    var state: Word
    /** The last value sent on the watch channel. */
    var signal: bool

    constructor ()
      ensures !started && state == Open && !signal
    {
      started := false;
      state := Open;
      signal := false;
    }

    method CompareExchange(expected: Word, next: Word) returns (ok: bool)
      modifies this`state
      ensures ok == (old(state) == expected)
      ensures state == if ok then next else old(state)
    {
      ok := state == expected;
      if ok { state := next; }
    }

    /** A control serves one operation: the second start is refused. */
    method Start() returns (ok: bool)
      modifies this`started
      ensures started && ok == !old(started)
    {
      ok := !started;
      started := true;
    }

    method IsCancelled() returns (b: bool)
      ensures b == (state == Cancelled)
    {
      b := state == Cancelled;
    }

    /** Only the cancel that wins the exchange wakes the waiting attempt. */
    method Cancel() returns (accepted: bool)
      modifies this`state, this`signal
      ensures state == CancelWord(old(state)) && signal == (old(signal) || old(state) == Open)
      ensures accepted == (old(state) != Committed)
    {
      var won := CompareExchange(Open, Cancelled);
      if won {
        signal := true;
        accepted := true;
      } else {
        accepted := IsCancelled();
      }
    }

    method Finish()
      modifies this`state
      ensures state == CommitWord(old(state))
    {
      var _ := CompareExchange(Open, Committed);
    }

    method BeginCommit() returns (ok: bool)
      modifies this`state
      ensures state == CommitWord(old(state))
      ensures ok == (old(state) == Open)
    {
      ok := CompareExchange(Open, Committed);
    }
  }

  // ---------------------------------------------------------------- the registry object

  class ActiveAttachmentTransfers {
    var entries: map<Key, Entry<AttachmentCancellation>>
    /** Every control that has come near this registry. */
    ghost var controls: set<AttachmentCancellation>

    ghost predicate Valid()
      reads this
    {
      forall k :: k in entries ==> entries[k].control in controls
    }

    ghost function View(): (r: Registry<AttachmentCancellation>)
      reads this, controls
    {
      Registry(entries, map c | c in controls :: c.state)
    }

    constructor ()
      ensures Valid() && entries == map[] && controls == {}
    {
      entries := map[];
      controls := {};
    }

    method Cancel(k: Key) returns (accepted: bool)
      requires Valid()
      modifies controls
      ensures Valid() && Wf(old(View()))
      ensures View() == CancelKey(old(View()), k)
      ensures accepted == CancelAnswer(old(View()), k)
    {
      if k in entries {
        accepted := entries[k].control.Cancel();
      } else {
        accepted := false;
      }
    }

    /** Gives a queued file an inactive entry with a control of its own, unless it has one.
        `made` collects the new controls; `base` is what the registry knew before them. */
    method OrInsert(k: Key, ghost base: set<AttachmentCancellation>, ghost made: map<Key, AttachmentCancellation>)
      returns (ghost more: map<Key, AttachmentCancellation>)
      requires k !in made && OneToOne(made) && controls == base + made.Values
      modifies this
      ensures OneToOne(more) && controls == base + more.Values
      ensures k in old(entries) ==> more == made && entries == old(entries)
      ensures k !in old(entries) ==>
                && more.Keys == made.Keys + {k} && more == made[k := more[k]]
                && fresh(more[k]) && more[k].state == Open
                && entries == old(entries)[k := Entry(false, None, more[k])]
    {
      more := made;
      if k !in entries {
        var c := new AttachmentCancellation();
        entries := entries[k := Entry(false, None, c)];
        controls := controls + {c};
        more := made[k := c];
        ValuesOfInsert(made, k, c);
      }
    }

    method InsertQueued(pending: set<Key>) returns (ghost made: map<Key, AttachmentCancellation>)
      modifies this
      ensures made.Keys == pending - old(entries).Keys
      ensures forall k :: k in made ==> fresh(made[k]) && made[k].state == Open
      ensures OneToOne(made)
      ensures Inserted(old(entries), made, entries)
      ensures controls == old(controls) + made.Values
    {
      made := map[];
      var todo := pending;
      while todo != {}
        invariant todo <= pending
        invariant made.Keys == pending - todo - old(entries).Keys
        invariant forall k :: k in made ==> fresh(made[k]) && made[k].state == Open
        invariant OneToOne(made)
        invariant Inserted(old(entries), made, entries)
        invariant controls == old(controls) + made.Values
        decreases todo
      {
        var k :| k in todo;
        todo := todo - {k};
        made := OrInsert(k, old(controls), made);
      }
    }

    method PreparePending(pending: set<Key>) returns (ghost made: map<Key, AttachmentCancellation>)
      requires Valid()
      modifies this
      ensures Valid() && controls == old(controls) + made.Values
      ensures forall c :: c in made.Values ==> fresh(c)
      ensures FreshControls(old(View()), pending, made)
      ensures View() == Prepare(old(View()), pending, made)
    {
      entries := map k | k in entries && (entries[k].active || k in pending) :: entries[k];
      made := InsertQueued(pending);
      ghost var spec := Prepare(old(View()), pending, made);
      assert View().entries.Keys == spec.entries.Keys;
      assert View().entries == spec.entries;
      assert View().words.Keys == spec.words.Keys;
    }

    method CancelledKeys() returns (keys: set<Key>)
      requires Valid()
      ensures Wf(View()) && keys == CancelledPending(View())
    {
      keys := set k | k in entries && !entries[k].active && entries[k].control.state == Cancelled;
    }

    method RegisterTransfer(k: Key, c: AttachmentCancellation, explicit: bool) returns (ok: bool)
      requires Valid() && c in controls
      modifies this`entries, c`state, c`signal
      ensures Valid() && Wf(old(View()))
      ensures View() == Register(old(View()), k, c, explicit)
      ensures ok == !AnyActive(old(View()))
    {
      if exists l :: l in entries && entries[l].active {
        return false;
      }
      if k in entries {
        var wanted := entries[k].control.IsCancelled();
        if wanted {
          var _ := c.Cancel();
        }
      }
      entries := entries[k := Entry(true, Some(Progress(0, 0, Preparing, explicit)), c)];
      ok := true;
    }

    method ReportProgress(k: Key, c: AttachmentCancellation, completed: nat, total: nat, phase: Phase)
      returns (ok: bool)
      requires Valid()
      modifies this`entries
      ensures Valid()
      ensures View() == Report(old(View()), k, c, completed, total, phase)
      ensures ok == ReportAccepted(old(View()), k, c, completed, total)
    {
      if k !in entries { return false; }
      var entry := entries[k];
      if !entry.active || entry.control != c || completed > total { return false; }
      if entry.progress.Some? {
        var last := entry.progress.value;
        if completed < last.completed || (last.total != 0 && last.total != total) { return false; }
      }
      var explicit := entry.progress.Some? && entry.progress.value.explicit;
      entries := entries[k := entry.(progress := Some(Progress(completed, total, phase, explicit)))];
      ok := true;
    }

    method EndLease(k: Key, c: AttachmentCancellation)
      requires Valid() && c in controls
      modifies this`entries, c`state
      ensures Valid() && Wf(old(View()))
      ensures View() == DropLease(old(View()), k, c)
    {
      c.Finish();
      if k in entries && entries[k].control == c {
        var keep := c.IsCancelled();
        if keep {
          entries := entries[k := entries[k].(active := false, progress := None)];
        } else {
          entries := entries - {k};
        }
      }
    }
  }
}
