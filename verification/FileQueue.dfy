/** The files a vault has queued: uploads, and downloads asked for but not yet on disk
    (crates/mutte-store/src/lib.rs). */
module FileQueue {
  import opened Common
  import opened Transfer

  /** A message that carries a file; `stored` when a local copy is recorded. */
  datatype Item = Item(message: nat, file: nat, stored: bool, requested: bool)

  datatype Vault = Vault(items: seq<Item>, uploads: seq<nat>)

  predicate Pending(m: Item) { !m.stored && m.requested }

  function Ids(items: seq<Item>): set<nat> { set m | m in items :: m.message }

  // ---------------------------------------------------------------- edits

  function Change(items: seq<Item>, message: nat, stored: bool, requested: bool): (r: seq<Item>)
    ensures |r| == |items|
    ensures forall i :: 0 <= i < |r| ==>
              r[i] == if items[i].message == message then items[i].(stored := stored, requested := requested) else items[i]
  {
    seq(|items|, i requires 0 <= i < |items| =>
      if items[i].message == message then items[i].(stored := stored, requested := requested) else items[i])
  }

  /** A prefix of an id selects every id that starts with it. */
  type Prefix = nat -> bool

  predicate Selects(prefix: Prefix, m: Item) { prefix(m.file) }

  /** The one message whose file the prefix selects, if there is exactly one. */
  ghost predicate Only(items: seq<Item>, chosen: Item -> bool, i: nat) {
    i < |items| && chosen(items[i]) && forall j :: 0 <= j < |items| && j != i ==> !chosen(items[j])
  }

  /** Asking for a download is refused unless the prefix selects one message of the whole vault,
      asked for or not, and its file is not on disk. */
  ghost predicate CanRequest(v: Vault, prefix: Prefix, i: nat) {
    Only(v.items, m => Selects(prefix, m), i) && !v.items[i].stored
  }

  function Reconciled(items: seq<Item>, found: set<nat>): (r: seq<Item>)
    ensures |r| == |items|
    ensures forall i :: 0 <= i < |r| ==>
              r[i] == if items[i].stored then items[i].(stored := items[i].message in found, requested := false) else items[i]
  {
    seq(|items|, i requires 0 <= i < |items| =>
      if items[i].stored then items[i].(stored := items[i].message in found, requested := false) else items[i])
  }

  // ---------------------------------------------------------------- runs

  /** Memory and document: a save that fails after the rename leaves the new document behind. */
  datatype State = State(memory: Vault, disk: Vault)

  datatype Edit =
    | Arrive(message: nat, file: nat)                       // a message not known yet
    | Import(added: seq<Item>, sorted: seq<Item>)           // a history, sorted into the vault
    | QueueUpload(file: nat)
    | Uploaded(file: nat, message: nat)                     // the upload becomes a sent message
    | CancelUpload(file: nat)
    | Request(prefix: Prefix, index: nat)
    | CancelDownload(prefix: Prefix, index: nat)
    | Downloaded(message: nat)
    | Reconcile(found: set<nat>)                            // local copies looked up at start-up

  datatype Event = Edits(edit: Edit, save: Save) | Restart

  /** An edit the vault accepts. */
  ghost predicate Accepted(v: Vault, e: Edit) {
    match e
    case Arrive(message, _) => message !in Ids(v.items)
    case Import(added, sorted) =>
      && (forall m :: m in added ==> !m.stored && !m.requested && m.message !in Ids(v.items))
      && |Ids(added)| == |added| && multiset(sorted) == multiset(v.items + added)
    case QueueUpload(file) => file !in v.uploads && forall m :: m in v.items ==> m.file != file
    case Uploaded(file, message) => file in v.uploads && message !in Ids(v.items)
    case CancelUpload(file) => file in v.uploads
    case Request(prefix, i) => CanRequest(v, prefix, i)
    case CancelDownload(prefix, i) => Only(v.items, m => Pending(m) && Selects(prefix, m), i)
    case Downloaded(message) => message in Ids(v.items)
    case Reconcile(_) => true
  }

  function IndexOf(ids: seq<nat>, x: nat): (i: nat)
    requires x in ids
    ensures i < |ids| && ids[i] == x && forall j :: 0 <= j < i ==> ids[j] != x
  {
    if ids[0] == x then 0 else 1 + IndexOf(ids[1..], x)
  }

  function RemoveFirst(ids: seq<nat>, x: nat): seq<nat>
    requires x in ids
  {
    ids[..IndexOf(ids, x)] + ids[IndexOf(ids, x) + 1..]
  }

  ghost function Apply(v: Vault, e: Edit): Vault
    requires Accepted(v, e)
  {
    match e
    case Arrive(message, file) => v.(items := v.items + [Item(message, file, false, false)])
    case Import(_, sorted) => v.(items := sorted)
    case QueueUpload(file) => v.(uploads := v.uploads + [file])
    case Uploaded(file, message) =>
      Vault(v.items + [Item(message, file, true, false)], RemoveFirst(v.uploads, file))
    case CancelUpload(file) => v.(uploads := RemoveFirst(v.uploads, file))
    case Request(_, i) => v.(items := Change(v.items, v.items[i].message, false, true))
    case CancelDownload(_, i) => v.(items := Change(v.items, v.items[i].message, false, false))
    case Downloaded(message) => v.(items := Change(v.items, message, true, false))
    case Reconcile(found) => v.(items := Reconciled(v.items, found))
  }

  ghost predicate Enabled(s: State, e: Event) {
    e.Edits? ==> Accepted(s.memory, e.edit)
  }

  ghost function Step(s: State, e: Event): State
    requires Enabled(s, e)
  {
    match e
    case Edits(edit, save) =>
      var next := Apply(s.memory, edit);
      State(if save.Saved? then next else s.memory, save.OnDisk(s.disk, next))
    case Restart => State(s.disk, s.disk)
  }

  ghost predicate Run(s: State, es: seq<Event>)
    decreases |es|
  {
    es != [] ==> Enabled(s, es[0]) && Run(Step(s, es[0]), es[1..])
  }

  ghost function After(s: State, es: seq<Event>): State
    requires Run(s, es)
    decreases |es|
  {
    if es == [] then s else After(Step(s, es[0]), es[1..])
  }

  // ---------------------------------------------------------------- what stays true

  ghost predicate DistinctMessages(items: seq<Item>) { |Ids(items)| == |items| }

  /** At most one message asks for each file. */
  ghost predicate OneRequest(items: seq<Item>) {
    forall a, b :: a in items && b in items && a.requested && b.requested && a.file == b.file ==> a == b
  }

  ghost predicate Distinct(ids: seq<nat>) {
    forall i, j :: 0 <= i < j < |ids| ==> ids[i] != ids[j]
  }

  ghost predicate Sound(v: Vault) {
    DistinctMessages(v.items) && OneRequest(v.items) && Distinct(v.uploads)
  }

  lemma IdsAppend(a: seq<Item>, b: seq<Item>)
    ensures Ids(a + b) == Ids(a) + Ids(b)
  {
    assert forall m :: m in a + b <==> m in a || m in b;
    forall x | x in Ids(a) + Ids(b) ensures x in Ids(a + b) {
      if x in Ids(a) {
        var m :| m in a && m.message == x;
        assert m in a + b;
      } else {
        var m :| m in b && m.message == x;
        assert m in a + b;
      }
    }
  }

  lemma {:induction false} IdsBound(items: seq<Item>)
    ensures |Ids(items)| <= |items|
    ensures DistinctMessages(items) ==> forall i, j :: 0 <= i < j < |items| ==> items[i].message != items[j].message
  {
    if items != [] {
      var n := |items| - 1;
      IdsBound(items[..n]);
      assert items == items[..n] + [items[n]];
      IdsAppend(items[..n], [items[n]]);
      assert Ids([items[n]]) == {items[n].message};
      if DistinctMessages(items) {
        forall i | 0 <= i < n ensures items[i].message != items[n].message {
          assert items[i] in items[..n];
        }
      }
    }
  }

  lemma SameMessages(a: seq<Item>, b: seq<Item>)
    requires |a| == |b| && forall i :: 0 <= i < |a| ==> a[i].message == b[i].message
    ensures Ids(a) == Ids(b)
  {
    forall x | x in Ids(a) ensures x in Ids(b) {
      var i :| 0 <= i < |a| && a[i].message == x;
      assert b[i] in b;
    }
    forall x | x in Ids(b) ensures x in Ids(a) {
      var i :| 0 <= i < |b| && b[i].message == x;
      assert a[i] in a;
    }
  }

  lemma AddingIsSound(items: seq<Item>, added: seq<Item>)
    requires DistinctMessages(items) && OneRequest(items) && DistinctMessages(added)
    requires forall m :: m in added ==> !m.requested && m.message !in Ids(items)
    ensures DistinctMessages(items + added) && OneRequest(items + added)
  {
    IdsAppend(items, added);
    assert Ids(items) !! Ids(added);
    assert forall m :: m in items + added <==> m in items || m in added;
  }

  lemma SortingIsSound(a: seq<Item>, b: seq<Item>)
    requires multiset(a) == multiset(b) && DistinctMessages(a) && OneRequest(a)
    ensures DistinctMessages(b) && OneRequest(b)
  {
    assert forall m :: m in a <==> m in multiset(a);
    assert forall m :: m in b <==> m in multiset(b);
    assert |a| == |multiset(a)| == |multiset(b)| == |b|;
    assert Ids(a) == Ids(b);
  }

  /** Asking is allowed only when no other message, asked for or not, carries a file the prefix
      selects; so no second request for a file can ever stand beside the first. */
  lemma RequestIsSound(v: Vault, prefix: Prefix, i: nat)
    requires Sound(v) && CanRequest(v, prefix, i)
    ensures Sound(Apply(v, Request(prefix, i)))
  {
    var next := Apply(v, Request(prefix, i)).items;
    SameMessages(v.items, next);
    IdsBound(v.items);
    forall a, b | a in next && b in next && a.requested && b.requested && a.file == b.file ensures a == b {
      var j :| 0 <= j < |next| && next[j] == a;
      var l :| 0 <= l < |next| && next[l] == b;
      if j == i || l == i {
        assert prefix(v.items[i].file);
      } else {
        assert v.items[j] in v.items && v.items[l] in v.items;
      }
    }
  }

  /** Edits that only withdraw requests. */
  lemma WithdrawingIsSound(items: seq<Item>, next: seq<Item>)
    requires |next| == |items| && DistinctMessages(items) && OneRequest(items)
    requires forall i :: 0 <= i < |items| ==>
      next[i].message == items[i].message && (next[i].requested ==> next[i] == items[i])
    ensures DistinctMessages(next) && OneRequest(next)
  {
    SameMessages(items, next);
    forall a, b | a in next && b in next && a.requested && b.requested && a.file == b.file ensures a == b {
      assert a in items && b in items;
    }
  }

  lemma ApplyIsSound(v: Vault, e: Edit)
    requires Sound(v) && Accepted(v, e)
    ensures Sound(Apply(v, e))
  {
    match e
    case Arrive(message, file) =>
      assert Ids([Item(message, file, false, false)]) == {message};
      AddingIsSound(v.items, [Item(message, file, false, false)]);
    case Import(added, sorted) =>
      AddingIsSound(v.items, added);
      SortingIsSound(v.items + added, sorted);
    case QueueUpload(file) =>
    case Uploaded(file, message) =>
      assert Ids([Item(message, file, true, false)]) == {message};
      AddingIsSound(v.items, [Item(message, file, true, false)]);
    case CancelUpload(file) =>
    case Request(prefix, i) => RequestIsSound(v, prefix, i);
    case CancelDownload(prefix, i) => WithdrawingIsSound(v.items, Apply(v, e).items);
    case Downloaded(message) => WithdrawingIsSound(v.items, Apply(v, e).items);
    case Reconcile(found) => WithdrawingIsSound(v.items, Apply(v, e).items);
  }

  /** Over every run of arrivals, imports, requests, cancels, uploads and downloads, with failing
      saves and restarts, at most one message asks for each file and no upload is queued twice,
      in memory and on disk. */
  lemma {:induction false} RunIsSound(s: State, es: seq<Event>)
    requires Sound(s.memory) && Sound(s.disk) && Run(s, es)
    ensures Sound(After(s, es).memory) && Sound(After(s, es).disk)
    decreases |es|
  {
    if es != [] {
      if es[0].Edits? { ApplyIsSound(s.memory, es[0].edit); }
      RunIsSound(Step(s, es[0]), es[1..]);
    }
  }

  // ---------------------------------------------------------------- the queue as a set of files

  function Queued(v: Vault): set<Key> {
    (set u | u in v.uploads :: Key(u, Upload)) + (set m | m in v.items && Pending(m) :: Key(m.file, Download))
  }

  function KeptUploads(ids: seq<nat>, gone: set<Key>): (r: seq<nat>)
    ensures forall x :: x in r <==> x in ids && Key(x, Upload) !in gone
  {
    if ids == [] then []
    else if Key(ids[0], Upload) in gone then KeptUploads(ids[1..], gone)
    else [ids[0]] + KeptUploads(ids[1..], gone)
  }

  function Withdrawn(m: Item, gone: set<Key>): Item {
    if Pending(m) && Key(m.file, Download) in gone then m.(requested := false) else m
  }

  function WithdrawnAll(items: seq<Item>, gone: set<Key>): (r: seq<Item>)
    ensures |r| == |items| && forall i :: 0 <= i < |r| ==> r[i] == Withdrawn(items[i], gone)
  {
    seq(|items|, i requires 0 <= i < |items| => Withdrawn(items[i], gone))
  }

  /** The vault without the queued files of `gone`; nothing else differs. */
  function Cleared(v: Vault, gone: set<Key>): Vault {
    Vault(WithdrawnAll(v.items, gone), KeptUploads(v.uploads, gone))
  }

  lemma {:induction false} KeptAll(ids: seq<nat>, gone: set<Key>)
    requires forall x :: x in ids ==> Key(x, Upload) !in gone
    ensures KeptUploads(ids, gone) == ids
  {
    if ids != [] { KeptAll(ids[1..], gone); }
  }

  lemma {:induction false} KeptTwice(ids: seq<nat>, a: set<Key>, b: set<Key>)
    ensures KeptUploads(KeptUploads(ids, a), b) == KeptUploads(ids, a + b)
  {
    if ids != [] {
      if Key(ids[0], Upload) !in a { assert KeptUploads(ids, a)[1..] == KeptUploads(ids[1..], a); }
      KeptTwice(ids[1..], a, b);
    }
  }

  lemma {:induction false} KeptDistinct(ids: seq<nat>, gone: set<Key>)
    requires Distinct(ids)
    ensures Distinct(KeptUploads(ids, gone))
  {
    if ids != [] {
      KeptDistinct(ids[1..], gone);
      assert forall x :: x in KeptUploads(ids[1..], gone) ==> x in ids[1..];
    }
  }

  lemma {:induction false} RemoveFirstKeeps(ids: seq<nat>, x: nat)
    requires Distinct(ids) && x in ids
    ensures RemoveFirst(ids, x) == KeptUploads(ids, {Key(x, Upload)})
  {
    var rest := ids[1..];
    if ids[0] == x {
      KeptAll(rest, {Key(x, Upload)});
    } else {
      RemoveFirstKeeps(rest, x);
      assert RemoveFirst(ids, x) == [ids[0]] + RemoveFirst(rest, x);
    }
  }

  lemma ClearedNothing(v: Vault)
    ensures Cleared(v, {}) == v
  {
    KeptAll(v.uploads, {});
    assert WithdrawnAll(v.items, {}) == v.items;
  }

  lemma ClearedTwice(v: Vault, a: set<Key>, b: set<Key>)
    ensures Cleared(Cleared(v, a), b) == Cleared(v, a + b)
  {
    KeptTwice(v.uploads, a, b);
    assert WithdrawnAll(WithdrawnAll(v.items, a), b) == WithdrawnAll(v.items, a + b);
  }

  lemma ClearedIsSound(v: Vault, gone: set<Key>)
    requires Sound(v)
    ensures Sound(Cleared(v, gone))
  {
    WithdrawingIsSound(v.items, Cleared(v, gone).items);
    KeptDistinct(v.uploads, gone);
  }

  /** Clearing takes exactly the files named from the queue. */
  lemma ClearedLeaves(v: Vault, gone: set<Key>)
    ensures Queued(Cleared(v, gone)) == Queued(v) - gone
  {
    var w := Cleared(v, gone);
    forall k | k in Queued(v) - gone ensures k in Queued(w) {
      if k.direction == Download {
        var m :| m in v.items && Pending(m) && k == Key(m.file, Download);
        var i :| 0 <= i < |v.items| && v.items[i] == m;
        assert w.items[i] in w.items;
      }
    }
    forall k | k in Queued(w) ensures k in Queued(v) - gone {
      if k.direction == Download {
        var m :| m in w.items && Pending(m) && k == Key(m.file, Download);
        var i :| 0 <= i < |w.items| && w.items[i] == m;
        assert v.items[i] in v.items;
      }
    }
  }

  /** In a sound vault a requested file is the file of one message only. */
  lemma OnePending(v: Vault, i: nat, j: nat)
    requires Sound(v) && i < |v.items| && j < |v.items|
    requires Pending(v.items[i]) && Pending(v.items[j]) && v.items[i].file == v.items[j].file
    ensures i == j
  {
    assert v.items[i] in v.items && v.items[j] in v.items;
    IdsBound(v.items);
  }

  // ---------------------------------------------------------------- what each edit does to the queue

  ghost predicate Asked(items: seq<Item>, file: nat) {
    exists i :: 0 <= i < |items| && Pending(items[i]) && items[i].file == file
  }

  lemma QueuedMeans(v: Vault, k: Key)
    ensures k in Queued(v) <==> if k.direction == Upload then k.id in v.uploads else Asked(v.items, k.id)
  {
    if k.direction == Download && k in Queued(v) {
      var m :| m in v.items && Pending(m) && Key(m.file, Download) == k;
      var i :| 0 <= i < |v.items| && v.items[i] == m;
    }
    if k.direction == Download && Asked(v.items, k.id) {
      var i :| 0 <= i < |v.items| && Pending(v.items[i]) && v.items[i].file == k.id;
      assert v.items[i] in v.items;
    }
  }

  lemma ChangedOne(v: Vault, i: nat, stored: bool, requested: bool)
    requires Sound(v) && i < |v.items|
    ensures Change(v.items, v.items[i].message, stored, requested)
         == v.items[i := v.items[i].(stored := stored, requested := requested)]
  {
    IdsBound(v.items);
  }

  /** One message starts or stops asking for its file; no other asks for the same. */
  lemma AskingChanges(v: Vault, i: nat, m: Item, file: nat)
    requires Sound(v) && i < |v.items| && m.file == v.items[i].file
    requires forall j :: 0 <= j < |v.items| && j != i && Pending(v.items[j]) ==> v.items[j].file != m.file || Pending(m)
    ensures Asked(v.items[i := m], file) <==> if file == m.file then Pending(m) else Asked(v.items, file)
  {
    var items := v.items[i := m];
    if file == m.file && Pending(m) { assert items[i] == m; }
    if file != m.file && Asked(v.items, file) {
      var j :| 0 <= j < |v.items| && Pending(v.items[j]) && v.items[j].file == file;
      assert items[j] == v.items[j];
    }
    if file != m.file && Asked(items, file) {
      var j :| 0 <= j < |items| && Pending(items[j]) && items[j].file == file;
      assert v.items[j] == items[j];
    }
  }

  lemma SameAsking(a: seq<Item>, b: seq<Item>, file: nat)
    requires forall m :: Pending(m) ==> (m in a <==> m in b)
    ensures Asked(a, file) <==> Asked(b, file)
  {
    if Asked(a, file) {
      var i :| 0 <= i < |a| && Pending(a[i]) && a[i].file == file;
      assert a[i] in a && a[i] in b;
      var j :| 0 <= j < |b| && b[j] == a[i];
    }
    if Asked(b, file) {
      var i :| 0 <= i < |b| && Pending(b[i]) && b[i].file == file;
      assert b[i] in b && b[i] in a;
      var j :| 0 <= j < |a| && a[j] == b[i];
    }
  }

  /** The queue after an edit: one file more, one file less, or the same. */
  ghost predicate Requeues(v: Vault, e: Edit, queue: set<Key>)
    requires Accepted(v, e)
  {
    var before := Queued(v);
    match e
    case QueueUpload(file) => queue == before + {Key(file, Upload)}
    case Uploaded(file, _) => queue == before - {Key(file, Upload)}
    case CancelUpload(file) => queue == before - {Key(file, Upload)}
    case Request(_, i) => queue == before + {Key(v.items[i].file, Download)}
    case CancelDownload(_, i) => queue == before - {Key(v.items[i].file, Download)}
    case Downloaded(message) =>
      forall i :: 0 <= i < |v.items| && v.items[i].message == message ==>
        queue == if Pending(v.items[i]) then before - {Key(v.items[i].file, Download)} else before
    case _ => queue == before
  }

  lemma UploadsRequeue(v: Vault, e: Edit)
    requires Sound(v) && Accepted(v, e) && (e.QueueUpload? || e.Uploaded? || e.CancelUpload?)
    ensures Requeues(v, e, Queued(Apply(v, e)))
  {
    var w := Apply(v, e);
    if !e.QueueUpload? { RemoveFirstKeeps(v.uploads, e.file); }
    forall k ensures k in Queued(w) <==>
                       if k == Key(e.file, Upload) then e.QueueUpload? else k in Queued(v) {
      QueuedMeans(v, k);
      QueuedMeans(w, k);
      SameAsking(v.items, w.items, k.id);
    }
  }

  lemma MessageRequeues(v: Vault, i: nat, m: Item)
    requires Sound(v) && i < |v.items| && m.file == v.items[i].file
    requires Pending(m) || Pending(v.items[i]) || !Asked(v.items, m.file)
    ensures Queued(v.(items := v.items[i := m]))
         == if Pending(m) then Queued(v) + {Key(m.file, Download)} else Queued(v) - {Key(m.file, Download)}
  {
    var w := v.(items := v.items[i := m]);
    forall j | 0 <= j < |v.items| && j != i && Pending(v.items[j]) ensures v.items[j].file != m.file || Pending(m) {
      if Pending(v.items[i]) && v.items[j].file == m.file { OnePending(v, i, j); }
    }
    forall k ensures k in Queued(w) <==> if k == Key(m.file, Download) then Pending(m) else k in Queued(v) {
      QueuedMeans(v, k);
      QueuedMeans(w, k);
      AskingChanges(v, i, m, k.id);
    }
  }

  lemma DownloadRequeues(v: Vault, message: nat, i: nat)
    requires Sound(v) && i < |v.items| && v.items[i].message == message
    ensures Queued(v.(items := Change(v.items, message, true, false)))
         == if Pending(v.items[i]) then Queued(v) - {Key(v.items[i].file, Download)} else Queued(v)
  {
    var m := v.items[i].(stored := true, requested := false);
    ChangedOne(v, i, true, false);
    if Pending(v.items[i]) {
      MessageRequeues(v, i, m);
    } else {
      var w := v.(items := v.items[i := m]);
      forall k ensures k in Queued(w) <==> k in Queued(v) {
        QueuedMeans(v, k);
        QueuedMeans(w, k);
        assert forall n :: Pending(n) ==> (n in v.items <==> n in w.items) by {
          forall n | Pending(n) && n in v.items ensures n in w.items {
            var j :| 0 <= j < |v.items| && v.items[j] == n;
            assert w.items[j] == n;
          }
        }
        SameAsking(v.items, w.items, k.id);
      }
    }
  }

  lemma OthersRequeue(v: Vault, e: Edit)
    requires Sound(v) && Accepted(v, e) && (e.Arrive? || e.Import? || e.Reconcile?)
    ensures Queued(Apply(v, e)) == Queued(v)
  {
    var w := Apply(v, e);
    forall n | Pending(n) ensures n in v.items <==> n in w.items {
      match e {
        case Arrive(_, _) =>
        case Import(added, sorted) =>
          assert n in sorted <==> n in multiset(sorted);
          assert n in multiset(v.items + added) <==> n in v.items + added;
        case Reconcile(found) =>
          if n in v.items {
            var i :| 0 <= i < |v.items| && v.items[i] == n;
            assert w.items[i] == n;
          }
          if n in w.items {
            var i :| 0 <= i < |w.items| && w.items[i] == n;
            assert v.items[i] == n;
          }
      }
    }
    forall k ensures k in Queued(w) <==> k in Queued(v) {
      QueuedMeans(v, k);
      QueuedMeans(w, k);
      SameAsking(v.items, w.items, k.id);
    }
  }

  /** Every edit changes the queue by exactly the file it names. */
  lemma EditRequeues(v: Vault, e: Edit)
    requires Sound(v) && Accepted(v, e)
    ensures Requeues(v, e, Queued(Apply(v, e)))
  {
    match e
    case Request(prefix, i) =>
      ChangedOne(v, i, false, true);
      MessageRequeues(v, i, v.items[i].(stored := false, requested := true));
    case CancelDownload(prefix, i) =>
      ChangedOne(v, i, false, false);
      MessageRequeues(v, i, v.items[i].(stored := false, requested := false));
    case Downloaded(message) =>
      forall i | 0 <= i < |v.items| && v.items[i].message == message
        ensures Queued(Apply(v, e))
             == if Pending(v.items[i]) then Queued(v) - {Key(v.items[i].file, Download)} else Queued(v)
      {
        DownloadRequeues(v, message, i);
      }
    case QueueUpload(_) => UploadsRequeue(v, e);
    case Uploaded(_, _) => UploadsRequeue(v, e);
    case CancelUpload(_) => UploadsRequeue(v, e);
    case _ => OthersRequeue(v, e);
  }
}
