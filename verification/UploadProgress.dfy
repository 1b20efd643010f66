/** The byte and chunk counters of an upload and of a download, reported to the registry
    (crates/mutte-client/src/engine.rs, attachment_chunk_bytes and the two transfer loops). */
module UploadProgress {
  import opened Common
  import opened Transfer

  const CHUNK: nat := 262144

  function ChunkBytes(total: nat, index: nat): nat {
    Min(Max(total - index * CHUNK, 0), CHUNK)
  }

  /** The bytes of the chunks below `n` that are (or are not) in `chosen`. */
  function BytesOf(total: nat, chosen: set<nat>, inside: bool, n: nat): nat {
    if n == 0 then 0
    else BytesOf(total, chosen, inside, n - 1) + if (n - 1 in chosen) == inside then ChunkBytes(total, n - 1) else 0
  }

  function CountOf(chosen: set<nat>, inside: bool, n: nat): nat {
    if n == 0 then 0 else CountOf(chosen, inside, n - 1) + if (n - 1 in chosen) == inside then 1 else 0
  }

  /** The chunks below `n` hold the first `n * CHUNK` bytes of the file, whichever of them
      were already uploaded. */
  lemma {:induction false} ChunksTileTheFile(total: nat, chosen: set<nat>, n: nat)
    ensures BytesOf(total, chosen, true, n) + BytesOf(total, chosen, false, n) == Min(total, n * CHUNK)
    ensures CountOf(chosen, true, n) + CountOf(chosen, false, n) == n
  {
    if n > 0 { ChunksTileTheFile(total, chosen, n - 1); }
  }

  lemma {:induction false} PrefixIsLess(total: nat, chosen: set<nat>, inside: bool, i: nat, n: nat)
    requires i <= n
    ensures BytesOf(total, chosen, inside, i) <= BytesOf(total, chosen, inside, n)
    ensures CountOf(chosen, inside, i) <= CountOf(chosen, inside, n)
  {
    if i < n { PrefixIsLess(total, chosen, inside, i, n - 1); }
  }

  /** The counters before chunk `i`: what the relay had, and the missing chunks below `i`. */
  function BytesBefore(total: nat, uploaded: set<nat>, count: nat, i: nat): nat {
    BytesOf(total, uploaded, true, count) + BytesOf(total, uploaded, false, i)
  }

  function ChunksBefore(uploaded: set<nat>, count: nat, i: nat): nat {
    CountOf(uploaded, true, count) + CountOf(uploaded, false, i)
  }

  lemma CountersAdvance(total: nat, uploaded: set<nat>, count: nat, i: nat)
    requires total <= count * CHUNK && i < count
    ensures BytesBefore(total, uploaded, count, i + 1)
         == BytesBefore(total, uploaded, count, i) + (if i in uploaded then 0 else ChunkBytes(total, i)) <= total
    ensures ChunksBefore(uploaded, count, i + 1) == ChunksBefore(uploaded, count, i) + if i in uploaded then 0 else 1
    ensures BytesBefore(total, uploaded, count, count) == total && ChunksBefore(uploaded, count, count) == count
  {
    ChunksTileTheFile(total, uploaded, count);
    PrefixIsLess(total, uploaded, false, i + 1, count);
  }

  lemma {:induction false} AddOne(total: nat, chosen: set<nat>, k: nat, n: nat)
    requires k !in chosen
    ensures BytesOf(total, chosen + {k}, true, n) == BytesOf(total, chosen, true, n) + if k < n then ChunkBytes(total, k) else 0
    ensures CountOf(chosen + {k}, true, n) == CountOf(chosen, true, n) + if k < n then 1 else 0
  {
    if n > 0 { AddOne(total, chosen, k, n - 1); }
  }

  lemma {:induction false} NoneOf(total: nat, n: nat)
    ensures BytesOf(total, {}, true, n) == 0 && CountOf({}, true, n) == 0
  {
    if n > 0 { NoneOf(total, n - 1); }
  }

  /** The relay's set of finished chunks, summed in any order. */
  method SumUploaded(total: nat, count: nat, uploaded: set<nat>) returns (bytes: nat)
    requires forall i :: i in uploaded ==> i < count
    ensures bytes == BytesOf(total, uploaded, true, count)
    ensures |uploaded| == CountOf(uploaded, true, count)
  {
    bytes := 0;
    var todo := uploaded;
    NoneOf(total, count);
    assert uploaded - todo == {};
    while todo != {}
      invariant todo <= uploaded
      invariant bytes == BytesOf(total, uploaded - todo, true, count)
      invariant |uploaded - todo| == CountOf(uploaded - todo, true, count)
      decreases todo
    {
      var i :| i in todo;
      AddOne(total, uploaded - todo, i, count);
      assert uploaded - todo + {i} == uploaded - (todo - {i});
      bytes := bytes + ChunkBytes(total, i);
      todo := todo - {i};
    }
    assert uploaded - todo == uploaded;
  }

  datatype Result = InvalidStatus | NetworkError | ReadyToCommit

  /** What observers of the progress saw so far: never above the total, never going back. */
  ghost predicate Monotone(seen: seq<nat>, total: nat) {
    && (forall b :: b in seen ==> b <= total)
    && (forall i, j :: 0 <= i < j < |seen| ==> seen[i] <= seen[j])
  }

  /** The attempt that owns the control, and the progress it reported last. */
  ghost predicate Current(reg: ActiveAttachmentTransfers, k: Key, c: AttachmentCancellation, bytes: nat, total: nat)
    reads reg
  {
    && reg.Valid() && k in reg.entries
    && reg.entries[k].active && reg.entries[k].control == c
    && reg.entries[k].progress.Some?
    && reg.entries[k].progress.value.completed == bytes
    && reg.entries[k].progress.value.total == total
  }

  ghost predicate Seen(reg: ActiveAttachmentTransfers, k: Key, c: AttachmentCancellation, seen: seq<nat>, total: nat)
    reads reg
  {
    seen != [] && Monotone(seen, total) && Current(reg, k, c, seen[|seen| - 1], total)
  }

  method TellFirst(reg: ActiveAttachmentTransfers, k: Key, c: AttachmentCancellation, total: nat)
    returns (ok: bool, ghost seen: seq<nat>)
    requires Current(reg, k, c, 0, 0)
    modifies reg`entries
    ensures ok && seen == [0] && Seen(reg, k, c, seen, total)
  {
    ok := reg.ReportProgress(k, c, 0, total, Preparing);
    assert reg.View().entries == reg.entries;
    seen := [0];
  }

  method Tell(reg: ActiveAttachmentTransfers, k: Key, c: AttachmentCancellation, bytes: nat, total: nat,
              phase: Phase, ghost seen: seq<nat>)
    returns (ok: bool, ghost seen': seq<nat>)
    requires Seen(reg, k, c, seen, total) && seen[|seen| - 1] <= bytes <= total
    modifies reg`entries
    ensures ok && seen' == seen + [bytes] && Seen(reg, k, c, seen', total)
    ensures reg.entries[k].progress.value.phase == phase
  {
    ok := reg.ReportProgress(k, c, bytes, total, phase);
    assert reg.View().entries == reg.entries;
    seen' := seen + [bytes];
  }

  /** The upload after its status request. `lost` holds the chunks whose request fails. */
  method UploadChunks(reg: ActiveAttachmentTransfers, k: Key, c: AttachmentCancellation, total: nat, count: nat,
                      uploaded: set<nat>, complete: bool, lost: set<nat>)
    returns (r: Result, accepted: bool, finished: nat, ghost seen: seq<nat>)
    requires Current(reg, k, c, 0, 0) && total <= count * CHUNK
    modifies reg`entries
    ensures accepted && Seen(reg, k, c, seen, total)
    ensures r == InvalidStatus <==> exists i :: i in uploaded && i >= count
    ensures r == NetworkError ==> !complete && exists i :: i in lost && i < count && i !in uploaded
    ensures r == ReadyToCommit ==> Current(reg, k, c, total, total)
    ensures r == ReadyToCommit ==> reg.entries[k].progress.value.phase == Finalizing
    ensures r == ReadyToCommit && !complete ==> finished == count
    ensures r != InvalidStatus ==>
              |seen| > 1 && seen[1] == if complete then total else BytesOf(total, uploaded, true, count)
  {
    finished := 0;
    accepted, seen := TellFirst(reg, k, c, total);
    if exists i :: i in uploaded && i >= count {
      return InvalidStatus, accepted, finished, seen;
    }
    var bytes := SumUploaded(total, count, uploaded);
    finished := |uploaded|;
    ChunksTileTheFile(total, uploaded, count);
    if complete { bytes := total; }
    var ok;
    ok, seen := Tell(reg, k, c, bytes, total, Transferring, seen);
    accepted := accepted && ok;
    if !complete {
      r, ok, finished, seen := UploadMissing(reg, k, c, total, count, uploaded, lost, bytes, finished, seen);
      accepted := accepted && ok;
      if r == NetworkError { return; }
      ok, seen := Tell(reg, k, c, total, total, Finalizing, seen);
      accepted := accepted && ok;
    }
    ok, seen := Tell(reg, k, c, total, total, Finalizing, seen);
    accepted := accepted && ok;
    r := ReadyToCommit;
  }

  method UploadMissing(reg: ActiveAttachmentTransfers, k: Key, c: AttachmentCancellation, total: nat, count: nat,
                       uploaded: set<nat>, lost: set<nat>, bytes0: nat, finished0: nat, ghost before: seq<nat>)
    returns (r: Result, accepted: bool, finished: nat, ghost seen: seq<nat>)
    requires Seen(reg, k, c, before, total) && before[|before| - 1] == bytes0 && total <= count * CHUNK
    requires bytes0 == BytesBefore(total, uploaded, count, 0) && finished0 == ChunksBefore(uploaded, count, 0)
    modifies reg`entries
    ensures accepted && before <= seen && Seen(reg, k, c, seen, total)
    ensures r == if exists i :: i in lost && i < count && i !in uploaded then NetworkError else ReadyToCommit
    ensures r == ReadyToCommit ==> seen[|seen| - 1] == total && finished == count
  {
    accepted, finished, seen := true, finished0, before;
    var bytes := bytes0;
    var i := 0;
    ChunksTileTheFile(total, uploaded, count);
    while i < count
      invariant i <= count && accepted
      invariant forall l :: l in lost && l < i ==> l in uploaded
      invariant bytes == BytesBefore(total, uploaded, count, i) && finished == ChunksBefore(uploaded, count, i)
      invariant before <= seen && Seen(reg, k, c, seen, total) && seen[|seen| - 1] == bytes
    {
      CountersAdvance(total, uploaded, count, i);
      if i !in uploaded {
        if i in lost { return NetworkError, accepted, finished, seen; }
        bytes := bytes + ChunkBytes(total, i);
        finished := finished + 1;
        var ok;
        ok, seen := Tell(reg, k, c, bytes, total, Transferring, seen);
        accepted := accepted && ok;
      }
      i := i + 1;
    }
    r := ReadyToCommit;
  }

  /** A resumed download reports whole chunks, cut off at the file's size, and announces each
      chunk it writes; a file already on disk is only recorded. */
  method DownloadChunks(reg: ActiveAttachmentTransfers, k: Key, c: AttachmentCancellation, total: nat, count: nat,
                        existing: bool, resumed: nat, lost: set<nat>)
    returns (r: Result, accepted: bool, events: seq<nat>, ghost seen: seq<nat>)
    requires Current(reg, k, c, 0, 0) && total <= count * CHUNK && resumed <= count
    modifies reg`entries
    ensures accepted && Seen(reg, k, c, seen, total)
    ensures r == if !existing && exists i :: i in lost && resumed <= i < count then NetworkError else ReadyToCommit
    ensures r == ReadyToCommit ==> Current(reg, k, c, total, total)
    ensures r == ReadyToCommit ==> reg.entries[k].progress.value.phase == Finalizing
    ensures forall i :: 0 <= i < |events| ==> events[i] == resumed + 1 + i <= count
    ensures r == ReadyToCommit ==> |events| == if existing then 0 else count - resumed
  {
    var ok;
    events := [];
    accepted, seen := TellFirst(reg, k, c, total);
    if existing {
      ok, seen := Tell(reg, k, c, total, total, Finalizing, seen);
      return ReadyToCommit, accepted && ok, events, seen;
    }
    var next := resumed;
    ok, seen := Tell(reg, k, c, Min(next * CHUNK, total), total, Transferring, seen);
    accepted := accepted && ok;
    while next < count
      invariant resumed <= next <= count && accepted
      invariant forall i :: i in lost ==> !(resumed <= i < next)
      invariant Seen(reg, k, c, seen, total) && seen[|seen| - 1] == Min(next * CHUNK, total)
      invariant |events| == next - resumed
      invariant forall i :: 0 <= i < |events| ==> events[i] == resumed + 1 + i
    {
      if next in lost { return NetworkError, accepted, events, seen; }
      next := next + 1;
      ok, seen := Tell(reg, k, c, Min(next * CHUNK, total), total, Transferring, seen);
      accepted := accepted && ok;
      events := events + [next];
    }
    ok, seen := Tell(reg, k, c, total, total, Finalizing, seen);
    accepted := accepted && ok;
    r := ReadyToCommit;
  }
}
