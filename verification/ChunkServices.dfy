/**
 The services under the buffer: the chunk store, the inode row with its chunk lifecycle, and
 the read cache.
 */
module ChunkServices {
  import opened Bytes
  import opened BufferImage

  /** metadata.MaxChunkAllocationBatch. */
  const MAX_BATCH: nat := 1024

  /** The in-process chunk store. */
  class MemoryChunkStore {
    var chunks: map<int, seq<Byte>>

    constructor ()
      ensures chunks == map[]
    {
      chunks := map[];
    }

    /** Stores a payload; a write hook that fails leaves the store untouched. */
    method WriteChunk(id: int, data: seq<Byte>, hookOk: bool) returns (ok: bool)
      modifies this
      ensures ok == hookOk
      ensures chunks == if ok then old(chunks)[id := data] else old(chunks)
    {
      if hookOk {
        chunks := chunks[id := data];
      }
      ok := hookOk;
    }

    /** An empty range, or one outside the payload, returns the whole payload and no error. */
    method ReadChunkRange(id: int, offset: int, length: int) returns (r: Result<seq<Byte>>)
      ensures r.Err? <==> id !in chunks
      ensures r.Ok? && 0 <= offset && 0 < length && offset + length <= |chunks[id]| ==>
                r.value == chunks[id][offset..offset + length]
      ensures r.Ok? && (length <= 0 || offset < 0 || offset + length > |chunks[id]|) ==> r.value == chunks[id]
    {
      if id !in chunks {
        return Err;
      }
      var data := chunks[id];
      if length <= 0 || offset < 0 || offset + length > |data| {
        return Ok(data);
      }
      return Ok(data[offset..offset + length]);
    }
  }

  /** One inode row and the chunk lifecycle the buffer uses. */
  class InodeService {
    var refs: seq<ChunkRef>
    var size: int
    var nextID: int
    var tombstones: set<int>

    constructor ()
      ensures refs == [] && size == 0 && nextID == 1 && tombstones == {}
    {
      refs, size, nextID, tombstones := [], 0, 1, {};
    }

    /** Allocation derives one fresh chunk ID per offset and appends a zero-length reference
        for each to the inode; a batch over the limit is refused. */
    method AllocateChunksBatch(offsets: seq<int>, raftOk: bool) returns (r: Result<seq<int>>)
      modifies this
      ensures r.Ok? <==> |offsets| <= MAX_BATCH && raftOk
      ensures size == old(size) && tombstones == old(tombstones)
      ensures r.Err? ==> refs == old(refs) && nextID == old(nextID)
      ensures r.Ok? ==>
                && |r.value| == |offsets|
                && nextID == old(nextID) + |offsets|
                && (forall i :: 0 <= i < |offsets| ==> r.value[i] == old(nextID) + i)
                && refs == old(refs) + Pending(offsets, r.value)
    {
      if |offsets| > MAX_BATCH || !raftOk {
        return Err;
      }
      var first := nextID;
      var ids := seq(|offsets|, i => first + i);
      refs := refs + Pending(offsets, ids);
      nextID := nextID + |offsets|;
      r := Ok(ids);
    }

    /** The reference-checked tombstone behind DeleteChunk: a referenced chunk is left alone. */
    method DeleteChunk(id: int)
      modifies this`tombstones
      ensures tombstones == if Referenced(refs, id) then old(tombstones) else old(tombstones) + {id}
    {
      var referenced := false;
      for i := 0 to |refs|
        invariant referenced <==> Referenced(refs[..i], id)
      {
        assert refs[..i + 1] == refs[..i] + [refs[i]];
        if refs[i].id == id {
          referenced := true;
        }
      }
      assert refs[..|refs|] == refs;
      if !referenced {
        tombstones := tombstones + {id};
      }
    }
  }

  ghost predicate Referenced(refs: seq<ChunkRef>, id: int) {
    exists c :: c in refs && c.id == id
  }

  /** The placeholder references of freshly allocated chunks. */
  function Pending(offsets: seq<int>, ids: seq<int>): (r: seq<ChunkRef>)
    requires |offsets| == |ids|
    ensures |r| == |offsets|
    ensures forall i :: 0 <= i < |r| ==> r[i] == ChunkRef(ids[i], offsets[i], 0)
  {
    seq(|offsets|, i requires 0 <= i < |offsets| => ChunkRef(ids[i], offsets[i], 0))
  }

  /** Which steps of one Flush the environment lets succeed. */
  datatype Faults = Faults(
    batchOk: nat -> bool, loadOk: nat -> bool, writeOk: nat -> bool, chunkCommitOk: nat -> bool, commitOk: bool)

  /** The position of a base among the bases in increasing order. */
  ghost function Rank(bases: set<int>, b: int): nat { |set c | c in bases && c < b| }

  /** Everything a flush of these dirty bases needs goes through: each allocation batch, the load
      of each base without a buffer, each write and chunk commit, and the inode commit. */
  ghost predicate GoesThrough(f: Faults, dirty: set<int>, resident: set<int>) {
    BatchesGo(f.batchOk, |dirty|) && (forall b :: b in dirty ==> ChunkGoes(f, resident, b, Rank(dirty, b))) && f.commitOk
  }

  /** Every batch that n allocations take. */
  ghost predicate BatchesGo(batchOk: nat -> bool, n: nat) { forall i: nat :: i * MAX_BATCH < n ==> batchOk(i) }

  predicate ChunkGoes(f: Faults, resident: set<int>, b: int, i: nat) {
    (b in resident || f.loadOk(i)) && f.writeOk(i) && f.chunkCommitOk(i)
  }

  /** The same for the dirty bases in the order a flush takes them. */
  ghost predicate ChunksGo(f: Faults, resident: set<int>, bases: seq<int>) {
    forall i :: 0 <= i < |bases| ==> ChunkGoes(f, resident, bases[i], i)
  }

  /** `ids` counts up from `first`: what allocation hands out. */
  ghost predicate CountsFrom(ids: seq<int>, first: int) {
    forall i :: 0 <= i < |ids| ==> ids[i] == first + i
  }

  /** Allocates one chunk per offset in sub-batches of at most MAX_BATCH, so no batch is ever
      refused for its size.  A failed sub-batch leaves the earlier ones allocated. */
  method AllocateRanges(meta: InodeService, offsets: seq<int>, batchOk: nat -> bool)
    returns (ok: bool, ids: seq<int>)
    modifies meta
    ensures meta.size == old(meta.size) && meta.tombstones == old(meta.tombstones)
    ensures |ids| <= |offsets| && CountsFrom(ids, old(meta.nextID))
    ensures meta.nextID == old(meta.nextID) + |ids|
    ensures meta.refs == old(meta.refs) + Pending(offsets[..|ids|], ids)
    ensures ok ==> |ids| == |offsets|
    ensures ok <==> BatchesGo(batchOk, |offsets|)
    ensures !ok ==> exists i: nat :: |ids| == i * MAX_BATCH && !batchOk(i)
  {
    hide Pending;
    ids := [];
    var start, batch := 0, 0;
    PendingNone(offsets);
    while start < |offsets|
      invariant 0 <= start <= |offsets| && |ids| == start == Min(batch * MAX_BATCH, |offsets|)
      invariant forall i: nat :: i < batch ==> batchOk(i)
      invariant meta.size == old(meta.size) && meta.tombstones == old(meta.tombstones)
      invariant CountsFrom(ids, old(meta.nextID)) && meta.nextID == old(meta.nextID) + start
      invariant meta.refs == old(meta.refs) + Pending(offsets[..start], ids)
    {
      var end := Min(start + MAX_BATCH, |offsets|);
      var r := meta.AllocateChunksBatch(offsets[start..end], batchOk(batch));
      if r.Err? {
        return false, ids;
      }
      PendingAppend(old(meta.refs), offsets, start, end, ids, r.value);
      ids := ids + r.value;
      start, batch := end, batch + 1;
    }
    ok := true;
  }

  lemma PendingNone(offsets: seq<int>)
    ensures Pending(offsets[..0], []) == []
  {
  }

  lemma PendingAppend(refs: seq<ChunkRef>, offsets: seq<int>, start: nat, end: nat, ids: seq<int>, more: seq<int>)
    requires start <= end <= |offsets| && |ids| == start && |more| == end - start
    ensures refs + Pending(offsets[..start], ids) + Pending(offsets[start..end], more) ==
            refs + Pending(offsets[..end], ids + more)
  {
    assert Pending(offsets[..start], ids) + Pending(offsets[start..end], more) == Pending(offsets[..end], ids + more);
  }

  /** Stores one allocated chunk and commits it; the reference describes what was stored. */
  method WriteAllocated(store: MemoryChunkStore, id: int, offset: int, data: seq<Byte>, writeOk: bool, chunkCommitOk: bool)
    returns (r: Result<ChunkRef>)
    modifies store
    ensures r.Ok? <==> writeOk && chunkCommitOk
    ensures r.Ok? ==> r.value == ChunkRef(id, offset, |data|)
    ensures store.chunks == if writeOk then old(store.chunks)[id := data] else old(store.chunks)
  {
    var stored := store.WriteChunk(id, data, writeOk);
    if !stored || !chunkCommitOk {
      return Err;
    }
    r := Ok(ChunkRef(id, offset, |data|));
  }

  /** The read cache: windows of chunk payloads by (chunk ID, offset in the chunk). */
  class ReadCache {
    var windows: map<(int, int), seq<Byte>>

    constructor ()
      ensures windows == map[]
    {
      windows := map[];
    }

    /** Adds one window; the eviction policy may drop any other. */
    method Add(id: int, offset: int, window: seq<Byte>, dropped: set<(int, int)>)
      modifies this
      ensures windows == (old(windows) - dropped)[(id, offset) := window]
    {
      windows := (windows - dropped)[(id, offset) := window];
    }
  }

  /** Every cached window is a non-empty piece of a stored payload. */
  ghost predicate WindowsOk(windows: map<(int, int), seq<Byte>>, chunks: map<int, seq<Byte>>) {
    forall k :: k in windows ==>
      && k.0 in chunks && 0 <= k.1 && 0 < |windows[k]| && k.1 + |windows[k]| <= |chunks[k.0]|
      && windows[k] == chunks[k.0][k.1..k.1 + |windows[k]|]
  }

  lemma WindowsKept(windows: map<(int, int), seq<Byte>>, chunks: map<int, seq<Byte>>, chunks': map<int, seq<Byte>>)
    requires WindowsOk(windows, chunks)
    requires forall id :: id in chunks ==> id in chunks' && chunks'[id] == chunks[id]
    ensures WindowsOk(windows, chunks')
  {
    forall k | k in windows ensures k.0 in chunks' && chunks'[k.0] == chunks[k.0] {
      var id: int := k.0;
      assert id in chunks;
      assert id in chunks' && chunks'[id] == chunks[id];
    }
  }

  /** No referenced chunk is tombstoned, every ID in use was handed out already, and no two
      references hold bytes at one base. */
  ghost predicate Live(refs: seq<ChunkRef>, nextID: int, tombstones: set<int>, chunks: map<int, seq<Byte>>) {
    && (forall c :: c in refs ==> c.id < nextID && c.id !in tombstones)
    && (forall id :: id in tombstones ==> id < nextID)
    && (forall id :: id in chunks ==> id < nextID)
    && OnePerBase(refs)
  }
}
