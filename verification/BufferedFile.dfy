/**
 The portable write-back buffer over committed chunks: lazily hydrated chunk buffers, a
 dirty budget with disk spill, the merged read view, and Flush.
 */
module BufferedFile {
  import opened Bytes
  import opened BufferImage
  import opened BufferReads
  import opened BufferOps
  import opened BufferFlush
  import opened BufferSpill
  import opened ChunkServices

  class BufferedFile {
    const meta: InodeService
    const store: MemoryChunkStore
    /** Budget: 0 is unlimited, and an unset staging directory disables spill. */
    const maxDirty: int
    const globalBudget: int
    const staging: bool
    const cache: ReadCache?

    var dirty: bool
    var chunkBufs: map<int, seq<Byte>>
    var dirtyMap: set<int>
    var dirtyBytes: int
    var spilledChunks: map<int, seq<Byte>>
    var spilledBytes: int
    var globalDirty: int
    var logicalSize: int

    ghost function State(): FileState
      reads this, meta, store
    {
      FileState(meta.refs, meta.size, store.chunks, chunkBufs, spilledChunks, dirtyMap, logicalSize)
    }

    ghost predicate CacheOk()
      reads cache, store
    {
      cache != null ==> WindowsOk(cache.windows, store.chunks)
    }

    /** dirtyBytes is the total length of the resident buffers. */
    ghost predicate Counted()
      reads this`dirtyBytes, this`chunkBufs
    {
      dirtyBytes == CHUNK * |chunkBufs| && Sized(chunkBufs)
    }

    ghost predicate Flagged()
      reads this
    {
      (dirtyMap != {} ==> dirty) && (!staging ==> spilledChunks == map[])
    }

    ghost predicate LiveRefs()
      reads meta`refs, meta`nextID, meta`tombstones, store
    {
      Live(meta.refs, meta.nextID, meta.tombstones, store.chunks)
    }

    ghost predicate Inv()
      reads this, meta, store, cache
    {
      BufferImage.Valid(State()) && Counted() && Flagged() && LiveRefs() && CacheOk()
    }

    /** The flat byte array the file stands for. */
    ghost function Contents(): seq<Byte>
      requires Inv()
      reads this, meta, store, cache
    {
      Image(State())
    }

    /** The buffer of `evicted` has gone from memory to the staging directory. */
    ghost predicate Moved(bufs: map<int, seq<Byte>>, spilled: map<int, seq<Byte>>, evicted: Option<int>)
      reads this`chunkBufs, this`spilledChunks
    {
      if evicted.None? then chunkBufs == bufs && spilledChunks == spilled
      else
        && evicted.value in bufs
        && chunkBufs == bufs - {evicted.value} && spilledChunks == spilled[evicted.value := bufs[evicted.value]]
    }

    /** The lowest dirty base, if its buffer is resident. */
    ghost function Oldest(): Option<int>
      reads this`dirtyMap, this`chunkBufs
    {
      OldestOf(dirtyMap, chunkBufs.Keys)
    }

    /** The base that the budget test of a write to [off, end) evicts: the oldest one, when the
        write does not fit and one of the two spill attempts can reach the disk. */
    ghost function Victim(off: int, end: int, diskOk: bool, diskOkAgain: bool): Option<int>
      reads this
    {
      var needed := CHUNK * |NewBases(chunkBufs, off, end)|;
      if 0 < maxDirty < dirtyBytes + needed && SpillReaches(needed, diskOk, diskOkAgain) then Oldest() else None
    }

    /** One of the two spill attempts is made and can write its file. */
    predicate SpillReaches(needed: int, diskOk: bool, diskOkAgain: bool)
      reads this`globalDirty
    {
      staging && (diskOk || (diskOkAgain && 0 < globalBudget < globalDirty + needed))
    }

    /** The budget admits a write to [off, end) once its victim is gone. */
    ghost predicate Admits(off: int, end: int, diskOk: bool, diskOkAgain: bool)
      reads this
    {
      var freed := if Victim(off, end, diskOk, diskOkAgain).Some? then CHUNK else 0;
      0 < maxDirty ==> dirtyBytes - freed + CHUNK * |NewBases(chunkBufs, off, end)| <= maxDirty
    }

    constructor (maxDirty: int, globalBudget: int, staging: bool, cached: bool)
      ensures Inv() && fresh(meta) && fresh(store) && (cached ==> cache != null && fresh(cache))
      ensures this.maxDirty == maxDirty && this.globalBudget == globalBudget && this.staging == staging
      ensures State() == NewFile() && !dirty
    {
      this.maxDirty, this.globalBudget, this.staging := maxDirty, globalBudget, staging;
      meta := new InodeService();
      store := new MemoryChunkStore();
      if cached {
        cache := new ReadCache();
      } else {
        cache := null;
      }
      dirty, chunkBufs, dirtyMap, dirtyBytes := false, map[], {}, 0;
      spilledChunks, spilledBytes, globalDirty, logicalSize := map[], 0, 0, 0;
    }

    // ---------- buffer-image helpers ----------

    method GetChunk(base: int) returns (c: seq<Byte>)
      requires Counted()
      modifies this`chunkBufs, this`dirtyBytes
      ensures Counted()
      ensures c == if base in old(chunkBufs) then old(chunkBufs)[base] else Zeros(CHUNK)
      ensures chunkBufs == old(chunkBufs)[base := c]
    {
      if base in chunkBufs {
        c := chunkBufs[base];
        assert chunkBufs == chunkBufs[base := c];
      } else {
        c := Zeros(CHUNK);
        assert |chunkBufs[base := c].Keys| == |chunkBufs.Keys + {base}|;
        chunkBufs := chunkBufs[base := c];
        dirtyBytes := dirtyBytes + CHUNK;
      }
    }

    /** Moves one buffer to the staging directory; the chunk stays dirty. */
    method SpillToDisk(base: int, writeOk: bool) returns (ok: bool, ghost moved: Option<int>)
      requires Counted()
      modifies this`chunkBufs, this`dirtyBytes, this`spilledChunks, this`spilledBytes, this`globalDirty
      ensures Counted()
      ensures ok <==> staging && (base in old(chunkBufs) ==> writeOk)
      ensures moved == if ok && base in old(chunkBufs) then Some(base) else None
      ensures Moved(old(chunkBufs), old(spilledChunks), moved)
      ensures dirtyBytes == old(dirtyBytes) - Freed(moved) && globalDirty == old(globalDirty) - Freed(moved)
      ensures spilledBytes == old(spilledBytes) + Freed(moved)
    {
      if !staging {
        return false, None;
      }
      if base !in chunkBufs {
        return true, None;
      }
      if !writeOk {
        return false, None;
      }
      var buf := chunkBufs[base];
      assert |(chunkBufs - {base}).Keys| == |chunkBufs.Keys - {base}|;
      chunkBufs := chunkBufs - {base};
      dirtyBytes := dirtyBytes - |buf|;
      spilledBytes := spilledBytes + |buf|;
      globalDirty := globalDirty - |buf|;
      spilledChunks := spilledChunks[base := buf];
      ok, moved := true, Some(base);
    }

    /** Pulls a spilled chunk back into memory; only Flush does this. */
    method LoadFromDisk(base: int)
      requires Counted() && BuffersOk(spilledChunks)
      requires base in spilledChunks && base !in chunkBufs
      modifies this`chunkBufs, this`dirtyBytes, this`spilledChunks, this`spilledBytes, this`globalDirty
      ensures Counted()
      ensures chunkBufs == old(chunkBufs)[base := old(spilledChunks)[base]]
      ensures spilledChunks == old(spilledChunks) - {base}
      ensures spilledBytes == old(spilledBytes) - CHUNK && globalDirty == old(globalDirty) + CHUNK
    {
      var data := spilledChunks[base];
      spilledChunks := spilledChunks - {base};
      spilledBytes := spilledBytes - |data|;
      assert |chunkBufs[base := data].Keys| == |chunkBufs.Keys + {base}|;
      chunkBufs := chunkBufs[base := data];
      dirtyBytes := dirtyBytes + |data|;
      globalDirty := globalDirty + |data|;
    }

    /** Spills the lowest dirty base, if its buffer is resident. */
    method SpillOldestChunk(writeOk: bool) returns (ok: bool, ghost moved: Option<int>)
      requires Counted() && (forall b :: b in dirtyMap ==> 0 <= b)
      modifies this`chunkBufs, this`dirtyBytes, this`spilledChunks, this`spilledBytes, this`globalDirty
      ensures Counted()
      ensures moved == if staging && writeOk then old(Oldest()) else None
      ensures Moved(old(chunkBufs), old(spilledChunks), moved)
      ensures dirtyBytes == old(dirtyBytes) - Freed(moved) && globalDirty == old(globalDirty) - Freed(moved)
    {
      hide Counted;
      var lowest := Lowest(dirtyMap);
      OldestIs(dirtyMap, chunkBufs.Keys, lowest);
      if !staging || |chunkBufs| == 0 || lowest < 0 {
        return true, None;
      }
      ok, moved := SpillToDisk(lowest, writeOk);
    }

    // ---------- hydration ----------

    /** Copies one reference's payload over the buffer of its base. */
    method MergeCommitted(base: int, cref: ChunkRef)
      requires Counted()
      requires cref.offset == base && 0 < cref.length <= CHUNK
      requires cref.id in store.chunks && |store.chunks[cref.id]| == cref.length
      modifies this`chunkBufs, this`dirtyBytes
      ensures Counted()
      ensures chunkBufs == old(chunkBufs)[base :=
                Overlay(if base in old(chunkBufs) then old(chunkBufs)[base] else Zeros(CHUNK), 0, store.chunks[cref.id])]
    {
      var buf := GetChunk(base);
      var rel := cref.offset - base;
      var n := Min(cref.length, CHUNK - rel);
      var r := store.ReadChunkRange(cref.id, rel, n);
      assert r.value == store.chunks[cref.id];
      chunkBufs := chunkBufs[base := Overlay(buf, rel, r.value)];
    }

    /** Loads the committed bytes of one chunk into a new buffer, if any reference overlaps
        it.  The payload may be shorter than the chunk; the rest of the buffer is zero. */
    method LoadCommittedChunk(base: int)
      requires Counted() && RefsOk(meta.refs, store.chunks)
      requires base !in chunkBufs && base % CHUNK == 0
      modifies this`chunkBufs, this`dirtyBytes
      ensures Counted()
      ensures chunkBufs == HydrateOne(meta.refs, store.chunks, old(chunkBufs), base)
    {
      var refs := meta.refs;
      ghost var found := None;
      for i := 0 to |refs|
        invariant Counted()
        invariant found.None? ==> chunkBufs == old(chunkBufs) && forall j :: 0 <= j < i ==> !InBase(refs[j], base)
        invariant found.Some? ==>
                    && found.value in refs && InBase(found.value, base)
                    && found.value.id in store.chunks && |store.chunks[found.value.id]| <= CHUNK
                    && chunkBufs == old(chunkBufs)[base := Overlay(Zeros(CHUNK), 0, store.chunks[found.value.id])]
      {
        if InBase(refs[i], base) {
          HydratedChunk(refs, store.chunks, base, refs[i]);
          if found.Some? {
            HydratedChunk(refs, store.chunks, base, found.value);
            OverlayTwice(Zeros(CHUNK), store.chunks[refs[i].id]);
          }
          MergeCommitted(base, refs[i]);
          found := Some(refs[i]);
        }
      }
      if found.Some? {
        HydratedChunk(refs, store.chunks, base, found.value);
        HydratedChunk(refs, store.chunks, base, RefFor(refs, base).value);
      } else {
        assert RefFor(refs, base).None?;
      }
    }

    // ---------- write path ----------

    /** How many chunk buffers a write to [off, end) would have to allocate. */
    method CountNewBases(off: int, end: int) returns (n: nat)
      ensures n == |NewBases(chunkBufs, off, end)|
    {
      var newBases: set<int> := {};
      var pos := off;
      while pos < end
        invariant newBases + NewBases(chunkBufs, pos, end) == NewBases(chunkBufs, off, end)
      {
        var base := ChunkBase(pos);
        if base !in chunkBufs {
          newBases := newBases + {base};
        }
        pos := Next(pos, end);
      }
      n := |newBases|;
    }

    /** Gives every chunk of [off, end) a buffer holding its committed bytes, except chunks
        nothing is committed in. */
    method HydrateRange(off: int, end: int)
      requires Counted() && RefsOk(meta.refs, store.chunks)
      modifies this`chunkBufs, this`dirtyBytes
      ensures Counted()
      ensures chunkBufs == HydrateFrom(meta.refs, store.chunks, old(chunkBufs), off, end)
    {
      var pos := off;
      while pos < end
        invariant Counted()
        invariant HydrateFrom(meta.refs, store.chunks, chunkBufs, pos, end) ==
                  HydrateFrom(meta.refs, store.chunks, old(chunkBufs), off, end)
      {
        var base := ChunkBase(pos);
        if base !in chunkBufs {
          LoadCommittedChunk(base);
        }
        pos := Next(pos, end);
      }
    }

    /** Copies the piece of `data` that falls in the chunk holding `pos`. */
    method CopyPiece(data: seq<Byte>, off: int, pos: int) returns (n: int)
      requires Counted() && off <= pos < off + |data|
      modifies this`chunkBufs, this`dirtyBytes
      ensures Counted()
      ensures chunkBufs == CopyOne(old(chunkBufs), data, off, pos)
      ensures pos + n == Next(pos, off + |data|)
    {
      var base := ChunkBase(pos);
      var buf := GetChunk(base);
      var within := pos - base;
      n := Min(|data| - (pos - off), |buf| - within);
      chunkBufs := chunkBufs[base := Overlay(buf, within, data[pos - off..pos - off + n])];
    }

    /** Copies `data` into the chunk buffers and marks them dirty. */
    method CopyRange(data: seq<Byte>, off: int)
      requires Counted()
      modifies this`chunkBufs, this`dirtyBytes, this`dirtyMap, this`dirty
      ensures Counted()
      ensures chunkBufs == CopyFrom(old(chunkBufs), data, off, off)
      ensures dirtyMap == old(dirtyMap) + NewBases(map[], off, off + |data|)
      ensures dirty == (old(dirty) || data != [])
    {
      hide CopyFrom, CopyOne, NewBases;
      var end := off + |data|;
      var pos := off;
      while pos < end
        invariant off <= pos <= end
        invariant Counted()
        invariant CopyFrom(chunkBufs, data, off, pos) == CopyFrom(old(chunkBufs), data, off, off)
        invariant dirtyMap + NewBases(map[], pos, end) == old(dirtyMap) + NewBases(map[], off, end)
        invariant dirty == (old(dirty) || off < pos)
      {
        CopyFromNext(chunkBufs, data, off, pos);
        UnionStep(dirtyMap, ChunkBase(pos), NewBases(map[], Next(pos, end), end), NewBases(map[], pos, end),
          old(dirtyMap) + NewBases(map[], off, end));
        var n := CopyPiece(data, off, pos);
        dirtyMap, dirty := dirtyMap + {ChunkBase(pos)}, true;
        pos := pos + n;
      }
      CopyDone(chunkBufs, data, off, pos);
      UnionDone(dirtyMap, NewBases(map[], pos, end), old(dirtyMap) + NewBases(map[], off, end));
    }

    /** Two attempts to spill the oldest dirty chunk: the second, for the global budget, finds
        the same chunk, so they move at most one buffer. */
    method SpillForBudgets(needed: int, diskOk: bool, diskOkAgain: bool) returns (ghost moved: Option<int>)
      requires Counted() && (forall b :: b in dirtyMap ==> 0 <= b)
      modifies this`chunkBufs, this`dirtyBytes, this`spilledChunks, this`spilledBytes, this`globalDirty
      ensures Counted()
      ensures moved == if old(SpillReaches(needed, diskOk, diskOkAgain)) then old(Oldest()) else None
      ensures Moved(old(chunkBufs), old(spilledChunks), moved)
      ensures dirtyBytes == old(dirtyBytes) - Freed(moved)
    {
      hide Counted, OldestOf;
      OldestGone(dirtyMap, chunkBufs.Keys);
      var spilled;
      spilled, moved := SpillOldestChunk(diskOk);
      if 0 < globalBudget && globalDirty + needed > globalBudget {
        ghost var again;
        spilled, again := SpillOldestChunk(diskOkAgain);
        moved := if moved.Some? then moved else again;
      }
    }

    /** The dirty budget: spill the oldest dirty chunk if the write does not fit, and refuse
        the write if it still does not. */
    method MakeRoom(off: int, end: int, diskOk: bool, diskOkAgain: bool)
      returns (ok: bool, ghost moved: Option<int>)
      requires Counted() && (forall b :: b in dirtyMap ==> 0 <= b)
      modifies this`chunkBufs, this`dirtyBytes, this`spilledChunks, this`spilledBytes, this`globalDirty
      ensures Counted()
      ensures moved == old(Victim(off, end, diskOk, diskOkAgain))
      ensures Moved(old(chunkBufs), old(spilledChunks), moved)
      ensures ok == old(Admits(off, end, diskOk, diskOkAgain))
      ensures ok && 0 < maxDirty ==> dirtyBytes + CHUNK * |NewBases(old(chunkBufs), off, end)| <= maxDirty
    {
      hide Counted, NewBases, OldestOf;
      moved := None;
      ok := true;
      if 0 < maxDirty {
        var newBases := CountNewBases(off, end);
        var needed := newBases * CHUNK;
        if dirtyBytes + needed > maxDirty {
          moved := SpillForBudgets(needed, diskOk, diskOkAgain);
          ok := dirtyBytes + needed <= maxDirty;
        }
      }
    }

    /** Hydrates the range of a write, copies the data and raises the logical size. */
    method BufferRange(data: seq<Byte>, off: int)
      requires Counted() && Shape(State())
      modifies this`chunkBufs, this`dirtyBytes, this`dirtyMap, this`dirty, this`logicalSize
      ensures Counted()
      ensures State() == Wrote(old(State()), off, data).(logical := Max(old(logicalSize), off + |data|))
      ensures dirty == (old(dirty) || data != [])
      ensures data == [] ==> dirtyMap == old(dirtyMap)
    {
      NoBases(off);
      hide CopyFrom, HydrateFrom, NewBases, RefsOk, BuffersOk;
      var end := off + |data|;
      HydrateRange(off, end);
      CopyRange(data, off);
      if end > logicalSize {
        logicalSize := end;
      }
    }

    /** writeLocked: room first, then the buffers. */
    method WriteLocked(data: seq<Byte>, off: int, diskOk: bool, diskOkAgain: bool)
      returns (ok: bool, ghost evicted: Option<int>)
      requires Counted() && Flagged() && Shape(State()) && (forall b :: b in dirtyMap ==> 0 <= b)
      modifies this
      ensures Counted() && Flagged()
      ensures evicted == old(Victim(off, off + |data|, diskOk, diskOkAgain))
      ensures evicted.Some? ==> evicted.value in old(dirtyMap) && evicted.value in old(chunkBufs)
      ensures ok == old(Admits(off, off + |data|, diskOk, diskOkAgain))
      ensures !ok ==> State() == Spilled(old(State()), evicted)
      ensures ok ==> State() == Written(old(State()), evicted, off, data)
      ensures ok && 0 < maxDirty ==> dirtyBytes <= maxDirty + CHUNK
      ensures dirty <==> old(dirty) || (ok && data != [])
    {
      hide NewBases, Wrote, OldestOf;
      OldestGone(dirtyMap, chunkBufs.Keys);
      ok, evicted := MakeRoom(off, off + |data|, diskOk, diskOkAgain);
      assert State() == Spilled(old(State()), evicted);
      if ok {
        BufferRange(data, off);
        RoomBound(old(State()), evicted, off, data);
      }
    }

    /** Buffers `data` at `off`, unless the budget refuses it.  The image becomes the old one with
        the data spliced in, when no touched chunk that is in the staging directory, or that
        this write sends there, is overwritten in part: such a chunk is rebuilt from the
        committed bytes, so its buffered bytes are forgotten. */
    method Write(data: seq<Byte>, off: int, diskOk: bool, diskOkAgain: bool)
      returns (ok: bool, ghost evicted: Option<int>)
      requires Inv() && 0 <= off
      modifies this
      ensures Inv()
      ensures evicted == old(Victim(off, off + |data|, diskOk, diskOkAgain))
      ensures ok == old(Admits(off, off + |data|, diskOk, diskOkAgain))
      ensures !ok ==> Image(State()) == old(Image(State()))
      ensures ok ==>
                var st := Spilled(old(State()), evicted);
                && Shape(st) && State() == Written(old(State()), evicted, off, data)
                && Image(State()) == Splice(Image(Forget(st, Touched(off, off + |data|))), off, data)
      ensures ok && old(NothingLost(chunkBufs.Keys, spilledChunks.Keys,
                          Victim(off, off + |data|, diskOk, diskOkAgain), off, off + |data|)) ==>
                Image(State()) == Splice(old(Image(State())), off, data)
      ensures ok && 0 < maxDirty ==> dirtyBytes <= maxDirty + CHUNK
      ensures meta.size == old(meta.size) && (dirty <==> old(dirty) || (ok && data != []))
      ensures !ok ==> logicalSize == old(logicalSize)
    {
      hide BufferImage.Valid, Image, Splice, RefsOk, BuffersOk, CacheOk, LiveRefs, Flagged, Counted;
      hide Touched, NewBases, Wrote, Forget, NothingLost, Victim, Admits, WriteExact;
      ghost var st := State();
      ValidFacts(st);
      ok, evicted := WriteLocked(data, off, diskOk, diskOkAgain);
      if ok {
        WrittenImage(st, evicted, off, data);
        if NothingLost(st.bufs.Keys, st.spill.Keys, evicted, off, off + |data|) {
          NothingLostExact(st, evicted, off, data);
        }
      } else {
        SpillKeepsImage(st, evicted);
      }
    }

    // ---------- read path ----------

    /** One window of a chunk payload: from the cache, possibly cut short, else an exact range
        read that is then cached. */
    method ReadWindow(c: ChunkRef, relStart: int, relEnd: int, dropped: set<(int, int)>) returns (window: seq<Byte>)
      requires CacheOk()
      requires c.id in store.chunks && 0 <= relStart < relEnd <= |store.chunks[c.id]|
      modifies cache
      ensures CacheOk()
      ensures 0 < |window| <= relEnd - relStart
      ensures window == store.chunks[c.id][relStart..relStart + |window|]
    {
      if cache != null && (c.id, relStart) in cache.windows {
        var cached := cache.windows[(c.id, relStart)];
        return cached[..Min(relEnd - relStart, |cached|)];
      }
      var r := store.ReadChunkRange(c.id, relStart, relEnd - relStart);
      window := r.value;
      if cache != null {
        cache.Add(c.id, relStart, window, dropped);
      }
    }

    /** readChunkRange: the committed bytes of [start, end), walking the references. */
    method ReadCommitted(start: int, end: int, dropped: set<(int, int)>) returns (result: seq<Byte>)
      requires CacheOk() && (forall c :: c in meta.refs ==> RefOk(c, store.chunks)) && start <= end
      modifies cache
      ensures CacheOk()
      ensures |result| == end - start
      ensures forall p :: start <= p < end ==>
                result[p - start] == CommittedReadAt(meta.refs, store.chunks, start, end, p)
    {
      hide CacheOk, FirstOverlap;
      var refs := meta.refs;
      result := [];
      var pos := start;
      while pos < end
        invariant CacheOk()
        invariant start <= pos <= end && |result| == pos - start
        invariant forall p :: start <= p < pos ==>
                    result[p - start] == CommittedReadAt(refs, store.chunks, start, end, p)
        invariant forall p :: pos <= p < end ==>
                    CommittedReadAt(refs, store.chunks, start, end, p) == CommittedReadAt(refs, store.chunks, pos, end, p)
      {
        var piece := ReadStep(pos, end, dropped);
        result := result + piece;
        pos := pos + |piece|;
      }
    }

    /** One turn of that walk: a gap or hole as zeros, then one window of the first reference
        that overlaps.  A reference with nothing to read zero-fills the rest. */
    method ReadStep(pos: int, end: int, dropped: set<(int, int)>) returns (piece: seq<Byte>)
      requires CacheOk() && (forall c :: c in meta.refs ==> RefOk(c, store.chunks)) && pos < end
      modifies cache
      ensures CacheOk()
      ensures 0 < |piece| <= end - pos
      ensures forall p :: pos <= p < pos + |piece| ==>
                piece[p - pos] == CommittedReadAt(meta.refs, store.chunks, pos, end, p)
      ensures forall p :: pos + |piece| <= p < end ==>
                CommittedReadAt(meta.refs, store.chunks, pos, end, p) ==
                CommittedReadAt(meta.refs, store.chunks, pos + |piece|, end, p)
    {
      hide CacheOk;
      var found := FindOverlap(meta.refs, pos, end);
      if found.None? {
        return Zeros(end - pos);
      }
      var c := found.value;
      assert RefOk(c, store.chunks);
      var relStart, relEnd := RelStart(c, pos), RelEnd(c, end);
      if relEnd <= relStart {
        return Zeros(end - pos);
      }
      var gap := Max(c.offset - pos, 0);
      var window := ReadWindow(c, relStart, relEnd, dropped);
      piece := Zeros(gap) + window;
      forall p | pos + |piece| <= p < end
        ensures CommittedReadAt(meta.refs, store.chunks, pos, end, p) ==
                CommittedReadAt(meta.refs, store.chunks, pos + |piece|, end, p)
      {
        CommittedReadResumes(meta.refs, store.chunks, pos, pos + |piece|, end, c, p);
      }
    }

    /** The merged view of [off, off + n): resident buffers over the committed references, holes
        zero.  A window that starts on a chunk boundary, stays in one chunk or starts in a
        resident buffer gives the slice of the image when nothing is spilled. */
    method ReadView(off: int, n: int, dropped: set<(int, int)>) returns (out: seq<Byte>)
      requires Inv() && 0 <= off && 0 <= n
      modifies cache
      ensures Inv()
      ensures off >= Size(State()) ==> out == []
      ensures off < Size(State()) ==>
                var end := Min(off + n, Size(State()));
                && out == ViewOf(State(), off, end)
                && (spilledChunks == map[] && Clipped(State(), off, end) ==> out == Image(State())[off..end])
    {
      hide BufferImage.Valid, Image, RefsOk, CacheOk, LiveRefs, Counted, Flagged;
      ghost var st := State();
      ValidFacts(st);
      var size := Max(logicalSize, meta.size);
      if off >= size {
        return [];
      }
      var end := Min(off + n, size);
      out := ReadRange(off, end, dropped);
      if spilledChunks == map[] && Clipped(st, off, end) {
        ViewIsSlice(st, off, end);
      }
    }

    /** ReadView's walk over [off, end), buffer by buffer. */
    method ReadRange(off: int, end: int, dropped: set<(int, int)>) returns (out: seq<Byte>)
      requires CacheOk() && Shape(State()) && off <= end
      modifies cache
      ensures CacheOk()
      ensures out == ViewOf(State(), off, end)
    {
      hide CacheOk;
      if |meta.refs| == 0 && |chunkBufs| == 0 {
        forall p | off <= p < end ensures ViewAt(meta.refs, store.chunks, chunkBufs, off, end, p) == 0 {
          ViewEmpty(store.chunks, off, end, p);
        }
        out := Zeros(end - off);
        ViewIs(State(), off, end, out);
        return;
      }
      out := [];
      var next := off;
      while next < end
        invariant CacheOk() && Shape(State()) && State() == old(State())
        invariant off <= next <= end && |out| == next - off
        invariant forall p :: off <= p < next ==>
                    out[p - off] == ViewAt(meta.refs, store.chunks, chunkBufs, off, end, p)
        invariant forall p :: next <= p < end ==>
                    ViewAt(meta.refs, store.chunks, chunkBufs, off, end, p) ==
                    ViewAt(meta.refs, store.chunks, chunkBufs, next, end, p)
      {
        var base := ChunkBase(next);
        var step := StepEnd(chunkBufs, next, end);
        if base in chunkBufs {
          out := out + chunkBufs[base][next - base..step - base];
        } else {
          var committed := ReadCommitted(next, step, dropped);
          out := out + committed;
        }
        next := step;
      }
      ViewIs(State(), off, end, out);
    }

    // ---------- preallocate and zero-fill paths ----------

    method TouchOne(base: int)
      requires Counted() && RefsOk(meta.refs, store.chunks) && base % CHUNK == 0
      modifies this`chunkBufs, this`dirtyBytes
      ensures Counted()
      ensures chunkBufs == Allocate(HydrateOne(meta.refs, store.chunks, old(chunkBufs), base), base)
    {
      if base !in chunkBufs {
        LoadCommittedChunk(base);
      }
      var c := GetChunk(base);
      assert base in old(chunkBufs) ==> chunkBufs == old(chunkBufs);
    }

    /** Allocates and hydrates every chunk from the one holding `off` up to `end`. */
    method TouchBuffers(off: int, end: int)
      requires Counted() && RefsOk(meta.refs, store.chunks)
      modifies this`chunkBufs, this`dirtyBytes
      ensures Counted()
      ensures chunkBufs == TouchFrom(meta.refs, store.chunks, old(chunkBufs), ChunkBase(off), end)
    {
      hide Counted, HydrateOne, Allocate, RefsOk;
      var base := ChunkBase(off);
      while base < end
        invariant base % CHUNK == 0 && Counted()
        invariant TouchFrom(meta.refs, store.chunks, chunkBufs, base, end) ==
                  TouchFrom(meta.refs, store.chunks, old(chunkBufs), ChunkBase(off), end)
      {
        TouchStep(meta.refs, store.chunks, chunkBufs, base, end);
        TouchOne(base);
        base := base + CHUNK;
      }
    }

    /** Preallocation: buffers for the whole range, holding committed bytes, and the size grown
        to `end` unless `keepSize`.  `persisted` says whether the caller's inode update landed. */
    method TouchRange(off: int, end: int, keepSize: bool, persisted: bool)
      requires Inv() && 0 <= off <= end
      modifies this, meta
      ensures Inv() && dirty && dirtyMap == old(dirtyMap) && spilledChunks == old(spilledChunks)
      ensures Size(State()) == if keepSize then old(Size(State())) else Max(old(Size(State())), end)
      ensures Image(State()) == Grow(Image(Forget(old(State()), Touched(ChunkBase(off), end))), Size(State()))
      ensures spilledChunks.Keys !! Touched(ChunkBase(off), end) ==>
                Image(State()) == Grow(old(Image(State())), Size(State()))
    {
      hide BufferImage.Valid, Image, RefsOk, BuffersOk, Counted, CacheOk, LiveRefs, Touched, TouchFrom, Forget;
      ghost var st := State();
      ValidFacts(st);
      var ef := Max(logicalSize, meta.size);
      TouchBuffers(off, end);
      dirty := true;
      if !keepSize && end > ef {
        if persisted {
          meta.size := end;
        }
        logicalSize := end;
      }
      ForgetNone(st, Touched(ChunkBase(off), end));
      TouchedState(st, off, end, State());
    }

    /** ZeroRange's hydration of one chunk: the first overlapping reference only. */
    method LoadFirstOverlap(base: int)
      requires Counted() && RefsOk(meta.refs, store.chunks)
      requires base !in chunkBufs && base % CHUNK == 0
      modifies this`chunkBufs, this`dirtyBytes
      ensures Counted()
      ensures chunkBufs == HydrateOne(meta.refs, store.chunks, old(chunkBufs), base)
    {
      var found := FindInBase(meta.refs, base);
      if found.Some? {
        var cref := found.value;
        HydratedChunk(meta.refs, store.chunks, base, cref);
        var buf := GetChunk(base);
        var r := store.ReadChunkRange(cref.id, 0, CHUNK);
        chunkBufs := chunkBufs[base := Overlay(buf, 0, r.value)];
      }
    }

    method HydrateBases(off: int, end: int)
      requires Counted() && RefsOk(meta.refs, store.chunks) && off < end
      modifies this`chunkBufs, this`dirtyBytes
      ensures Counted()
      ensures chunkBufs == HydrateFrom(meta.refs, store.chunks, old(chunkBufs), off, end)
    {
      hide Counted, HydrateOne, RefsOk;
      HydrateFromBase(meta.refs, store.chunks, chunkBufs, off, end);
      var base := ChunkBase(off);
      while base < end
        invariant base % CHUNK == 0 && Counted()
        invariant HydrateFrom(meta.refs, store.chunks, chunkBufs, base, end) ==
                  HydrateFrom(meta.refs, store.chunks, old(chunkBufs), off, end)
      {
        HydrateStep(meta.refs, store.chunks, chunkBufs, base, end);
        if base !in chunkBufs {
          LoadFirstOverlap(base);
        }
        base := base + CHUNK;
      }
    }

    method ZeroPiece(off: int, end: int, base: int)
      requires Counted() && off < end && base % CHUNK == 0 && ChunkBase(off) <= base < end
      modifies this`chunkBufs, this`dirtyBytes
      ensures Counted()
      ensures chunkBufs == CopyOne(old(chunkBufs), Zeros(end - off), off, Max(base, off))
    {
      ZeroStep(off, end, base);
      var buf := GetChunk(base);
      var zeroStart, zeroEnd := Max(off - base, 0), Min(end - base, CHUNK);
      assert Zeros(zeroEnd - zeroStart) == Zeros(end - off)[Max(base, off) - off..Next(Max(base, off), end) - off];
      chunkBufs := chunkBufs[base := Overlay(buf, zeroStart, Zeros(zeroEnd - zeroStart))];
    }

    /** Zeroes the part of [off, end) in each chunk and marks the chunk dirty. */
    method ZeroBases(off: int, end: int)
      requires Counted() && off < end
      modifies this`chunkBufs, this`dirtyBytes, this`dirtyMap, this`dirty
      ensures Counted() && dirty
      ensures chunkBufs == CopyFrom(old(chunkBufs), Zeros(end - off), off, off)
      ensures dirtyMap == old(dirtyMap) + NewBases(map[], off, end)
    {
      hide CopyOne, CopyFrom, NewBases;
      ghost var data := Zeros(end - off);
      var base := ChunkBase(off);
      while base < end
        invariant base % CHUNK == 0 && ChunkBase(off) <= base && Counted()
        invariant off < base ==> dirty
        invariant CopyFrom(chunkBufs, data, off, Max(base, off)) == CopyFrom(old(chunkBufs), data, off, off)
        invariant dirtyMap + NewBases(map[], Max(base, off), end) == old(dirtyMap) + NewBases(map[], off, end)
      {
        ZeroStep(off, end, base);
        CopyStep(chunkBufs, data, off, base);
        NewBasesStep(off, end, base);
        UnionStep(dirtyMap, base, NewBases(map[], base + CHUNK, end), NewBases(map[], Max(base, off), end),
          old(dirtyMap) + NewBases(map[], off, end));
        ZeroPiece(off, end, base);
        dirtyMap, dirty := dirtyMap + {base}, true;
        base := base + CHUNK;
      }
      CopyDone(chunkBufs, data, off, Max(base, off));
      UnionDone(dirtyMap, NewBases(map[], Max(base, off), end), old(dirtyMap) + NewBases(map[], off, end));
    }

    /** Hydrates [off, end) and overwrites it with zeros. */
    method ZeroFill(off: int, end: int)
      requires Counted() && Shape(State()) && off < end
      modifies this`chunkBufs, this`dirtyBytes, this`dirtyMap, this`dirty
      ensures Counted() && dirty
      ensures State() == Wrote(old(State()), off, Zeros(end - off))
    {
      hide CopyFrom, HydrateFrom, NewBases, RefsOk, BuffersOk;
      HydrateBases(off, end);
      ZeroBases(off, end);
    }

    /** Zero-fills [off, off + size), clamped to the file unless `extend`. */
    method ZeroRange(off: int, size: int, extend: bool, persisted: bool)
      requires Inv() && 0 <= off && 0 <= size
      modifies this, meta
      ensures Inv() && spilledChunks == old(spilledChunks)
      ensures if ZeroEnd(old(State()), off, size, extend) <= off then State() == old(State()) && dirty == old(dirty) else dirty
      ensures var end := ZeroEnd(old(State()), off, size, extend);
              if end <= off then Image(State()) == old(Image(State()))
              else
                && Image(State()) == Splice(Image(Forget(old(State()), Touched(off, end))), off, Zeros(end - off))
                && (spilledChunks.Keys !! Touched(off, end) ==>
                      Image(State()) == Splice(old(Image(State())), off, Zeros(end - off)))
    {
      hide BufferImage.Valid, Image, RefsOk, BuffersOk, Counted, CacheOk, LiveRefs, Touched, Wrote, Forget, Splice;
      ghost var st := State();
      ValidFacts(st);
      var cur := Max(logicalSize, meta.size);
      var end := off + size;
      if !extend && end > cur {
        end := cur;
      }
      if end <= off {
        return;
      }
      ZeroFill(off, end);
      WroteSizes(st, off, Zeros(end - off));
      if extend && end > cur {
        if persisted {
          meta.size := end;
        }
        logicalSize := end;
      }
      ZeroedImage(st, off, end, State());
    }

    // ---------- flush path ----------

    /** The complete image of one dirty chunk: its buffer, else its spill file loaded back. */
    method DirtyChunk(base: int, size: int, loadOk: bool) returns (r: Result<seq<Byte>>)
      requires Counted() && BuffersOk(spilledChunks)
      requires base in chunkBufs.Keys + spilledChunks.Keys && 0 <= ChunkLen(base, size) <= CHUNK
      modifies this`chunkBufs, this`dirtyBytes, this`spilledChunks, this`spilledBytes, this`globalDirty
      ensures Counted()
      ensures Reloads(old(State()), chunkBufs, spilledChunks)
      ensures r.Ok? <==> base in old(chunkBufs) || loadOk
      ensures old(chunkBufs).Keys <= chunkBufs.Keys <= old(chunkBufs).Keys + {base}
      ensures r.Ok? ==>
                && |Backing(old(State()), base)| == CHUNK
                && r.value == Backing(old(State()), base)[..ChunkLen(base, size)]
    {
      var chunkLen := Min(base + CHUNK, size) - base;
      if base in chunkBufs {
        return Ok(chunkBufs[base][..chunkLen]);
      }
      if !loadOk {
        return Err;
      }
      LoadFromDisk(base);
      r := Ok(chunkBufs[base][..chunkLen]);
    }

    /** Writes one dirty chunk under its allocated ID. */
    method WriteOne(base: int, id: int, size: int, loadOk: bool, writeOk: bool, chunkCommitOk: bool)
      returns (r: Result<ChunkRef>)
      requires Counted() && BuffersOk(spilledChunks)
      requires base in chunkBufs.Keys + spilledChunks.Keys && 0 < ChunkLen(base, size) <= CHUNK
      modifies this`chunkBufs, this`dirtyBytes, this`spilledChunks, this`spilledBytes, this`globalDirty, store
      ensures Counted() && BuffersOk(spilledChunks)
      ensures Reloads(old(State()), chunkBufs, spilledChunks)
      ensures r.Ok? <==> (base in old(chunkBufs) || loadOk) && writeOk && chunkCommitOk
      ensures old(chunkBufs).Keys <= chunkBufs.Keys <= old(chunkBufs).Keys + {base}
      ensures |Backing(old(State()), base)| == CHUNK && r.Ok? ==>
                && store.chunks == old(store.chunks)[id := Backing(old(State()), base)[..ChunkLen(base, size)]]
                && r.value == ChunkRef(id, base, ChunkLen(base, size))
      ensures r.Ok? ==> |Backing(old(State()), base)| == CHUNK
      ensures OnlyAt(old(store.chunks), store.chunks, id)
    {
      hide Counted, Reloads, BuffersOk, Backing, ChunkLen, OnlyAt;
      ghost var st := State();
      var data := DirtyChunk(base, size, loadOk);
      ReloadsOk(st, chunkBufs, spilledChunks);
      OnlyAtId(store.chunks, id, if data.Ok? then data.value else []);
      if data.Err? {
        return Err;
      }
      r := WriteAllocated(store, id, base, data.value, writeOk, chunkCommitOk);
    }

    /** Writes every dirty chunk under its allocated ID. */
    method WriteDirty(bases: seq<int>, ids: seq<int>, ghost first: int, size: int, f: Faults)
      returns (ok: bool, written: seq<ChunkRef>)
      requires Counted() && BuffersOk(spilledChunks) && |bases| == |ids|
      requires forall b :: b in bases ==> b in chunkBufs.Keys + spilledChunks.Keys && 0 < ChunkLen(b, size) <= CHUNK
      requires CountsFrom(ids, first) && forall id :: id in store.chunks ==> id < first
      requires forall i, j :: 0 <= i < j < |bases| ==> bases[i] < bases[j]
      modifies this`chunkBufs, this`dirtyBytes, this`spilledChunks, this`spilledBytes, this`globalDirty, store
      ensures Counted()
      ensures Reloads(old(State()), chunkBufs, spilledChunks)
      ensures KeepsPayloads(old(store.chunks), store.chunks)
      ensures forall id :: id in store.chunks ==> id < first + |ids|
      ensures ok <==> ChunksGo(f, old(chunkBufs).Keys, bases)
      ensures ok ==> Stored(old(State()), bases, ids, size, |bases|, store.chunks)
      ensures ok ==> written == WrittenRefs(bases, ids, size)
    {
      hide Counted, BuffersOk, Stored, Reloads, KeepsPayloads, Backing;
      ghost var st := State();
      written := [];
      ReloadsNone(st);
      StoredNone(st, bases, ids, size);
      for i := 0 to |bases|
        invariant Counted() && BuffersOk(spilledChunks)
        invariant Reloads(st, chunkBufs, spilledChunks)
        invariant Stored(st, bases, ids, size, i, store.chunks)
        invariant forall id :: id in store.chunks ==> id < first + i
        invariant written == WrittenRefs(bases, ids, size)[..i]
        invariant forall j :: i <= j < |bases| ==> (bases[j] in chunkBufs <==> bases[j] in old(chunkBufs))
        invariant forall j :: 0 <= j < i ==> ChunkGoes(f, old(chunkBufs).Keys, bases[j], j)
      {
        ghost var mid := State();
        ReloadsBacking(st, mid, bases[i]);
        var r := WriteOne(bases[i], ids[i], size, f.loadOk(i), f.writeOk(i), f.chunkCommitOk(i));
        ReloadsMore(st, mid, chunkBufs, spilledChunks);
        if r.Err? {
          StoredAfterError(st, bases, ids, size, i, mid.payloads, store.chunks);
          return false, written;
        }
        StoredMore(st, bases, ids, size, i, mid.payloads, Backing(st, bases[i])[..ChunkLen(bases[i], size)]);
        written := written + [r.value];
      }
      StoredKeeps(st, bases, ids, size, |bases|, store.chunks);
      ok := true;
    }

    /** Allocates and writes the dirty chunks.  Until the commit this only adds placeholders to
        the inode and payloads nothing references to the store. */
    method PersistDirty(size: int, f: Faults)
      returns (ok: bool, bases: seq<int>, ids: seq<int>, written: seq<ChunkRef>, ghost more: seq<ChunkRef>)
      requires Counted() && BufferImage.Valid(State()) && size == Size(State())
      requires forall id :: id in store.chunks ==> id < meta.nextID
      modifies this`chunkBufs, this`dirtyBytes, this`spilledChunks, this`spilledBytes, this`globalDirty, meta, store
      ensures Counted()
      ensures meta.size == old(meta.size) && meta.tombstones == old(meta.tombstones) && |ids| <= |bases|
      ensures CountsFrom(ids, old(meta.nextID)) && meta.nextID == old(meta.nextID) + |ids|
      ensures more == Pending(bases[..|ids|], ids) && meta.refs == old(meta.refs) + more && Placeholders(more)
      ensures Reloads(old(State()), chunkBufs, spilledChunks)
      ensures KeepsPayloads(old(store.chunks), store.chunks)
      ensures forall id :: id in store.chunks ==> id < meta.nextID
      ensures forall i, j :: 0 <= i < j < |bases| ==> bases[i] != bases[j]
      ensures ok && f.commitOk <==> GoesThrough(f, old(dirtyMap), old(chunkBufs).Keys)
      ensures ok ==> |bases| == |ids| && Persisted(old(State()), bases, ids, store.chunks) &&
                     written == WrittenRefs(bases, ids, size)
    {
      hide BufferImage.Valid, RefsOk, BuffersOk, Counted, Stored, Persisted, KeepsPayloads;
      hide GoesThrough, BatchesGo, ChunksGo, Reloads, Placeholders, CountsFrom;
      ghost var st := State();
      ValidFacts(st);
      bases := SortedBases(dirtyMap);
      InOrder(f, dirtyMap, chunkBufs.Keys, bases);
      DirtyBackings(st, bases);
      ok, ids := AllocateRanges(meta, bases, f.batchOk);
      more := Pending(bases[..|ids|], ids);
      DirtyPlaceholders(st, bases, ids);
      written := [];
      ReloadsNone(st);
      if !ok {
        KeepsAll(store.chunks);
        return;
      }
      ghost var now := State();
      ok, written := WriteDirty(bases, ids, old(meta.nextID), size, f);
      ReloadsMore(st, now, chunkBufs, spilledChunks);
      if ok {
        StoredPersisted(st, now, bases, ids, store.chunks);
      }
    }

    /** Tombstones every superseded chunk; a chunk the new list still references is left alone. */
    method Supersede(oldRefs: seq<ChunkRef>)
      modifies meta`tombstones
      ensures forall c :: c in oldRefs ==> c.id in meta.tombstones || Referenced(meta.refs, c.id)
      ensures old(meta.tombstones) <= meta.tombstones
      ensures forall id :: id in meta.tombstones ==>
                id in old(meta.tombstones) || (Referenced(oldRefs, id) && !Referenced(meta.refs, id))
    {
      for i := 0 to |oldRefs|
        invariant forall j :: 0 <= j < i ==> oldRefs[j].id in meta.tombstones || Referenced(meta.refs, oldRefs[j].id)
        invariant old(meta.tombstones) <= meta.tombstones
        invariant forall id :: id in meta.tombstones ==>
                    id in old(meta.tombstones) || (Referenced(oldRefs, id) && !Referenced(meta.refs, id))
      {
        meta.DeleteChunk(oldRefs[i].id);
      }
    }

    /** Drops every buffer and spill file and marks the file clean. */
    method Clear()
      modifies this
      ensures Counted() && Flagged() && !dirty
      ensures chunkBufs == map[] && spilledChunks == map[] && dirtyMap == {} && logicalSize == 0
    {
      spilledChunks, spilledBytes := map[], 0;
      chunkBufs, dirtyMap, dirty, dirtyBytes := map[], {}, false, 0;
      logicalSize := 0;
    }

    /** The wholesale replacement of the reference list, the reclaim of the old one, and Clear. */
    method CommitRefs(oldRefs: seq<ChunkRef>, bases: seq<int>, ids: seq<int>, written: seq<ChunkRef>, size: int)
      requires |bases| == |ids| && written == WrittenRefs(bases, ids, size)
      requires Live(NewRefs(oldRefs, bases, ids, size), meta.nextID, meta.tombstones, store.chunks)
      requires forall c :: c in oldRefs ==> c.id < meta.nextID
      modifies this, meta
      ensures Counted() && Flagged() && LiveRefs() && !dirty
      ensures State() == FileState(NewRefs(oldRefs, bases, ids, size), size, store.chunks, map[], map[], {}, 0)
      ensures forall c :: c in oldRefs ==> c.id in meta.tombstones || Referenced(meta.refs, c.id)
    {
      hide Counted, Flagged;
      var kept := KeepUntouched(oldRefs, bases);
      meta.refs := kept + written;
      meta.size := size;
      Supersede(oldRefs);
      Clear();
    }

    /** Pushes the buffered image to the store and replaces the inode's reference list.  On
        success the committed references alone give the image, at the larger of the buffered
        and the committed size; a failure at any step leaves both images as they were.  It
        succeeds exactly when the file is clean or everything it needs goes through. */
    method Flush(f: Faults) returns (ok: bool)
      requires Inv()
      modifies this, meta, store
      ensures Inv() && Image(State()) == old(Image(State())) && (ok ==> dirtyMap == {})
      ensures !old(dirty) ==> ok && State() == old(State())
      ensures ok <==> !old(dirty) || GoesThrough(f, old(dirtyMap), old(chunkBufs).Keys)
      ensures ok ==>
                (CommittedImage(State()) == Image(State()) <==> old(dirty) || old(logicalSize) <= old(meta.size))
      ensures !ok ==> CommittedImage(State()) == old(CommittedImage(State())) && dirty && dirtyMap == old(dirtyMap)
      ensures ok && old(dirty) ==>
                && CommittedImage(State()) == old(Image(State())) && meta.size == old(Size(State()))
                && !dirty && chunkBufs == map[] && spilledChunks == map[] && dirtyMap == {} && logicalSize == 0
                && forall c :: c in old(meta.refs) ==> c.id in meta.tombstones || Referenced(meta.refs, c.id)
    {
      hide BufferImage.Valid, Image, CommittedImage, RefsOk, BuffersOk, Counted, Live, WindowsOk;
      hide Persisted, KeepsPayloads, Reloads, Pending, Placeholders, GoesThrough;
      if !dirty {
        CleanImageIff(State());
        return true;
      }
      ghost var st, nextID := State(), meta.nextID;
      LiveIDs(meta.refs, nextID, meta.tombstones, store.chunks);
      var size := Max(logicalSize, meta.size);
      var oldRefs := meta.refs;
      var bases, ids, written;
      ghost var more;
      ok, bases, ids, written, more := PersistDirty(size, f);
      if cache != null {
        CacheKept(cache.windows, st.payloads, store.chunks);
      }
      if !ok || !f.commitOk {
        ok := false;
        AbandonedImage(st, chunkBufs, spilledChunks, more, store.chunks, State());
        LivePending(oldRefs, nextID, meta.tombstones, st.payloads, bases, ids, store.chunks);
        return;
      }
      FlushedImage(st, bases, ids, store.chunks);
      LiveFlushed(oldRefs, nextID, meta.tombstones, st.payloads, bases, ids, size, store.chunks);
      CommitRefs(oldRefs, bases, ids, written, size);
    }
  }

  /** The inner search of readChunkRange. */
  method FindOverlap(refs: seq<ChunkRef>, pos: int, end: int) returns (r: Option<ChunkRef>)
    ensures r == FirstOverlap(refs, pos, end)
  {
    for i := 0 to |refs|
      invariant FirstOverlap(refs[i..], pos, end) == FirstOverlap(refs, pos, end)
    {
      assert refs[i..][1..] == refs[i + 1..];
      if Overlaps(refs[i], pos, end) {
        return Some(refs[i]);
      }
    }
    r := None;
  }

  /** The i-th base in increasing order has rank i. */
  lemma RankIs(bases: seq<int>, all: set<int>, i: nat)
    requires i < |bases| && (forall b :: b in bases <==> b in all)
    requires forall j, k :: 0 <= j < k < |bases| ==> bases[j] < bases[k]
    ensures Rank(all, bases[i]) == i
  {
    var below := set c | c in all && c < bases[i];
    assert below == set j | 0 <= j < i :: bases[j];
    CountBelow(bases, i);
  }

  lemma {:induction false} CountBelow(bases: seq<int>, n: nat)
    requires n <= |bases| && forall j, k :: 0 <= j < k < |bases| ==> bases[j] < bases[k]
    ensures |set j | 0 <= j < n :: bases[j]| == n
  {
    if n > 0 {
      CountBelow(bases, n - 1);
      assert (set j | 0 <= j < n :: bases[j]) == (set j | 0 <= j < n - 1 :: bases[j]) + {bases[n - 1]};
    }
  }

  /** What a flush needs, base by base in the order it takes them. */
  lemma InOrder(f: Faults, dirty: set<int>, resident: set<int>, bases: seq<int>)
    requires (forall b :: b in bases <==> b in dirty) && forall j, k :: 0 <= j < k < |bases| ==> bases[j] < bases[k]
    ensures |bases| == |dirty|
    ensures GoesThrough(f, dirty, resident) <==> BatchesGo(f.batchOk, |bases|) && ChunksGo(f, resident, bases) && f.commitOk
  {
    hide BatchesGo, ChunkGoes, Rank;
    CountBelow(bases, |bases|);
    forall b | b in dirty ensures exists i :: 0 <= i < |bases| && bases[i] == b {
      assert b in bases;
    }
    assert dirty == set j | 0 <= j < |bases| :: bases[j];
    forall i | 0 <= i < |bases| ensures Rank(dirty, bases[i]) == i && bases[i] in dirty {
      RankIs(bases, dirty, i);
    }
  }

  lemma DirtyPlaceholders(st: FileState, bases: seq<int>, ids: seq<int>)
    requires BufferImage.Valid(st) && |ids| <= |bases| && forall b :: b in bases ==> b in st.dirty
    ensures Placeholders(Pending(bases[..|ids|], ids))
  {
    forall b | b in bases ensures 0 <= b && b % CHUNK == 0 {
      assert b in st.bufs.Keys + st.spill.Keys;
    }
    var more := Pending(bases[..|ids|], ids);
    forall c | c in more ensures c.offset in bases && c.length == 0 {
      var i :| 0 <= i < |more| && more[i] == c;
      assert bases[i] in bases;
    }
  }

  lemma LiveIDs(refs: seq<ChunkRef>, nextID: int, tombstones: set<int>, chunks: map<int, seq<Byte>>)
    requires Live(refs, nextID, tombstones, chunks)
    ensures forall id :: id in chunks ==> id < nextID
    ensures forall c :: c in refs ==> c.id < nextID
  {
  }

  lemma CacheKept(windows: map<(int, int), seq<Byte>>, chunks: map<int, seq<Byte>>, chunks': map<int, seq<Byte>>)
    requires WindowsOk(windows, chunks) && KeepsPayloads(chunks, chunks')
    ensures WindowsOk(windows, chunks')
  {
    WindowsKept(windows, chunks, chunks');
  }

  lemma LivePending(refs: seq<ChunkRef>, nextID: int, tombstones: set<int>, chunks: map<int, seq<Byte>>,
                    bases: seq<int>, ids: seq<int>, chunks': map<int, seq<Byte>>)
    requires Live(refs, nextID, tombstones, chunks) && |ids| <= |bases| && CountsFrom(ids, nextID)
    requires forall id :: id in chunks' ==> id < nextID + |ids|
    ensures Live(refs + Pending(bases[..|ids|], ids), nextID + |ids|, tombstones, chunks')
  {
    var more := Pending(bases[..|ids|], ids);
    forall c | c in more ensures nextID <= c.id < nextID + |ids| {
      var i :| 0 <= i < |more| && more[i] == c;
      assert ids[i] == nextID + i;
    }
  }

  lemma LiveFlushed(refs: seq<ChunkRef>, nextID: int, tombstones: set<int>, chunks: map<int, seq<Byte>>,
                    bases: seq<int>, ids: seq<int>, size: int, chunks': map<int, seq<Byte>>)
    requires Live(refs, nextID, tombstones, chunks) && |ids| == |bases| && CountsFrom(ids, nextID)
    requires forall id :: id in chunks' ==> id < nextID + |ids|
    requires forall i, j :: 0 <= i < j < |bases| ==> bases[i] != bases[j]
    ensures Live(NewRefs(refs, bases, ids, size), nextID + |ids|, tombstones, chunks')
    ensures forall c :: c in refs ==> c.id < nextID + |ids|
  {
    NewRefsOnePerBase(refs, bases, ids, size);
    forall c | c in WrittenRefs(bases, ids, size) ensures nextID <= c.id < nextID + |ids| {
      var i := WrittenRef(bases, ids, size, c);
      assert ids[i] == nextID + i;
    }
  }

  lemma KeepsAll(chunks: map<int, seq<Byte>>)
    ensures KeepsPayloads(chunks, chunks)
  {
  }

  /** The references Flush carries over. */
  method KeepUntouched(refs: seq<ChunkRef>, bases: seq<int>) returns (kept: seq<ChunkRef>)
    ensures kept == Preserved(refs, set b | b in bases)
  {
    ghost var rewritten := set b | b in bases;
    kept := [];
    for i := 0 to |refs|
      invariant kept == Preserved(refs[..i], rewritten)
    {
      assert refs[..i + 1][..i] == refs[..i];
      if refs[i].offset !in bases {
        kept := kept + [refs[i]];
      }
    }
    assert refs[..|refs|] == refs;
  }

  /** A set of bases in increasing order. */
  method SortedBases(bases: set<int>) returns (r: seq<int>)
    requires forall b :: b in bases ==> 0 <= b
    ensures forall b :: b in r <==> b in bases
    ensures forall i, j :: 0 <= i < j < |r| ==> r[i] < r[j]
  {
    r := [];
    var rest := bases;
    while rest != {}
      invariant rest <= bases && forall b :: b in bases <==> b in rest || b in r
      invariant forall i, b :: 0 <= i < |r| && b in rest ==> r[i] < b
      invariant forall i, j :: 0 <= i < j < |r| ==> r[i] < r[j]
      decreases |rest|
    {
      var base := Lowest(rest);
      r := r + [base];
      rest := rest - {base};
    }
  }

  /** The first reference overlapping a chunk. */
  method FindInBase(refs: seq<ChunkRef>, base: int) returns (r: Option<ChunkRef>)
    ensures r == RefFor(refs, base)
  {
    for i := 0 to |refs|
      invariant RefFor(refs[i..], base) == RefFor(refs, base)
    {
      assert refs[i..][1..] == refs[i + 1..];
      if InBase(refs[i], base) {
        return Some(refs[i]);
      }
    }
    r := None;
  }

  /** The smallest base of a set, or -1. */
  method Lowest(bases: set<int>) returns (lowest: int)
    requires forall b :: b in bases ==> 0 <= b
    ensures bases == {} ==> lowest == -1
    ensures bases != {} ==> lowest in bases && forall b :: b in bases ==> lowest <= b
  {
    lowest := -1;
    var rest := bases;
    while rest != {}
      invariant rest <= bases
      invariant lowest == -1 <==> rest == bases
      invariant lowest != -1 ==> lowest in bases && forall b :: b in bases && b !in rest ==> lowest <= b
      decreases |rest|
    {
      HasMember(rest);
      var base: int :| base in rest;
      if lowest < 0 || base < lowest {
        lowest := base;
      }
      rest := rest - {base};
    }
  }
}
