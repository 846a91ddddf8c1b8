/**
 Flush on values: the wholesale replacement of the reference list commits exactly the
 image the buffers stood for.
 */
module BufferFlush {
  import opened Bytes
  import opened BufferImage

  /** The untouched references Flush carries over: those not at a rewritten base. */
  function Preserved(refs: seq<ChunkRef>, bases: set<int>): (r: seq<ChunkRef>)
    ensures forall c :: c in r <==> c in refs && c.offset !in bases
  {
    if refs == [] then []
    else
      var init := Preserved(refs[..|refs| - 1], bases);
      var last := refs[|refs| - 1];
      assert refs == refs[..|refs| - 1] + [last];
      if last.offset in bases then init else init + [last]
  }

  /** How many bytes of the chunk at `base` a file of this size has. */
  function ChunkLen(base: int, size: int): int { Min(base + CHUNK, size) - base }

  /** The references Flush writes for the dirty bases, in order. */
  function WrittenRefs(bases: seq<int>, ids: seq<int>, size: int): (r: seq<ChunkRef>)
    requires |bases| == |ids|
    ensures |r| == |bases|
    ensures forall i :: 0 <= i < |r| ==> r[i] == ChunkRef(ids[i], bases[i], ChunkLen(bases[i], size))
  {
    seq(|bases|, i requires 0 <= i < |bases| => ChunkRef(ids[i], bases[i], ChunkLen(bases[i], size)))
  }

  function NewRefs(refs: seq<ChunkRef>, bases: seq<int>, ids: seq<int>, size: int): seq<ChunkRef>
    requires |bases| == |ids|
  {
    Preserved(refs, set b | b in bases) + WrittenRefs(bases, ids, size)
  }

  /** The bytes the buffers hold for a dirty base: memory first, then the spill file. */
  function Backing(st: FileState, base: int): seq<Byte>
    requires base in st.bufs.Keys + st.spill.Keys
  {
    if base in st.bufs then st.bufs[base] else st.spill[base]
  }

  /** `bases` lists the dirty bases once each, and the payload of every allocated chunk is
      that base's buffer cut to the file size; payloads already stored are untouched. */
  ghost predicate Persisted(st: FileState, bases: seq<int>, ids: seq<int>, payloads: map<int, seq<Byte>>)
    requires Valid(st)
  {
    && |bases| == |ids|
    && (forall b :: b in bases <==> b in st.dirty)
    && (forall i, j :: 0 <= i < j < |bases| ==> bases[i] != bases[j])
    && (forall id :: id in st.payloads ==> id in payloads && payloads[id] == st.payloads[id])
    && (forall i :: 0 <= i < |bases| ==>
          ids[i] in payloads && bases[i] in st.bufs.Keys + st.spill.Keys &&
          |Backing(st, bases[i])| == CHUNK && 0 < ChunkLen(bases[i], Size(st)) <= CHUNK &&
          payloads[ids[i]] == Backing(st, bases[i])[..ChunkLen(bases[i], Size(st))])
  }

  ghost function Flushed(st: FileState, bases: seq<int>, ids: seq<int>, payloads: map<int, seq<Byte>>): FileState
    requires |bases| == |ids|
  {
    FileState(NewRefs(st.refs, bases, ids, Size(st)), Size(st), payloads, map[], map[], {}, 0)
  }

  lemma WrittenRef(bases: seq<int>, ids: seq<int>, size: int, c: ChunkRef) returns (i: nat)
    requires |bases| == |ids| && c in WrittenRefs(bases, ids, size)
    ensures i < |bases| && c == ChunkRef(ids[i], bases[i], ChunkLen(bases[i], size))
  {
    i :| 0 <= i < |bases| && WrittenRefs(bases, ids, size)[i] == c;
  }

  lemma WrittenElsewhere(refs: seq<ChunkRef>, bases: seq<int>, ids: seq<int>, size: int, c: ChunkRef, d: ChunkRef)
    requires |bases| == |ids| && c in WrittenRefs(bases, ids, size)
    requires d in Preserved(refs, set b | b in bases)
    ensures c.offset != d.offset
  {
    var i := WrittenRef(bases, ids, size, c);
    assert bases[i] in bases;
  }

  lemma {:induction false} NewRefsOk(st: FileState, bases: seq<int>, ids: seq<int>, payloads: map<int, seq<Byte>>)
    requires Valid(st) && Persisted(st, bases, ids, payloads)
    ensures RefsOk(NewRefs(st.refs, bases, ids, Size(st)), payloads)
  {
    var refs, added := NewRefs(st.refs, bases, ids, Size(st)), WrittenRefs(bases, ids, Size(st));
    forall c | c in refs ensures RefOk(c, payloads) {
      if c in added {
        var i := WrittenRef(bases, ids, Size(st), c);
        assert bases[i] in st.dirty;
      } else {
        assert RefOk(c, st.payloads);
      }
    }
    forall c, d | c in refs && d in refs && 0 < c.length && 0 < d.length && c.offset == d.offset ensures c == d {
      if c in added && d in added {
        var i := WrittenRef(bases, ids, Size(st), c);
        var j := WrittenRef(bases, ids, Size(st), d);
        assert i == j;
      } else if c in added {
        WrittenElsewhere(st.refs, bases, ids, Size(st), c, d);
      } else if d in added {
        WrittenElsewhere(st.refs, bases, ids, Size(st), d, c);
      }
    }
  }

  lemma {:induction false} PreservedOnePerBase(refs: seq<ChunkRef>, bases: set<int>)
    requires OnePerBase(refs)
    ensures OnePerBase(Preserved(refs, bases))
  {
    if refs != [] {
      var init, last := refs[..|refs| - 1], refs[|refs| - 1];
      PreservedOnePerBase(init, bases);
      forall c | c in init && 0 < c.length && 0 < last.length ensures c.offset != last.offset {
        var i :| 0 <= i < |init| && init[i] == c;
        assert refs[i] == c;
      }
    }
  }

  lemma NewRefsOnePerBase(refs: seq<ChunkRef>, bases: seq<int>, ids: seq<int>, size: int)
    requires OnePerBase(refs) && |bases| == |ids|
    requires forall i, j :: 0 <= i < j < |bases| ==> bases[i] != bases[j]
    ensures OnePerBase(NewRefs(refs, bases, ids, size))
  {
    var kept, added := Preserved(refs, set b | b in bases), WrittenRefs(bases, ids, size);
    PreservedOnePerBase(refs, set b | b in bases);
    forall c, d | c in kept && d in added ensures c.offset != d.offset {
      WrittenElsewhere(refs, bases, ids, size, d, c);
    }
  }

  /** Two reference lists that hold the same covering references give the same byte. */
  lemma CommittedSame(refs: seq<ChunkRef>, pl: map<int, seq<Byte>>, refs': seq<ChunkRef>, pl': map<int, seq<Byte>>,
                      p: int)
    requires RefsOk(refs, pl) && RefsOk(refs', pl')
    requires forall c :: Covers(c, p) ==> (c in refs <==> c in refs')
    requires forall c :: c in refs && Covers(c, p) ==> c.id in pl && c.id in pl' && pl'[c.id] == pl[c.id]
    ensures CommittedAt(refs, pl, p) == CommittedAt(refs', pl', p)
  {
    if c :| c in refs && Covers(c, p) {
      CommittedByRef(refs, pl, c, p);
      CommittedByRef(refs', pl', c, p);
    }
  }

  /** Away from the rewritten bases the reference list covers each byte as before. */
  lemma FlushedCover(st: FileState, bases: seq<int>, ids: seq<int>, p: int, c: ChunkRef)
    requires Valid(st) && |bases| == |ids| && (forall b :: b in bases <==> b in st.dirty)
    requires ChunkBase(p) !in st.dirty && Covers(c, p)
    ensures c in NewRefs(st.refs, bases, ids, Size(st)) <==> c in st.refs
  {
    if c in st.refs {
      CoverUnique(st.refs, st.payloads, c, c, p);
    }
    if c in WrittenRefs(bases, ids, Size(st)) {
      var i := WrittenRef(bases, ids, Size(st), c);
      assert bases[i] in st.dirty;
      BaseIs(p, bases[i]);
    }
  }

  lemma CommittedOnly(st: FileState, p: int)
    requires Shape(st) && st.bufs == map[] && st.spill == map[]
    ensures ByteAt(st, p) == CommittedAt(st.refs, st.payloads, p)
  {
  }

  lemma BackingByte(st: FileState, p: int)
    requires Shape(st) && ChunkBase(p) in st.bufs.Keys + st.spill.Keys
    ensures |Backing(st, ChunkBase(p))| == CHUNK
    ensures ByteAt(st, p) == Backing(st, ChunkBase(p))[p - ChunkBase(p)]
  {
  }

  lemma PersistedAt(st: FileState, bases: seq<int>, ids: seq<int>, payloads: map<int, seq<Byte>>, i: nat)
    requires Valid(st) && Persisted(st, bases, ids, payloads) && i < |bases|
    ensures ids[i] in payloads && bases[i] in st.bufs.Keys + st.spill.Keys && |Backing(st, bases[i])| == CHUNK
    ensures 0 < ChunkLen(bases[i], Size(st)) <= CHUNK
    ensures payloads[ids[i]] == Backing(st, bases[i])[..ChunkLen(bases[i], Size(st))]
  {
  }

  lemma FlushedDirtyByte(st: FileState, bases: seq<int>, ids: seq<int>, payloads: map<int, seq<Byte>>, p: int)
    requires Valid(st) && Persisted(st, bases, ids, payloads)
    requires Shape(Flushed(st, bases, ids, payloads))
    requires 0 <= p < Size(st) && ChunkBase(p) in st.dirty
    ensures ByteAt(Flushed(st, bases, ids, payloads), p) == ByteAt(st, p)
  {
    var b := ChunkBase(p);
    assert b in bases;
    var i :| 0 <= i < |bases| && bases[i] == b;
    PersistedAt(st, bases, ids, payloads, i);
    BackingByte(st, p);
    FlushedPayloadByte(st, bases, ids, payloads, i, p);
  }

  lemma FlushedPayloadByte(st: FileState, bases: seq<int>, ids: seq<int>, payloads: map<int, seq<Byte>>, i: nat, p: int)
    requires |bases| == |ids| && i < |bases| && Shape(Flushed(st, bases, ids, payloads))
    requires bases[i] == ChunkBase(p) && p < Size(st)
    requires ids[i] in payloads && |payloads[ids[i]]| == ChunkLen(bases[i], Size(st))
    ensures ByteAt(Flushed(st, bases, ids, payloads), p) == payloads[ids[i]][p - ChunkBase(p)]
  {
    hide RefsOk, Preserved;
    var c := WrittenRefs(bases, ids, Size(st))[i];
    CommittedOnly(Flushed(st, bases, ids, payloads), p);
    CommittedByRef(NewRefs(st.refs, bases, ids, Size(st)), payloads, c, p);
  }

  lemma FlushedByte(st: FileState, bases: seq<int>, ids: seq<int>, payloads: map<int, seq<Byte>>, p: int)
    requires Valid(st) && Persisted(st, bases, ids, payloads)
    requires Shape(Flushed(st, bases, ids, payloads))
    requires 0 <= p < Size(st)
    ensures ByteAt(Flushed(st, bases, ids, payloads), p) == ByteAt(st, p)
  {
    var b := ChunkBase(p);
    if b in st.dirty {
      FlushedDirtyByte(st, bases, ids, payloads, p);
    } else {
      forall c | Covers(c, p) ensures c in st.refs <==> c in NewRefs(st.refs, bases, ids, Size(st)) {
        FlushedCover(st, bases, ids, p, c);
      }
      CommittedSame(st.refs, st.payloads, NewRefs(st.refs, bases, ids, Size(st)), payloads, p);
      if b in st.bufs {
        assert st.bufs[b][p - b] == CommittedAt(st.refs, st.payloads, b + (p - b));
      }
    }
  }

  /** After Flush the committed references alone give the image, at the larger of the logical
      and the committed size. */
  lemma {:induction false} FlushedImage(st: FileState, bases: seq<int>, ids: seq<int>, payloads: map<int, seq<Byte>>)
    requires Valid(st) && Persisted(st, bases, ids, payloads)
    ensures var after := Flushed(st, bases, ids, payloads);
            Valid(after) && Image(after) == Image(st) && CommittedImage(after) == Image(st)
  {
    var after := Flushed(st, bases, ids, payloads);
    NewRefsOk(st, bases, ids, payloads);
    forall p | 0 <= p < Size(st) ensures ByteAt(after, p) == ByteAt(st, p) {
      FlushedByte(st, bases, ids, payloads, p);
    }
    FlushedWithin(st, bases, ids, payloads);
    assert Image(after) == Image(st);
  }

  /** No committed reference reaches past the flushed size. */
  lemma FlushedWithin(st: FileState, bases: seq<int>, ids: seq<int>, payloads: map<int, seq<Byte>>)
    requires Valid(st) && Persisted(st, bases, ids, payloads)
    requires Shape(Flushed(st, bases, ids, payloads))
    ensures var refs := NewRefs(st.refs, bases, ids, Size(st));
            && (forall c :: c in refs && 0 < c.length ==> c.offset + c.length <= Size(st))
            && (forall p :: Size(st) <= p ==> CommittedAt(refs, payloads, p) == 0)
  {
    var refs := NewRefs(st.refs, bases, ids, Size(st));
    forall c | c in refs && 0 < c.length ensures c.offset + c.length <= Size(st) {
      if c in WrittenRefs(bases, ids, Size(st)) {
        var i := WrittenRef(bases, ids, Size(st), c);
      }
    }
    forall p | Size(st) <= p ensures CommittedAt(refs, payloads, p) == 0 {
      assert forall c :: c in refs ==> !Covers(c, p);
    }
  }

  ghost predicate Placeholders(more: seq<ChunkRef>) {
    forall c :: c in more ==> c.length == 0 && 0 <= c.offset && c.offset % CHUNK == 0
  }

  ghost predicate KeepsPayloads(before: map<int, seq<Byte>>, after: map<int, seq<Byte>>) {
    forall id :: id in before ==> id in after && after[id] == before[id]
  }

  lemma PlaceholdersCover(refs: seq<ChunkRef>, pl: map<int, seq<Byte>>, more: seq<ChunkRef>, pl': map<int, seq<Byte>>)
    requires RefsOk(refs, pl) && Placeholders(more) && KeepsPayloads(pl, pl')
    ensures RefsOk(refs + more, pl')
    ensures forall p :: CommittedAt(refs + more, pl', p) == CommittedAt(refs, pl, p)
  {
    forall c | c in refs + more ensures RefOk(c, pl') {
      assert c in refs ==> RefOk(c, pl);
    }
    forall p ensures CommittedAt(refs + more, pl', p) == CommittedAt(refs, pl, p) {
      forall c | Covers(c, p) ensures c in refs <==> c in refs + more {
        assert c !in more;
      }
      CommittedSame(refs, pl, refs + more, pl', p);
    }
  }

  /** Placeholders an abandoned flush leaves behind, and payloads nothing references, are
      invisible. */
  lemma PlaceholdersInvisible(st: FileState, more: seq<ChunkRef>, payloads: map<int, seq<Byte>>)
    requires Valid(st) && Placeholders(more) && KeepsPayloads(st.payloads, payloads)
    ensures var st' := st.(refs := st.refs + more, payloads := payloads);
            Valid(st') && Image(st') == Image(st) && CommittedImage(st') == CommittedImage(st)
  {
    var st' := st.(refs := st.refs + more, payloads := payloads);
    PlaceholdersCover(st.refs, st.payloads, more, payloads);
    assert forall p :: ByteAt(st', p) == ByteAt(st, p);
    assert Image(st') == Image(st);
    var c, c' := FileState(st.refs, st.committed, st.payloads, map[], map[], {}, 0),
                 FileState(st'.refs, st.committed, payloads, map[], map[], {}, 0);
    assert forall p :: ByteAt(c', p) == ByteAt(c, p);
    assert Image(c') == Image(c);
  }

  // ---------- loading spilled chunks back ----------

  /** st' is st with some spilled chunks loaded back into memory. */
  ghost predicate Reloads(st: FileState, bufs: map<int, seq<Byte>>, spill: map<int, seq<Byte>>) {
    && (forall b :: b in st.bufs ==> b in bufs && bufs[b] == st.bufs[b])
    && (forall b :: b in bufs && b !in st.bufs ==> b in st.spill && bufs[b] == st.spill[b])
    && (forall b :: b in spill ==> b in st.spill && spill[b] == st.spill[b])
    && (forall b :: b in st.spill ==> b in spill || b in bufs)
  }

  lemma ReloadsNone(st: FileState)
    ensures Reloads(st, st.bufs, st.spill)
  {
  }

  lemma ReloadsMore(st: FileState, mid: FileState, bufs: map<int, seq<Byte>>, spill: map<int, seq<Byte>>)
    requires Reloads(st, mid.bufs, mid.spill) && Reloads(mid, bufs, spill)
    ensures Reloads(st, bufs, spill)
  {
  }

  lemma ReloadsOk(st: FileState, bufs: map<int, seq<Byte>>, spill: map<int, seq<Byte>>)
    requires BuffersOk(st.spill) && Reloads(st, bufs, spill)
    ensures BuffersOk(spill)
  {
  }

  lemma ReloadsBacking(st: FileState, mid: FileState, base: int)
    requires Reloads(st, mid.bufs, mid.spill) && base in st.bufs.Keys + st.spill.Keys
    ensures base in mid.bufs.Keys + mid.spill.Keys && Backing(mid, base) == Backing(st, base)
  {
  }

  /** The payloads of the first n dirty bases are stored, and nothing stored before changed. */
  ghost predicate Stored(st: FileState, bases: seq<int>, ids: seq<int>, size: int, n: nat, payloads: map<int,
                         seq<Byte>>)
    requires n <= |bases| == |ids|
  {
    && KeepsPayloads(st.payloads, payloads)
    && (forall i :: 0 <= i < n ==>
          && ids[i] in payloads && bases[i] in st.bufs.Keys + st.spill.Keys
          && 0 <= ChunkLen(bases[i], size) <= |Backing(st, bases[i])|
          && payloads[ids[i]] == Backing(st, bases[i])[..ChunkLen(bases[i], size)])
  }

  lemma StoredNone(st: FileState, bases: seq<int>, ids: seq<int>, size: int)
    requires |bases| == |ids|
    ensures Stored(st, bases, ids, size, 0, st.payloads)
  {
  }

  lemma StoredKeeps(st: FileState, bases: seq<int>, ids: seq<int>, size: int, n: nat, payloads: map<int, seq<Byte>>)
    requires n <= |bases| == |ids| && Stored(st, bases, ids, size, n, payloads)
    ensures KeepsPayloads(st.payloads, payloads)
  {
  }

  lemma StoredMore(st: FileState, bases: seq<int>, ids: seq<int>, size: int, n: nat, payloads: map<int, seq<Byte>>,
                   more: seq<Byte>)
    requires n < |bases| == |ids| && Stored(st, bases, ids, size, n, payloads)
    requires ids[n] !in st.payloads && (forall i :: 0 <= i < n ==> ids[i] != ids[n])
    ensures Stored(st, bases, ids, size, n, payloads[ids[n] := more])
    ensures bases[n] in st.bufs.Keys + st.spill.Keys && 0 <= ChunkLen(bases[n], size) <= |Backing(st, bases[n])| &&
            more == Backing(st, bases[n])[..ChunkLen(bases[n], size)] ==>
            Stored(st, bases, ids, size, n + 1, payloads[ids[n] := more])
  {
  }

  /** At most the entry of `id` differs. */
  ghost predicate OnlyAt(before: map<int, seq<Byte>>, after: map<int, seq<Byte>>, id: int) {
    before.Keys <= after.Keys <= before.Keys + {id} && forall k :: k in before && k != id ==> after[k] == before[k]
  }

  lemma OnlyAtId(before: map<int, seq<Byte>>, id: int, data: seq<Byte>)
    ensures OnlyAt(before, before, id) && OnlyAt(before, before[id := data], id)
  {
  }

  lemma StoredAfterError(st: FileState, bases: seq<int>, ids: seq<int>, size: int, n: nat, payloads: map<int,
                         seq<Byte>>, after: map<int, seq<Byte>>)
    requires n < |bases| == |ids| && Stored(st, bases, ids, size, n, payloads) && ids[n] !in st.payloads
    requires OnlyAt(payloads, after, ids[n])
    ensures KeepsPayloads(st.payloads, after)
  {
  }

  /** Every dirty base has a full backing buffer and at least one byte inside the file. */
  lemma DirtyBacking(st: FileState, base: int)
    requires Valid(st) && base in st.dirty
    ensures base in st.bufs.Keys + st.spill.Keys && |Backing(st, base)| == CHUNK
    ensures 0 < ChunkLen(base, Size(st)) <= CHUNK
  {
    assert base in st.bufs.Keys + st.spill.Keys;
    assert base in st.bufs ==> |st.bufs[base]| == CHUNK;
    assert base in st.spill ==> |st.spill[base]| == CHUNK;
  }

  lemma DirtyBackings(st: FileState, bases: seq<int>)
    requires Valid(st) && forall b :: b in bases ==> b in st.dirty
    ensures forall b :: b in bases ==> b in st.bufs.Keys + st.spill.Keys && 0 < ChunkLen(b, Size(st)) <= CHUNK
  {
    forall b | b in bases ensures b in st.bufs.Keys + st.spill.Keys && 0 < ChunkLen(b, Size(st)) <= CHUNK {
      DirtyBacking(st, b);
    }
  }

  lemma StoredPersisted(st: FileState, now: FileState, bases: seq<int>, ids: seq<int>, payloads: map<int, seq<Byte>>)
    requires Valid(st) && now == st.(refs := now.refs)
    requires |bases| == |ids| && Stored(now, bases, ids, Size(st), |bases|, payloads)
    requires forall b :: b in bases <==> b in st.dirty
    requires forall i, j :: 0 <= i < j < |bases| ==> bases[i] < bases[j]
    ensures Persisted(st, bases, ids, payloads)
  {
    forall i | 0 <= i < |bases| ensures |Backing(st, bases[i])| == CHUNK && 0 < ChunkLen(bases[i], Size(st)) <= CHUNK {
      DirtyBacking(st, bases[i]);
    }
  }

  lemma ReloadsImage(st: FileState, bufs: map<int, seq<Byte>>, spill: map<int, seq<Byte>>)
    requires Valid(st) && Reloads(st, bufs, spill)
    ensures var st' := st.(bufs := bufs, spill := spill);
            Valid(st') && Image(st') == Image(st) && CommittedImage(st') == CommittedImage(st)
  {
    var st' := st.(bufs := bufs, spill := spill);
    forall b | b in spill.Keys ensures b in st.dirty {
      assert b in spill;
      assert b in st.spill.Keys;
    }
    forall b | b in st.dirty ensures b in bufs.Keys + spill.Keys {
      assert b in st.bufs.Keys + st.spill.Keys;
    }
    assert forall p :: ByteAt(st', p) == ByteAt(st, p);
    assert Image(st') == Image(st);
  }

  /** An aborted flush: chunks loaded back, payloads and placeholders left behind. */
  lemma AbandonedImage(st: FileState, bufs: map<int, seq<Byte>>, spill: map<int, seq<Byte>>,
                       more: seq<ChunkRef>, payloads: map<int, seq<Byte>>, st': FileState)
    requires Valid(st) && Reloads(st, bufs, spill) && Placeholders(more) && KeepsPayloads(st.payloads, payloads)
    requires st' == st.(bufs := bufs, spill := spill, refs := st.refs + more, payloads := payloads)
    ensures Valid(st') && Image(st') == Image(st) && CommittedImage(st') == CommittedImage(st)
    ensures st.spill == map[] ==> spill == map[]
  {
    assert forall b :: b in spill ==> b in st.spill;
    assert st.spill == map[] ==> spill == map[];
    ReloadsImage(st, bufs, spill);
    PlaceholdersInvisible(st.(bufs := bufs, spill := spill), more, payloads);
  }
}
