/**
 What hydrating, writing, spilling and flushing do to the image, on values.  The class in
 BufferedFile.dfy establishes the premises of these lemmas loop by loop.
 */
module BufferOps {
  import opened Bytes
  import opened BufferImage

  // ---------- hydration ----------

  ghost predicate HoldsCommitted(buf: seq<Byte>, refs: seq<ChunkRef>, payloads: map<int, seq<Byte>>, base: int)
    requires RefsOk(refs, payloads)
  {
    |buf| == CHUNK && forall k :: 0 <= k < CHUNK ==> buf[k] == CommittedAt(refs, payloads, base + k)
  }

  /** loadCommittedChunkLocked's overlap test against one chunk base. */
  predicate InBase(r: ChunkRef, base: int) {
    r.offset + r.length > base && r.offset < base + CHUNK
  }

  /** An aligned reference that overlaps a base starts on it, and the chunk's committed image
      is its payload followed by zeros. */
  lemma {:induction false} HydratedChunk(refs: seq<ChunkRef>, payloads: map<int, seq<Byte>>, base: int, c: ChunkRef)
    requires RefsOk(refs, payloads) && base % CHUNK == 0
    requires c in refs && InBase(c, base)
    ensures c.offset == base && 0 < c.length && RefOk(c, payloads)
    ensures HoldsCommitted(Overlay(Zeros(CHUNK), 0, payloads[c.id]), refs, payloads, base)
  {
    assert RefOk(c, payloads);
    BaseIs(c.offset, base);
    BaseIs(c.offset, c.offset);
    var buf := Overlay(Zeros(CHUNK), 0, payloads[c.id]);
    forall k | 0 <= k < CHUNK ensures buf[k] == CommittedAt(refs, payloads, base + k) {
      if k < c.length {
        CommittedByRef(refs, payloads, c, base + k);
      } else {
        forall d | d in refs && Covers(d, base + k) ensures d == c {
          assert RefOk(d, payloads);
          BaseIs(base + k, d.offset);
          BaseIs(base + k, base);
        }
      }
    }
  }

  lemma UnreferencedChunk(refs: seq<ChunkRef>, payloads: map<int, seq<Byte>>, base: int)
    requires RefsOk(refs, payloads)
    requires forall c :: c in refs ==> !InBase(c, base)
    ensures HoldsCommitted(Zeros(CHUNK), refs, payloads, base)
  {
    forall p | base <= p < base + CHUNK ensures CommittedAt(refs, payloads, p) == 0 {
      assert forall c :: c in refs && Covers(c, p) ==> InBase(c, base);
    }
  }

  /** `bufs` is `st.bufs` with some bases of T added, each holding its committed bytes. */
  ghost predicate Hydrates(st: FileState, bufs: map<int, seq<Byte>>, T: set<int>)
    requires RefsOk(st.refs, st.payloads)
  {
    && st.bufs.Keys <= bufs.Keys <= st.bufs.Keys + T
    && (forall b :: b in st.bufs ==> bufs[b] == st.bufs[b])
    && (forall b :: b in bufs && b !in st.bufs ==> HoldsCommitted(bufs[b], st.refs, st.payloads, b))
  }

  /** A base of T left without a buffer has no committed bytes. */
  ghost predicate NothingMissed(st: FileState, bufs: map<int, seq<Byte>>, T: set<int>)
    requires RefsOk(st.refs, st.payloads)
  {
    forall b :: b in T && b !in bufs ==> HoldsCommitted(Zeros(CHUNK), st.refs, st.payloads, b)
  }

  ghost predicate Bases(T: set<int>) {
    forall b :: b in T ==> 0 <= b && b % CHUNK == 0
  }

  /** Hydration alone changes nothing but the spill files it shadows. */
  lemma HydrateImage(st: FileState, bufs: map<int, seq<Byte>>, T: set<int>)
    requires Shape(st) && Bases(T) && Hydrates(st, bufs, T)
    ensures Shape(st.(bufs := bufs))
    ensures forall p :: ByteAt(Forget(st.(bufs := bufs), T), p) == ByteAt(Forget(st, T), p)
  {
    var f, g := Forget(st, T), Forget(st.(bufs := bufs), T);
    forall p ensures ByteAt(g, p) == ByteAt(f, p) {
      var b := ChunkBase(p);
      if b in bufs && b !in st.bufs {
        assert HoldsCommitted(bufs[b], st.refs, st.payloads, b);
        assert bufs[b][p - b] == CommittedAt(st.refs, st.payloads, b + (p - b));
      }
    }
  }

  // ---------- writing ----------

  /** `after` is `before` with `data` copied at file offset `off`: every touched base gets a
      buffer, a base that had none starting from zeros. */
  ghost predicate Copied(before: map<int, seq<Byte>>, after: map<int, seq<Byte>>, off: int, data: seq<Byte>) {
    && after.Keys == before.Keys + Touched(off, off + |data|)
    && (forall b :: b in before && b !in Touched(off, off + |data|) ==> after[b] == before[b])
    && (forall b :: b in Touched(off, off + |data|) ==> |after[b]| == CHUNK)
    && (forall b, k :: b in Touched(off, off + |data|) && 0 <= k < CHUNK && b in before && |before[b]| == CHUNK ==>
          after[b][k] == if off <= b + k < off + |data| then data[b + k - off] else before[b][k])
    && (forall b, k :: b in Touched(off, off + |data|) && 0 <= k < CHUNK && b !in before ==>
          after[b][k] == if off <= b + k < off + |data| then data[b + k - off] else 0)
  }

  lemma CopiedByte(st: FileState, bufs: map<int, seq<Byte>>, after: map<int, seq<Byte>>, off: nat, data: seq<Byte>,
                   p: int)
    requires Shape(st) && BuffersOk(bufs) && BuffersOk(after)
    requires var T := Touched(off, off + |data|);
             Hydrates(st, bufs, T) && NothingMissed(st, bufs, T) && Copied(bufs, after, off, data)
    ensures ByteAt(st.(bufs := after), p) ==
            if off <= p < off + |data| then data[p - off]
            else ByteAt(Forget(st, Touched(off, off + |data|)), p)
  {
    var T := Touched(off, off + |data|);
    var b := ChunkBase(p);
    if off <= p < off + |data| {
      assert b in T;
      assert after[b][p - b] == data[b + (p - b) - off];
    } else if b in T {
      if b in bufs {
        assert after[b][p - b] == bufs[b][p - b];
        if b !in st.bufs {
          assert HoldsCommitted(bufs[b], st.refs, st.payloads, b);
          assert bufs[b][p - b] == CommittedAt(st.refs, st.payloads, b + (p - b));
        }
      } else {
        assert HoldsCommitted(Zeros(CHUNK), st.refs, st.payloads, b);
        assert Zeros(CHUNK)[p - b] == CommittedAt(st.refs, st.payloads, b + (p - b));
      }
    } else if b in after {
      assert b in bufs && after[b] == bufs[b] && b in st.bufs;
    }
  }

  lemma CopiedShape(st: FileState, bufs: map<int, seq<Byte>>, after: map<int, seq<Byte>>, off: nat, data: seq<Byte>)
    requires Shape(st)
    requires var T := Touched(off, off + |data|);
             Hydrates(st, bufs, T) && NothingMissed(st, bufs, T) && Copied(bufs, after, off, data)
    ensures BuffersOk(bufs) && BuffersOk(after)
  {
    var T := Touched(off, off + |data|);
    forall b | b in bufs ensures 0 <= b && b % CHUNK == 0 && |bufs[b]| == CHUNK {
      if b !in st.bufs {
        assert b in T;
        assert HoldsCommitted(bufs[b], st.refs, st.payloads, b);
      }
    }
    forall b | b in T ensures 0 <= b && b % CHUNK == 0 {
    }
  }

  /** A write, a zero-fill, or anything that copies `data` at `off` over hydrated buffers:
      the image becomes the old one, minus the spill files of the touched bases, with `data`
      spliced in; and the state stays valid. */
  lemma CopiedImage(st: FileState, bufs: map<int, seq<Byte>>, after: map<int, seq<Byte>>, off: nat, data: seq<Byte>,
                    st': FileState)
    requires Valid(st) && off + |data| <= Size(st')
    requires var T := Touched(off, off + |data|);
             && Hydrates(st, bufs, T) && NothingMissed(st, bufs, T) && Copied(bufs, after, off, data)
             && st' == st.(bufs := after, dirty := st.dirty + T, logical := st'.logical, committed := st'.committed)
    requires st.committed <= st'.committed && Size(st') == Max(Size(st), off + |data|) && 0 <= st'.logical
    ensures Valid(st')
    ensures Image(st') == Splice(Image(Forget(st, Touched(off, off + |data|))), off, data)
  {
    var T := Touched(off, off + |data|);
    var f := Forget(st, T);
    CopiedShape(st, bufs, after, off, data);
    ForgetBeyond(st, T);
    forall p ensures ByteAt(st', p) == if off <= p < off + |data| then data[p - off] else ByteAt(f, p) {
      CopiedByte(st, bufs, after, off, data, p);
    }
    CopiedClean(st, bufs, after, off, data);
    assert Image(st') == Splice(Image(f), off, data);
  }

  /** Buffers that are still clean after a copy hold committed bytes. */
  lemma CopiedClean(st: FileState, bufs: map<int, seq<Byte>>, after: map<int, seq<Byte>>, off: nat, data: seq<Byte>)
    requires Valid(st) && BuffersOk(after)
    requires var T := Touched(off, off + |data|);
             Hydrates(st, bufs, T) && Copied(bufs, after, off, data)
    ensures forall b, k :: b in after && b !in st.dirty + Touched(off, off + |data|) && 0 <= k < CHUNK ==>
              after[b][k] == CommittedAt(st.refs, st.payloads, b + k)
  {
    var T := Touched(off, off + |data|);
    forall b, k | b in after && b !in st.dirty + T && 0 <= k < CHUNK
      ensures after[b][k] == CommittedAt(st.refs, st.payloads, b + k)
    {
      assert b in bufs && after[b] == bufs[b] && b in st.bufs;
    }
  }

  /** Forgetting spill files never uncovers bytes past the end of the file. */
  lemma ForgetBeyond(st: FileState, T: set<int>)
    requires Valid(st)
    ensures forall p :: Size(st) <= p ==> ByteAt(Forget(st, T), p) == 0
  {
    forall p | Size(st) <= p ensures ByteAt(Forget(st, T), p) == 0 {
      assert ByteAt(st, p) == 0;
      assert forall c :: c in st.refs ==> !Covers(c, p);
    }
  }

  /** Buffers of every base of T, holding what was there or the committed bytes: the image is
      the old one, minus the spill files of T, zero-extended to the new size. */
  lemma TouchedImage(st: FileState, bufs: map<int, seq<Byte>>, T: set<int>, st': FileState)
    requires Valid(st) && Bases(T) && Hydrates(st, bufs, T) && T <= bufs.Keys
    requires st' == st.(bufs := bufs, logical := st'.logical, committed := st'.committed)
    requires Size(st) <= Size(st') && st.committed <= st'.committed && 0 <= st'.logical
    ensures Valid(st')
    ensures Image(st') == Grow(Image(Forget(st, T)), Size(st'))
  {
    HydrateImage(st, bufs, T);
    ForgetBeyond(st, T);
    forall b, k | b in bufs && b !in st.dirty && 0 <= k < CHUNK
      ensures bufs[b][k] == CommittedAt(st.refs, st.payloads, b + k)
    {
      if b !in st.bufs {
        assert HoldsCommitted(bufs[b], st.refs, st.payloads, b);
      }
    }
    forall p ensures ByteAt(st', p) == ByteAt(Forget(st, T), p) {
      assert ByteAt(Forget(st.(bufs := bufs), T), p) == ByteAt(Forget(st, T), p);
    }
    assert Image(st') == Grow(Image(Forget(st, T)), Size(st'));
  }

  // ---------- spilling ----------

  /** spillToDisk moves one resident buffer to the staging directory, loadFromDisk one back. */
  ghost function Spilled(st: FileState, evicted: Option<int>): FileState {
    if evicted.None? || evicted.value !in st.bufs then st
    else st.(bufs := st.bufs - {evicted.value}, spill := st.spill[evicted.value := st.bufs[evicted.value]])
  }

  ghost function Loaded(st: FileState, base: int): FileState
    requires base in st.spill
  {
    st.(bufs := st.bufs[base := st.spill[base]], spill := st.spill - {base})
  }

  lemma SpillKeepsImage(st: FileState, evicted: Option<int>)
    requires Valid(st) && (evicted.Some? ==> evicted.value in st.dirty)
    ensures Valid(Spilled(st, evicted))
    ensures Image(Spilled(st, evicted)) == Image(st)
  {
    var s := Spilled(st, evicted);
    assert forall p :: ByteAt(s, p) == ByteAt(st, p);
  }

  lemma LoadKeepsImage(st: FileState, base: int)
    requires Valid(st) && base in st.spill && base !in st.bufs
    ensures Valid(Loaded(st, base))
    ensures Image(Loaded(st, base)) == Image(st)
    ensures Spilled(Loaded(st, base), Some(base)) == st
  {
    var s := Loaded(st, base);
    assert forall p :: ByteAt(s, p) == ByteAt(st, p);
    assert s.bufs - {base} == st.bufs;
    assert Spilled(s, Some(base)).spill == st.spill;
  }

  // ---------- the chunk-by-chunk walk of a range ----------

  /** Where the walk over a range ending at `end` goes from `pos`: to the end of its chunk. */
  function Next(pos: int, end: int): (n: int)
    ensures pos < end ==> pos < n <= end
  {
    Min(ChunkBase(pos) + CHUNK, end)
  }

  lemma TouchedSplit(pos: int, end: int)
    requires pos < end
    ensures ChunkBase(pos) !in Touched(Next(pos, end), end)
    ensures Touched(pos, end) == {ChunkBase(pos)} + Touched(Next(pos, end), end)
  {
    forall b ensures b in Touched(pos, end) <==> b in {ChunkBase(pos)} + Touched(Next(pos, end), end) {
      if b in Touched(pos, end) && b < ChunkBase(pos) + CHUNK {
        BaseIs(pos, if b <= pos then b else b - CHUNK);
      }
    }
  }

  /** The bases of a range that have no buffer yet. */
  function NewBases(bufs: map<int, seq<Byte>>, pos: int, end: int): set<int>
    decreases end - pos
  {
    if pos >= end then {}
    else (if ChunkBase(pos) in bufs then {} else {ChunkBase(pos)}) + NewBases(bufs, Next(pos, end), end)
  }

  lemma NoBases(pos: int)
    ensures NewBases(map[], pos, pos) == {}
  {
  }

  lemma {:induction false} NewBasesAre(bufs: map<int, seq<Byte>>, pos: int, end: int)
    ensures NewBases(bufs, pos, end) == Touched(pos, end) - bufs.Keys
    decreases end - pos
  {
    if pos < end {
      TouchedSplit(pos, end);
      NewBasesAre(bufs, Next(pos, end), end);
    }
  }

  /** The reference overlapping a base, if there is one. */
  function RefFor(refs: seq<ChunkRef>, base: int): (r: Option<ChunkRef>)
    ensures r.Some? ==> r.value in refs && InBase(r.value, base)
    ensures r.None? ==> forall c :: c in refs ==> !InBase(c, base)
  {
    if refs == [] then None
    else if InBase(refs[0], base) then Some(refs[0])
    else RefFor(refs[1..], base)
  }

  /** One chunk of a range hydrated: left alone when it has a buffer or nothing committed. */
  ghost function HydrateOne(refs: seq<ChunkRef>, payloads: map<int, seq<Byte>>, bufs: map<int, seq<Byte>>,
                            base: int): map<int, seq<Byte>>
    requires RefsOk(refs, payloads)
  {
    match RefFor(refs, base)
    case None => bufs
    case Some(c) =>
      if base in bufs || c.id !in payloads || |payloads[c.id]| > CHUNK then bufs
      else bufs[base := Overlay(Zeros(CHUNK), 0, payloads[c.id])]
  }

  ghost function HydrateFrom(refs: seq<ChunkRef>, payloads: map<int, seq<Byte>>, bufs: map<int, seq<Byte>>, pos: int,
                             end: int): map<int, seq<Byte>>
    requires RefsOk(refs, payloads)
    decreases end - pos
  {
    if pos >= end then bufs
    else HydrateFrom(refs, payloads, HydrateOne(refs, payloads, bufs, ChunkBase(pos)), Next(pos, end), end)
  }

  lemma OverlayTwice(s: seq<Byte>, d: seq<Byte>)
    requires |d| <= |s|
    ensures Overlay(Overlay(s, 0, d), 0, d) == Overlay(s, 0, d)
  {
  }

  lemma HydrateOneIs(refs: seq<ChunkRef>, payloads: map<int, seq<Byte>>, bufs: map<int, seq<Byte>>, base: int)
    requires RefsOk(refs, payloads) && base % CHUNK == 0
    ensures var after := HydrateOne(refs, payloads, bufs, base);
            && bufs.Keys <= after.Keys <= bufs.Keys + {base}
            && (forall b :: b in bufs ==> after[b] == bufs[b])
            && (base !in bufs ==>
                  HoldsCommitted(if base in after then after[base] else Zeros(CHUNK), refs, payloads, base))
  {
    match RefFor(refs, base)
    case None => UnreferencedChunk(refs, payloads, base);
    case Some(c) =>
      HydratedChunk(refs, payloads, base, c);
  }

  lemma {:induction false} HydrateFromIs(st: FileState, bufs: map<int, seq<Byte>>, pos: int, end: int)
    requires RefsOk(st.refs, st.payloads)
    ensures var after := HydrateFrom(st.refs, st.payloads, bufs, pos, end);
            var T := Touched(pos, end);
            Hydrates(st.(bufs := bufs), after, T) && NothingMissed(st.(bufs := bufs), after, T)
    decreases end - pos
  {
    if pos < end {
      var base, next := ChunkBase(pos), Next(pos, end);
      var one := HydrateOne(st.refs, st.payloads, bufs, base);
      TouchedSplit(pos, end);
      HydrateOneIs(st.refs, st.payloads, bufs, base);
      HydrateFromIs(st, one, next, end);
    }
  }

  /** `piece` copied at `at` into the buffer of a base, which starts from zeros if new. */
  function Patch(bufs: map<int, seq<Byte>>, base: int, at: nat, piece: seq<Byte>): map<int, seq<Byte>>
    requires base in bufs ==> |bufs[base]| == CHUNK
    requires at + |piece| <= CHUNK
  {
    bufs[base := Overlay(if base in bufs then bufs[base] else Zeros(CHUNK), at, piece)]
  }

  lemma PatchByte(bufs: map<int, seq<Byte>>, base: int, at: nat, piece: seq<Byte>, b: int, k: nat)
    requires Sized(bufs) && at + |piece| <= CHUNK && k < CHUNK
    ensures var after := Patch(bufs, base, at, piece);
            && Sized(after) && after.Keys == bufs.Keys + {base}
            && (b in after ==>
                  after[b][k] == if b == base && at <= k < at + |piece| then piece[k - at]
                                 else if b in bufs then bufs[b][k] else 0)
  {
  }

  /** One piece of `data`, written at `off`, copied into the chunk holding `pos`. */
  function CopyOne(bufs: map<int, seq<Byte>>, data: seq<Byte>, off: int, pos: int): map<int, seq<Byte>>
    requires off <= pos < off + |data|
    requires ChunkBase(pos) in bufs ==> |bufs[ChunkBase(pos)]| == CHUNK
  {
    Patch(bufs, ChunkBase(pos), pos - ChunkBase(pos), data[pos - off..Next(pos, off + |data|) - off])
  }

  ghost predicate Sized(bufs: map<int, seq<Byte>>) { forall b :: b in bufs ==> |bufs[b]| == CHUNK }

  ghost function CopyFrom(bufs: map<int, seq<Byte>>, data: seq<Byte>, off: int, pos: int): map<int, seq<Byte>>
    requires off <= pos && Sized(bufs)
    decreases off + |data| - pos
  {
    if pos >= off + |data| then bufs
    else CopyFrom(CopyOne(bufs, data, off, pos), data, off, Next(pos, off + |data|))
  }

  lemma {:induction false} CopyFromKeys(bufs: map<int, seq<Byte>>, data: seq<Byte>, off: int, pos: int)
    requires off <= pos && Sized(bufs)
    ensures var after := CopyFrom(bufs, data, off, pos);
            Sized(after) && after.Keys == bufs.Keys + Touched(pos, off + |data|)
    decreases off + |data| - pos
  {
    if pos < off + |data| {
      TouchedSplit(pos, off + |data|);
      CopyFromKeys(CopyOne(bufs, data, off, pos), data, off, Next(pos, off + |data|));
    }
  }

  lemma CopyOneByte(bufs: map<int, seq<Byte>>, data: seq<Byte>, off: int, pos: int, b: int, k: int)
    requires off <= pos < off + |data| && Sized(bufs) && 0 <= k < CHUNK && b % CHUNK == 0
    ensures var after := CopyOne(bufs, data, off, pos);
            Sized(after) && (pos <= b + k < Next(pos, off + |data|) ==> b in after) &&
            (b in bufs ==> b in after) &&
            (b in after ==>
               after[b][k] == if pos <= b + k < Next(pos, off + |data|) then data[b + k - off]
                              else if b in bufs then bufs[b][k] else 0)
  {
    if pos <= b + k < Next(pos, off + |data|) {
      SameChunk(pos, off + |data|, b, k);
    }
    PieceByte(bufs, data, off, pos, ChunkBase(pos), Next(pos, off + |data|), b, k);
  }

  lemma PieceByte(bufs: map<int, seq<Byte>>, data: seq<Byte>, off: int, pos: int, base: int, next: int, b: int, k: int)
    requires off <= pos < next <= off + |data| && base <= pos && next <= base + CHUNK
    requires Sized(bufs) && 0 <= k < CHUNK && (pos <= b + k < next ==> b == base)
    ensures var after := Patch(bufs, base, pos - base, data[pos - off..next - off]);
            Sized(after) && (pos <= b + k < next ==> b in after) && (b in bufs ==> b in after) &&
            (b in after ==>
               after[b][k] == if pos <= b + k < next then data[b + k - off]
                              else if b in bufs then bufs[b][k] else 0)
  {
    hide Overlay;
    var piece := data[pos - off..next - off];
    PatchByte(bufs, base, pos - base, piece, b, k);
    assert pos <= b + k < next ==> piece[k - (pos - base)] == data[b + k - off];
  }

  lemma SameChunk(pos: int, end: int, b: int, k: int)
    requires pos < end && 0 <= k < CHUNK && b % CHUNK == 0 && pos <= b + k < Next(pos, end)
    ensures b == ChunkBase(pos)
  {
    BaseIs(b + k, b);
    BaseIs(b + k, ChunkBase(pos));
  }

  /** The byte a chunk buffer holds once `data` from `pos` on has been copied. */
  lemma {:induction false} CopyFromByte(bufs: map<int, seq<Byte>>, data: seq<Byte>, off: int, pos: int, b: int, k: int)
    requires off <= pos && Sized(bufs) && 0 <= k < CHUNK && b % CHUNK == 0
    ensures var after := CopyFrom(bufs, data, off, pos);
            Sized(after) &&
            (b in after ==>
               after[b][k] == if pos <= b + k < off + |data| then data[b + k - off]
                              else if b in bufs then bufs[b][k] else 0)
    decreases off + |data| - pos
  {
    var end := off + |data|;
    if pos < end {
      var next := Next(pos, end);
      var one := CopyOne(bufs, data, off, pos);
      CopyOneByte(bufs, data, off, pos, b, k);
      CopyFromByte(one, data, off, next, b, k);
      assert CopyFrom(bufs, data, off, pos) == CopyFrom(one, data, off, next);
    }
  }

  lemma {:induction false} CopyFromIs(bufs: map<int, seq<Byte>>, data: seq<Byte>, off: int)
    requires Sized(bufs)
    ensures Copied(bufs, CopyFrom(bufs, data, off, off), off, data)
  {
    hide CopyFrom, Touched;
    var after := CopyFrom(bufs, data, off, off);
    CopyFromKeys(bufs, data, off, off);
    forall b, k | b in Touched(off, off + |data|) && 0 <= k < CHUNK
      ensures b in after && |after[b]| == CHUNK &&
              after[b][k] == if off <= b + k < off + |data| then data[b + k - off]
                             else if b in bufs then bufs[b][k] else 0
    {
      CopyFromByte(bufs, data, off, off, b, k);
    }
    forall b | b in bufs && b !in Touched(off, off + |data|) ensures after[b] == bufs[b] {
      CopyFromOther(bufs, data, off, off, b);
    }
  }

  lemma {:induction false} CopyFromOther(bufs: map<int, seq<Byte>>, data: seq<Byte>, off: int, pos: int, b: int)
    requires off <= pos && Sized(bufs) && b in bufs && b !in Touched(pos, off + |data|)
    ensures var after := CopyFrom(bufs, data, off, pos); b in after && after[b] == bufs[b]
    decreases off + |data| - pos
  {
    if pos < off + |data| {
      TouchedSplit(pos, off + |data|);
      CopyFromOther(CopyOne(bufs, data, off, pos), data, off, Next(pos, off + |data|), b);
    }
  }

  lemma UnionBound(a: set<int>, b: set<int>, c: set<int>)
    ensures |a + b + c| <= |a| + |b| + |c|
  {
  }

  // ---------- touching without writing ----------

  function Allocate(bufs: map<int, seq<Byte>>, base: int): map<int, seq<Byte>> {
    if base in bufs then bufs else bufs[base := Zeros(CHUNK)]
  }

  ghost function TouchFrom(refs: seq<ChunkRef>, payloads: map<int, seq<Byte>>, bufs: map<int, seq<Byte>>, pos: int,
                           end: int): map<int, seq<Byte>>
    requires RefsOk(refs, payloads)
    decreases end - pos
  {
    if pos >= end then bufs
    else
      var one := Allocate(HydrateOne(refs, payloads, bufs, ChunkBase(pos)), ChunkBase(pos));
      TouchFrom(refs, payloads, one, Next(pos, end), end)
  }

  lemma {:induction false} TouchFromIs(st: FileState, bufs: map<int, seq<Byte>>, pos: int, end: int)
    requires RefsOk(st.refs, st.payloads)
    ensures var after := TouchFrom(st.refs, st.payloads, bufs, pos, end);
            Hydrates(st.(bufs := bufs), after, Touched(pos, end)) && Touched(pos, end) <= after.Keys
    decreases end - pos
  {
    if pos < end {
      var base, next := ChunkBase(pos), Next(pos, end);
      var one := Allocate(HydrateOne(st.refs, st.payloads, bufs, base), base);
      TouchedSplit(pos, end);
      HydrateOneIs(st.refs, st.payloads, bufs, base);
      TouchFromIs(st, one, next, end);
    }
  }

  /** The code's base-by-base walks take the same steps as the walks above. */
  lemma NextBase(base: int, end: int)
    requires base % CHUNK == 0
    ensures ChunkBase(base) == base && Next(base, end) == Min(base + CHUNK, end)
  {
    BaseIs(base, base);
  }

  lemma HydrateFromBase(refs: seq<ChunkRef>, payloads: map<int, seq<Byte>>, bufs: map<int, seq<Byte>>, off: int,
                        end: int)
    requires RefsOk(refs, payloads) && off < end
    ensures HydrateFrom(refs, payloads, bufs, ChunkBase(off), end) == HydrateFrom(refs, payloads, bufs, off, end)
  {
    NextBase(ChunkBase(off), end);
  }

  lemma HydrateStep(refs: seq<ChunkRef>, payloads: map<int, seq<Byte>>, bufs: map<int, seq<Byte>>, base: int, end: int)
    requires RefsOk(refs, payloads) && base % CHUNK == 0 && base < end
    ensures HydrateFrom(refs, payloads, bufs, base, end) ==
            HydrateFrom(refs, payloads, HydrateOne(refs, payloads, bufs, base), base + CHUNK, end)
    ensures base in bufs ==> HydrateOne(refs, payloads, bufs, base) == bufs
  {
    NextBase(base, end);
  }

  lemma TouchStep(refs: seq<ChunkRef>, payloads: map<int, seq<Byte>>, bufs: map<int, seq<Byte>>, base: int, end: int)
    requires RefsOk(refs, payloads) && base % CHUNK == 0 && base < end
    ensures TouchFrom(refs, payloads, bufs, base, end) ==
            TouchFrom(refs, payloads, Allocate(HydrateOne(refs, payloads, bufs, base), base), base + CHUNK, end)
    ensures base in bufs ==> HydrateOne(refs, payloads, bufs, base) == bufs
  {
    NextBase(base, end);
  }

  /** Zeroing base by base starts each piece at `off` or at the base, whichever is later. */
  lemma ZeroStep(off: int, end: int, base: int)
    requires off < end && base % CHUNK == 0 && ChunkBase(off) <= base < end
    ensures ChunkBase(Max(base, off)) == base
    ensures Next(Max(base, off), end) == Min(base + CHUNK, end)
    ensures Max(base + CHUNK, off) == base + CHUNK
  {
    BaseIs(Max(base, off), base);
  }

  lemma CopyStep(bufs: map<int, seq<Byte>>, data: seq<Byte>, off: int, base: int)
    requires Sized(bufs) && data != [] && base % CHUNK == 0 && ChunkBase(off) <= base < off + |data|
    ensures Sized(CopyOne(bufs, data, off, Max(base, off)))
    ensures CopyFrom(bufs, data, off, Max(base, off)) ==
            CopyFrom(CopyOne(bufs, data, off, Max(base, off)), data, off, base + CHUNK)
  {
    hide CopyFrom, CopyOne, NewBases, ChunkBase, Next;
    var pos, end := Max(base, off), off + |data|;
    ZeroStep(off, end, base);
    CopyFromNext(bufs, data, off, pos);
    if end < base + CHUNK {
      CopyDone(CopyOne(bufs, data, off, pos), data, off, end);
      CopyDone(CopyOne(bufs, data, off, pos), data, off, base + CHUNK);
    }
  }

  lemma CopyFromNext(bufs: map<int, seq<Byte>>, data: seq<Byte>, off: int, pos: int)
    requires Sized(bufs) && off <= pos < off + |data|
    ensures Sized(CopyOne(bufs, data, off, pos))
    ensures CopyFrom(bufs, data, off, pos) == CopyFrom(CopyOne(bufs, data, off, pos), data, off, Next(pos, off + |data|))
    ensures NewBases(map[], pos, off + |data|) == {ChunkBase(pos)} + NewBases(map[], Next(pos, off + |data|), off + |data|)
  {
  }

  lemma UnionStep(done: set<int>, b: int, rest: set<int>, here: set<int>, all: set<int>)
    requires here == {b} + rest && done + here == all
    ensures done + {b} + rest == all
  {
  }

  lemma UnionDone(done: set<int>, rest: set<int>, all: set<int>)
    requires rest == {} && done + rest == all
    ensures done == all
  {
  }

  lemma NewBasesStep(off: int, end: int, base: int)
    requires off < end && base % CHUNK == 0 && ChunkBase(off) <= base < end
    ensures NewBases(map[], Max(base, off), end) == {base} + NewBases(map[], base + CHUNK, end)
  {
    ZeroStep(off, end, base);
  }

  lemma CopyDone(bufs: map<int, seq<Byte>>, data: seq<Byte>, off: int, pos: int)
    requires Sized(bufs) && off <= pos && off + |data| <= pos
    ensures CopyFrom(bufs, data, off, pos) == bufs && NewBases(map[], pos, off + |data|) == {}
  {
  }

  lemma TouchedState(st: FileState, off: nat, end: int, st': FileState)
    requires Valid(st) && RefsOk(st.refs, st.payloads)
    requires st' == st.(bufs := TouchFrom(st.refs, st.payloads, st.bufs, ChunkBase(off), end),
                        logical := st'.logical, committed := st'.committed)
    requires Size(st) <= Size(st') && st.committed <= st'.committed && 0 <= st'.logical
    ensures Valid(st')
    ensures Image(st') == Grow(Image(Forget(st, Touched(ChunkBase(off), end))), Size(st'))
  {
    assert st.(bufs := st.bufs) == st;
    TouchFromIs(st, st.bufs, ChunkBase(off), end);
    TouchedImage(st, st'.bufs, Touched(ChunkBase(off), end), st');
  }

  lemma ForgetNone(st: FileState, T: set<int>)
    ensures st.spill.Keys !! T ==> Forget(st, T) == st
  {
  }

  // ---------- a whole write ----------

  ghost function Hydrated(st: FileState, off: int, end: int): (bufs: map<int, seq<Byte>>)
    requires Shape(st)
    ensures Sized(bufs)
  {
    var bufs := HydrateFrom(st.refs, st.payloads, st.bufs, off, end);
    HydrateFromIs(st, st.bufs, off, end);
    assert st.(bufs := st.bufs) == st;
    bufs
  }

  /** Hydrate the range, copy the data over it, mark its bases dirty. */
  ghost function Wrote(st: FileState, off: int, data: seq<Byte>): FileState
    requires Shape(st)
  {
    st.(bufs := CopyFrom(Hydrated(st, off, off + |data|), data, off, off),
        dirty := st.dirty + NewBases(map[], off, off + |data|))
  }

  lemma WroteSizes(st: FileState, off: int, data: seq<Byte>)
    requires Shape(st)
    ensures var w := Wrote(st, off, data);
            && w == st.(bufs := w.bufs, dirty := w.dirty) && (data != [] ==> w.dirty != {})
  {
    if data != [] {
      assert ChunkBase(off) in NewBases(map[], off, off + |data|);
    }
  }

  /** The end of a zero-fill: clamped to the file unless it may extend it. */
  function ZeroEnd(st: FileState, off: int, size: int, extend: bool): int {
    if extend then off + size else Min(off + size, Size(st))
  }

  /** What a write does to the image, whatever it does to the two sizes. */
  lemma WroteImage(st: FileState, off: nat, data: seq<Byte>, st': FileState)
    requires Valid(st)
    requires st' == Wrote(st, off, data).(logical := st'.logical, committed := st'.committed)
    requires st.committed <= st'.committed && 0 <= st'.logical && Size(st') == Max(Size(st), off + |data|)
    ensures Valid(st')
    ensures st'.bufs.Keys == st.bufs.Keys + Touched(off, off + |data|)
    ensures Image(st') == Splice(Image(Forget(st, Touched(off, off + |data|))), off, data)
  {
    hide CopyFrom, HydrateFrom, NewBases, RefsOk, BuffersOk, Touched, Splice;
    var end := off + |data|;
    var bufs := Hydrated(st, off, end);
    assert st.(bufs := st.bufs) == st;
    HydrateFromIs(st, st.bufs, off, end);
    CopyFromIs(bufs, data, off);
    NewBasesAre(map[], off, end);
    CopiedImage(st, bufs, st'.bufs, off, data, st');
  }

  /** A zero-fill is a write of zeros. */
  lemma ZeroedImage(st: FileState, off: nat, end: int, st': FileState)
    requires Valid(st) && off < end
    requires st' == Wrote(st, off, Zeros(end - off)).(logical := st'.logical, committed := st'.committed)
    requires st.committed <= st'.committed && 0 <= st'.logical && Size(st') == Max(Size(st), end)
    ensures Valid(st') && st'.spill == st.spill
    ensures Image(st') == Splice(Image(Forget(st, Touched(off, end))), off, Zeros(end - off))
    ensures st.spill.Keys !! Touched(off, end) ==> Image(st') == Splice(Image(st), off, Zeros(end - off))
  {
    WroteImage(st, off, Zeros(end - off), st');
  }

  /** The state after a write that evicted `evicted` to make room. */
  ghost function Written(st: FileState, evicted: Option<int>, off: int, data: seq<Byte>): FileState
    requires Shape(st)
  {
    Wrote(Spilled(st, evicted), off, data).(logical := Max(st.logical, off + |data|))
  }

  lemma WrittenImage(st: FileState, evicted: Option<int>, off: nat, data: seq<Byte>)
    requires Valid(st) && (evicted.Some? ==> evicted.value in st.dirty)
    ensures var s := Spilled(st, evicted);
            var T := Touched(off, off + |data|);
            && Valid(Written(st, evicted, off, data)) && Shape(s)
            && Written(st, evicted, off, data).spill == s.spill
            && Image(Written(st, evicted, off, data)) == Splice(Image(Forget(s, T)), off, data)
            && (s.spill.Keys !! T ==> Image(Written(st, evicted, off, data)) == Splice(Image(st), off, data))
  {
    SpillKeepsImage(st, evicted);
    WroteImage(Spilled(st, evicted), off, data, Written(st, evicted, off, data));
  }

  lemma WroteKeys(st: FileState, off: int, data: seq<Byte>)
    requires Shape(st)
    ensures Wrote(st, off, data).bufs.Keys == st.bufs.Keys + Touched(off, off + |data|)
  {
    assert st.(bufs := st.bufs) == st;
    HydrateFromIs(st, st.bufs, off, off + |data|);
    CopyFromKeys(Hydrated(st, off, off + |data|), data, off, off);
  }

  /** At most one evicted buffer has to come back, so a write that fits the budget ends at
      most one chunk over it. */
  lemma RoomBound(st: FileState, evicted: Option<int>, off: int, data: seq<Byte>)
    requires Shape(st)
    ensures |Written(st, evicted, off, data).bufs.Keys| <=
            |Spilled(st, evicted).bufs.Keys| + |NewBases(st.bufs, off, off + |data|)| + 1
  {
    hide Wrote, NewBases, Touched, RefsOk;
    var s, T := Spilled(st, evicted), Touched(off, off + |data|);
    WroteKeys(s, off, data);
    NewBasesAre(st.bufs, off, off + |data|);
    var after, added := Written(st, evicted, off, data).bufs.Keys, NewBases(st.bufs, off, off + |data|);
    EvictedBound(st.bufs.Keys, s.bufs.Keys, evicted, T, after, added);
  }

  lemma EvictedBound(bufs: set<int>, kept: set<int>, evicted: Option<int>, T: set<int>, after: set<int>,
                     added: set<int>)
    requires bufs == kept || (evicted.Some? && kept == bufs - {evicted.value})
    requires after == kept + T && added == T - bufs
    ensures |after| <= |kept| + |added| + 1
  {
    var one: set<int> := if evicted.None? then {} else {evicted.value};
    SubsetBound(kept + T, kept + (T - bufs) + one);
    UnionBound(kept, T - bufs, one);
  }

  lemma SubsetBound(a: set<int>, b: set<int>)
    requires a <= b
    ensures |a| <= |b|
  {
    assert b == a + (b - a);
  }
}
