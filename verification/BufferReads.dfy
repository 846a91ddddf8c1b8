/**
 What ReadView computes, step by step, and when that is the slice of the flat image.
 `CommittedReadAt` and `ViewAt` follow the code's own walk and give the byte it produces
 for one file position; the lemmas compare them with the image.
 */
module BufferReads {
  import opened Bytes
  import opened BufferImage

  /** ReadView's test that a reference overlaps [pos, end). */
  predicate Overlaps(r: ChunkRef, pos: int, end: int) {
    !(r.offset + r.length <= pos || r.offset >= end)
  }

  /** The first overlapping reference in list order, as the inner loop finds it. */
  function FirstOverlap(refs: seq<ChunkRef>, pos: int, end: int): (r: Option<ChunkRef>)
    ensures r.Some? ==> r.value in refs && Overlaps(r.value, pos, end)
    ensures r.None? ==> forall c :: c in refs ==> !Overlaps(c, pos, end)
  {
    if refs == [] then None
    else if Overlaps(refs[0], pos, end) then Some(refs[0])
    else FirstOverlap(refs[1..], pos, end)
  }

  /** Where the window of reference c that a walk at `pos` reads starts and ends, inside c. */
  function RelStart(c: ChunkRef, pos: int): int { Max(pos - c.offset, 0) }

  function RelEnd(c: ChunkRef, end: int): int { Min(end - c.offset, c.length) }

  /** readChunkRange: the byte its walk over [pos, end) produces for position p.  Gaps before
      a reference and holes are zero; a reference with nothing to read stops the walk, and
      the loop guard zero-fills the remainder. */
  function CommittedReadAt(refs: seq<ChunkRef>, payloads: map<int, seq<Byte>>, pos: int, end: int, p: int): Byte
    requires forall c :: c in refs ==> RefOk(c, payloads)
    requires pos <= p < end
    decreases end - pos
  {
    match FirstOverlap(refs, pos, end)
    case None => 0
    case Some(c) =>
      assert RefOk(c, payloads);
      if RelEnd(c, end) <= RelStart(c, pos) || p < c.offset then 0
      else if p < c.offset + RelEnd(c, end) then payloads[c.id][p - c.offset]
      else CommittedReadAt(refs, payloads, c.offset + RelEnd(c, end), end, p)
  }

  /** How far one step of ReadView's outer walk goes from `next`: to the end of the resident
      buffer it starts in, else one chunk size on. */
  function StepEnd(bufs: map<int, seq<Byte>>, next: int, end: int): int {
    if ChunkBase(next) in bufs then Min(end, ChunkBase(next) + CHUNK) else Min(end, next + CHUNK)
  }

  /** ReadView: the byte its walk over [next, end) produces for position p. */
  function ViewAt(refs: seq<ChunkRef>, payloads: map<int, seq<Byte>>, bufs: map<int, seq<Byte>>, next: int, end: int,
                  p: int): Byte
    requires forall c :: c in refs ==> RefOk(c, payloads)
    requires forall b :: b in bufs ==> |bufs[b]| == CHUNK
    requires next <= p < end
    decreases end - next
  {
    var step := StepEnd(bufs, next, end);
    if step <= p then ViewAt(refs, payloads, bufs, step, end, p)
    else if ChunkBase(next) in bufs then bufs[ChunkBase(next)][p - ChunkBase(next)]
    else CommittedReadAt(refs, payloads, next, step, p)
  }

  /** Advancing inside a reference keeps it the first overlapping one. */
  lemma {:induction false} FirstOverlapLater(refs: seq<ChunkRef>, pos: int, later: int, end: int, c: ChunkRef)
    requires pos <= later && FirstOverlap(refs, pos, end) == Some(c) && Overlaps(c, later, end)
    ensures FirstOverlap(refs, later, end) == Some(c)
  {
    if !Overlaps(refs[0], pos, end) {
      FirstOverlapLater(refs[1..], pos, later, end, c);
    }
  }

  /** A window cut short by a cached entry only splits the walk: continuing from inside the
      same reference produces the same bytes. */
  lemma CommittedReadResumes(refs: seq<ChunkRef>, payloads: map<int, seq<Byte>>, pos: int, later: int, end: int,
                             c: ChunkRef, p: int)
    requires forall c :: c in refs ==> RefOk(c, payloads)
    requires pos <= later <= p < end && FirstOverlap(refs, pos, end) == Some(c)
    requires RelStart(c, pos) < RelEnd(c, end)
    requires c.offset <= later <= c.offset + RelEnd(c, end)
    ensures CommittedReadAt(refs, payloads, pos, end, p) == CommittedReadAt(refs, payloads, later, end, p)
  {
    if later < c.offset + RelEnd(c, end) {
      FirstOverlapLater(refs, pos, later, end, c);
    }
  }

  /** Inside one chunk the only reference that can overlap holds that chunk's bytes. */
  lemma OverlapInChunk(refs: seq<ChunkRef>, payloads: map<int, seq<Byte>>, pos: int, end: int, c: ChunkRef)
    requires RefsOk(refs, payloads) && c in refs
    requires pos < end <= ChunkBase(pos) + CHUNK && Overlaps(c, pos, end)
    ensures c.offset == ChunkBase(pos) && 0 < c.length
  {
    if c.length == 0 {
      BaseIs(pos, c.offset - CHUNK);
      assert false;
    }
  }

  /** Inside one chunk the committed walk is exact. */
  lemma {:induction false} CommittedReadInChunk(refs: seq<ChunkRef>, payloads: map<int, seq<Byte>>, pos: int,
                                                end: int, p: int)
    requires RefsOk(refs, payloads)
    requires pos <= p < end <= ChunkBase(pos) + CHUNK
    ensures CommittedReadAt(refs, payloads, pos, end, p) == CommittedAt(refs, payloads, p)
    decreases end - pos
  {
    match FirstOverlap(refs, pos, end)
    case None =>
      assert forall c :: c in refs && Covers(c, p) ==> Overlaps(c, pos, end);
    case Some(c) =>
      OverlapInChunk(refs, payloads, pos, end, c);
      var tail := c.offset + RelEnd(c, end);
      if p < tail {
        CommittedByRef(refs, payloads, c, p);
      } else {
        BaseIs(tail, c.offset);
        CommittedReadInChunk(refs, payloads, tail, end, p);
      }
  }

  /** A file with nothing committed and nothing buffered reads as zeros. */
  lemma {:induction false} ViewEmpty(payloads: map<int, seq<Byte>>, off: int, end: int, p: int)
    requires off <= p < end
    ensures ViewAt([], payloads, map[], off, end, p) == 0
    decreases end - off
  {
    var step := StepEnd(map[], off, end);
    if step <= p {
      ViewEmpty(payloads, step, end, p);
    }
  }

  // ---------- exactness of the whole view ----------

  /** The part of the file a read can see: ReadView never loads spill files. */
  ghost function Unspilled(st: FileState): (u: FileState)
    ensures Shape(st) ==> Shape(u)
  {
    st.(spill := map[])
  }

  ghost function ViewOf(st: FileState, off: int, end: int): (r: seq<Byte>)
    requires Shape(st) && off <= end
    ensures |r| == end - off
    ensures forall p :: off <= p < end ==> r[p - off] == ViewAt(st.refs, st.payloads, st.bufs, off, end, p)
  {
    seq(end - off, i requires 0 <= i < end - off => ViewAt(st.refs, st.payloads, st.bufs, off, end, off + i))
  }

  lemma ViewIs(st: FileState, off: int, end: int, out: seq<Byte>)
    requires Shape(st) && off <= end && |out| == end - off
    requires forall p :: off <= p < end ==> out[p - off] == ViewAt(st.refs, st.payloads, st.bufs, off, end, p)
    ensures out == ViewOf(st, off, end)
  {
    forall i | 0 <= i < end - off ensures out[i] == ViewOf(st, off, end)[i] {
      assert out[(off + i) - off] == ViewAt(st.refs, st.payloads, st.bufs, off, end, off + i);
    }
  }

  /** The windows on which the walk never steps over a chunk boundary unclipped. */
  predicate Clipped(st: FileState, off: int, end: int) {
    off % CHUNK == 0 || end <= ChunkBase(off) + CHUNK || ChunkBase(off) in st.bufs
  }

  lemma {:induction false} ViewByte(st: FileState, off: int, end: int, p: int)
    requires Shape(st) && off <= p < end && Clipped(st, off, end)
    ensures ViewAt(st.refs, st.payloads, st.bufs, off, end, p) == ByteAt(Unspilled(st), p)
    decreases end - off
  {
    var step := StepEnd(st.bufs, off, end);
    assert step <= ChunkBase(off) + CHUNK;
    if step <= p {
      assert step == ChunkBase(off) + CHUNK;
      ViewByte(st, step, end, p);
    } else {
      BaseIs(p, ChunkBase(off));
      if ChunkBase(off) !in st.bufs {
        CommittedReadInChunk(st.refs, st.payloads, off, step, p);
      }
    }
  }

  lemma SliceByPosition(v: seq<Byte>, image: seq<Byte>, off: nat)
    requires off + |v| <= |image|
    requires forall p :: off <= p < off + |v| ==> v[p - off] == image[p]
    ensures v == image[off..off + |v|]
  {
    forall i | 0 <= i < |v| ensures v[i] == image[off..off + |v|][i] {
      assert v[(off + i) - off] == image[off + i];
    }
  }

  /** A clipped read of a file with nothing spilled is the slice of its image. */
  lemma ViewIsSlice(st: FileState, off: int, end: int)
    requires Shape(st) && st.spill == map[]
    requires 0 <= off <= end <= Size(st) && Clipped(st, off, end)
    ensures ViewOf(st, off, end) == Image(st)[off..end]
  {
    assert Unspilled(st) == st;
    var v, image := ViewOf(st, off, end), Image(st);
    forall p | off <= p < end ensures v[p - off] == image[p] {
      ViewByte(st, off, end, p);
    }
    SliceByPosition(v, image, off);
  }

  /** A file whose only byte is a dirty 1 at the start of the chunk after `off`. */
  ghost function StaleFile(off: nat, end: nat): (st: FileState)
    requires ChunkBase(off) + CHUNK < end
    ensures Valid(st) && st.spill == map[] && Size(st) == end && ChunkBase(off) !in st.bufs
    ensures ByteAt(st, ChunkBase(off) + CHUNK) == 1
    ensures st.refs == []
  {
    var b := ChunkBase(off) + CHUNK;
    var st := FileState([], 0, map[], map[b := [1] + Zeros(CHUNK - 1)], map[], {b}, end);
    assert ChunkBase(b) == b;
    assert forall p :: end <= p ==> ByteAt(st, p) == 0;
    st
  }

  /** Exactly when a read that starts in an unbuffered chunk is right for every file: it
      starts on a chunk boundary or stays inside one chunk. */
  lemma ReadWindowExactIff(off: nat, end: nat)
    requires off < end
    ensures (forall st: FileState ::
               Valid(st) && st.spill == map[] && end <= Size(st) && ChunkBase(off) !in st.bufs ==>
               ViewOf(st, off, end) == Image(st)[off..end])
            <==> (off % CHUNK == 0 || end <= ChunkBase(off) + CHUNK)
  {
    if off % CHUNK == 0 || end <= ChunkBase(off) + CHUNK {
      forall st: FileState |
        Valid(st) && st.spill == map[] && end <= Size(st) && ChunkBase(off) !in st.bufs
        ensures ViewOf(st, off, end) == Image(st)[off..end]
      {
        ViewIsSlice(st, off, end);
      }
    } else {
      var st := StaleFile(off, end);
      var b := ChunkBase(off) + CHUNK;
      assert ViewAt(st.refs, st.payloads, st.bufs, off, end, b) == 0;
      assert ViewOf(st, off, end)[b - off] == 0;
      assert Image(st)[off..end][b - off] == 1;
    }
  }

  /** A dirty 1 at the start of chunk 1, and nothing else: a read of the chunk's length from
      position 1 returns a zero in its place. */
  lemma {:induction false} MidChunkReadStale()
    ensures var st := StaleFile(1, CHUNK + 1);
            Valid(st) && Image(st)[CHUNK] == 1 && ViewOf(st, 1, CHUNK + 1)[CHUNK - 1] == 0
  {
    var st := StaleFile(1, CHUNK + 1);
    BaseIs(1, 0);
    assert ViewAt(st.refs, st.payloads, st.bufs, 1, CHUNK + 1, CHUNK) == 0;
    assert Image(st)[CHUNK] == ByteAt(st, CHUNK);
  }
}
