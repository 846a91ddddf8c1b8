/**
 The image of one buffered file, as values: committed chunk references with their
 payloads, resident chunk buffers, spilled buffers, and the two sizes.  Everything a
 reader of the file should see is the flat byte sequence `Image`.
 */
module BufferImage {
  import opened Bytes

  /** metadata.MaxChunkSize, 64 MiB: every chunk base is a multiple of it. */
  const CHUNK: int := 67108864

  datatype ChunkRef = ChunkRef(id: int, offset: int, length: int)

  datatype FileState = FileState(
    refs: seq<ChunkRef>,
    committed: int,
    payloads: map<int, seq<Byte>>,
    bufs: map<int, seq<Byte>>,
    spill: map<int, seq<Byte>>,
    dirty: set<int>,
    logical: int)

  // ---------- chunk arithmetic ----------

  /** off &^ (MaxChunkSize - 1): the base of the chunk holding `off`. */
  function ChunkBase(off: int): (b: int)
    ensures b % CHUNK == 0
    ensures b <= off < b + CHUNK
  {
    off - off % CHUNK
  }

  lemma BaseIs(off: int, c: int)
    requires c % CHUNK == 0 && c <= off < c + CHUNK
    ensures ChunkBase(off) == c
  {
  }

  /** The chunk bases a byte range [off, end) touches. */
  ghost function Touched(off: int, end: int): (t: set<int>)
    ensures forall b :: b in t <==> b % CHUNK == 0 && off < b + CHUNK && b < end && off < end
  {
    set b: int | off - CHUNK < b < end && b % CHUNK == 0 && off < end
  }

  // ---------- committed bytes ----------

  predicate Covers(r: ChunkRef, p: int) { r.offset <= p < r.offset + r.length }

  /** References are chunk-aligned, no two references hold bytes at one base, and each payload
      is exactly as long as its reference says.  A zero-length reference is an allocation
      placeholder and holds no bytes. */
  ghost predicate RefsOk(refs: seq<ChunkRef>, payloads: map<int, seq<Byte>>) {
    && (forall c :: c in refs ==> RefOk(c, payloads))
    && (forall c, d :: c in refs && d in refs && 0 < c.length && 0 < d.length && c.offset == d.offset ==> c == d)
  }

  /** At most one reference of the list holds bytes at each offset. */
  ghost predicate OnePerBase(refs: seq<ChunkRef>) {
    forall i, j :: 0 <= i < j < |refs| && 0 < refs[i].length && 0 < refs[j].length ==> refs[i].offset != refs[j].offset
  }

  predicate RefOk(c: ChunkRef, payloads: map<int, seq<Byte>>) {
    && 0 <= c.offset && c.offset % CHUNK == 0
    && 0 <= c.length <= CHUNK
    && (0 < c.length ==> c.id in payloads && |payloads[c.id]| == c.length)
  }

  /** The byte the committed references alone give at file position p; holes are zero. */
  ghost function CommittedAt(refs: seq<ChunkRef>, payloads: map<int, seq<Byte>>, p: int): Byte
    requires RefsOk(refs, payloads)
  {
    if exists c :: c in refs && Covers(c, p) then
      var c :| c in refs && Covers(c, p);
      payloads[c.id][p - c.offset]
    else 0
  }

  lemma CoverUnique(refs: seq<ChunkRef>, payloads: map<int, seq<Byte>>, c: ChunkRef, d: ChunkRef, p: int)
    requires RefsOk(refs, payloads) && c in refs && d in refs
    requires Covers(c, p) && Covers(d, p)
    ensures c == d && c.offset == ChunkBase(p)
  {
    assert RefOk(c, payloads) && RefOk(d, payloads);
    BaseIs(p, c.offset);
    BaseIs(p, d.offset);
  }

  lemma {:induction false} CommittedByRef(refs: seq<ChunkRef>, payloads: map<int, seq<Byte>>, c: ChunkRef, p: int)
    requires RefsOk(refs, payloads) && c in refs && Covers(c, p)
    ensures RefOk(c, payloads)
    ensures CommittedAt(refs, payloads, p) == payloads[c.id][p - c.offset]
  {
    var d :| d in refs && Covers(d, p) && RefOk(d, payloads) &&
             CommittedAt(refs, payloads, p) == payloads[d.id][p - d.offset];
    CoverUnique(refs, payloads, c, d, p);
  }

  // ---------- the image ----------

  ghost predicate BuffersOk(bufs: map<int, seq<Byte>>) {
    forall b :: b in bufs ==> 0 <= b && b % CHUNK == 0 && |bufs[b]| == CHUNK
  }

  ghost predicate Shape(st: FileState) {
    && RefsOk(st.refs, st.payloads)
    && BuffersOk(st.bufs)
    && BuffersOk(st.spill)
    && 0 <= st.committed
    && 0 <= st.logical
  }

  /** A file with nothing committed and nothing buffered. */
  function NewFile(): FileState { FileState([], 0, map[], map[], map[], {}, 0) }

  /** The next flush commits a resident buffer, else a spill file, else what is committed. */
  ghost function ByteAt(st: FileState, p: int): Byte
    requires Shape(st)
  {
    var b := ChunkBase(p);
    if b in st.bufs then st.bufs[b][p - b]
    else if b in st.spill then st.spill[b][p - b]
    else CommittedAt(st.refs, st.payloads, p)
  }

  function Size(st: FileState): int { Max(st.logical, st.committed) }

  /** The flat byte array the buffered file stands for. */
  ghost function Image(st: FileState): (s: seq<Byte>)
    requires Shape(st)
    ensures |s| == Size(st)
    ensures forall p :: 0 <= p < Size(st) ==> s[p] == ByteAt(st, p)
  {
    seq(Size(st), p requires 0 <= p < Size(st) => ByteAt(st, p))
  }

  /** The bytes the committed references and the committed size give on their own. */
  ghost function CommittedImage(st: FileState): seq<Byte>
    requires Shape(st)
  {
    Image(FileState(st.refs, st.committed, st.payloads, map[], map[], {}, 0))
  }

  ghost predicate Valid(st: FileState) {
    && Shape(st)
    && (forall c :: c in st.refs && 0 < c.length ==> c.offset + c.length <= st.committed)
    // every dirty base is backed by a buffer or a spill file
    && st.spill.Keys <= st.dirty <= st.bufs.Keys + st.spill.Keys
    && (forall b :: b in st.dirty ==> b < Size(st))
    // a buffer that was only touched still holds the committed bytes
    && (forall b, k :: b in st.bufs && b !in st.dirty && 0 <= k < CHUNK ==>
          st.bufs[b][k] == CommittedAt(st.refs, st.payloads, b + k))
    // nothing but zeros past the end of the file
    && (forall p :: Size(st) <= p ==> ByteAt(st, p) == 0)
  }

  lemma ValidFacts(st: FileState)
    requires Valid(st)
    ensures Shape(st) && RefsOk(st.refs, st.payloads) && BuffersOk(st.spill)
    ensures forall b :: b in st.dirty ==> 0 <= b
    ensures st.spill.Keys <= st.dirty <= st.bufs.Keys + st.spill.Keys
  {
  }

  /** A clean file is its committed image if and only if the logical size is not ahead of it. */
  lemma CleanImageIff(st: FileState)
    requires Valid(st) && st.dirty == {}
    ensures CommittedImage(st) == Image(st) <==> st.logical <= st.committed
  {
    if st.logical <= st.committed {
      CleanImage(st);
    } else {
      assert |Image(st)| == st.logical && |CommittedImage(st)| == st.committed;
    }
  }

  lemma CleanImage(st: FileState)
    requires Valid(st) && st.dirty == {} && st.logical <= st.committed
    ensures CommittedImage(st) == Image(st)
  {
    var clean := FileState(st.refs, st.committed, st.payloads, map[], map[], {}, 0);
    forall p | 0 <= p < st.committed ensures ByteAt(clean, p) == ByteAt(st, p) {
      var b := ChunkBase(p);
      if b in st.bufs {
        assert st.bufs[b][p - b] == CommittedAt(st.refs, st.payloads, b + (p - b));
      }
    }
  }

  // ---------- the flat file the operations are specified on ----------

  /** `s` with `d` written at `off`, zero-filling any gap. */
  ghost function Splice(s: seq<Byte>, off: nat, d: seq<Byte>): (r: seq<Byte>)
    ensures |r| == Max(|s|, off + |d|)
    ensures forall i :: 0 <= i < |r| ==>
              r[i] == if off <= i < off + |d| then d[i - off] else if i < |s| then s[i] else 0
  {
    seq(Max(|s|, off + |d|), i requires 0 <= i =>
      if off <= i < off + |d| then d[i - off] else if i < |s| then s[i] else 0)
  }

  /** `s` zero-extended to at least n bytes. */
  ghost function Grow(s: seq<Byte>, n: nat): (r: seq<Byte>)
    ensures |r| == Max(|s|, n)
    ensures forall i :: 0 <= i < |r| ==> r[i] == if i < |s| then s[i] else 0
  {
    if n <= |s| then s else s + Zeros(n - |s|)
  }

  /** The state with the spill files of `bases` forgotten: what a write that hydrates those
      bases from the committed references starts from. */
  ghost function Forget(st: FileState, bases: set<int>): (f: FileState)
    ensures Shape(st) ==> Shape(f)
    ensures st.spill.Keys !! bases ==> f == st
  {
    assert st.spill.Keys !! bases ==> st.spill - bases == st.spill;
    st.(spill := st.spill - bases)
  }
}
