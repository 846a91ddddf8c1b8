/**
 Spilling and writes: which base a write evicts, and when a write over chunks that are in the
 staging directory, or that it sends there itself, still splices the image.  writeLocked
 rebuilds such a chunk from the committed bytes and never looks at the spill file.
 */
module BufferSpill {
  import opened Bytes
  import opened BufferImage
  import opened BufferOps

  // ---------- the base that is evicted ----------

  predicate IsLowest(bases: set<int>, b: int) {
    b in bases && forall c :: c in bases ==> b <= c
  }

  /** The lowest dirty base, if it has a buffer; a lowest base without one stops the spill. */
  ghost function OldestOf(dirty: set<int>, resident: set<int>): Option<int> {
    if exists b :: IsLowest(dirty, b) && b in resident then
      var b :| IsLowest(dirty, b) && b in resident;
      Some(b)
    else None
  }

  lemma OldestIs(dirty: set<int>, resident: set<int>, lowest: int)
    requires dirty != {} ==> IsLowest(dirty, lowest)
    requires dirty == {} ==> lowest == -1
    ensures OldestOf(dirty, resident) == if dirty != {} && lowest in resident then Some(lowest) else None
  {
  }

  /** Once the oldest base is evicted there is nothing more to evict. */
  lemma OldestGone(dirty: set<int>, resident: set<int>)
    ensures OldestOf(dirty, resident).Some? ==>
              && OldestOf(dirty, resident).value in dirty * resident
              && OldestOf(dirty, resident - {OldestOf(dirty, resident).value}) == None
  {
  }

  function Freed(evicted: Option<int>): int { if evicted.Some? then CHUNK else 0 }

  // ---------- when a write is exact ----------

  /** A write to [off, end) wholly overwrites each touched chunk that is spilled without a
      buffer or that the write itself evicts. */
  ghost predicate NothingLost(resident: set<int>, spilled: set<int>, evicted: Option<int>, off: int, end: int) {
    forall b :: b in Touched(off, end) && (evicted == Some(b) || (b in spilled && b !in resident)) ==>
      off <= b && b + CHUNK <= end
  }

  /** The write leaves a well-formed file whose image is the old one with the data spliced in. */
  ghost predicate WriteExact(st: FileState, evicted: Option<int>, off: nat, data: seq<Byte>)
    requires Shape(st)
  {
    var w := Written(st, evicted, off, data);
    Shape(w) && Image(w) == Splice(Image(st), off, data)
  }

  lemma NothingLostExact(st: FileState, evicted: Option<int>, off: nat, data: seq<Byte>)
    requires Valid(st) && (evicted.Some? ==> evicted.value in st.dirty && evicted.value in st.bufs)
    requires NothingLost(st.bufs.Keys, st.spill.Keys, evicted, off, off + |data|)
    ensures WriteExact(st, evicted, off, data)
  {
    var T, s := Touched(off, off + |data|), Spilled(st, evicted);
    WrittenImage(st, evicted, off, data);
    SpillKeepsImage(st, evicted);
    var a, b := Splice(Image(Forget(s, T)), off, data), Splice(Image(st), off, data);
    forall p | 0 <= p < |a| ensures a[p] == b[p] {
      if p < Size(st) && !(off <= p < off + |data|) {
        KeptByte(st, evicted, off, data, p);
      }
    }
    assert a == b;
  }

  lemma KeptByte(st: FileState, evicted: Option<int>, off: nat, data: seq<Byte>, p: nat)
    requires Shape(st) && (evicted.Some? ==> evicted.value in st.bufs)
    requires NothingLost(st.bufs.Keys, st.spill.Keys, evicted, off, off + |data|)
    requires !(off <= p < off + |data|) && Shape(Spilled(st, evicted))
    ensures ByteAt(Forget(Spilled(st, evicted), Touched(off, off + |data|)), p) == ByteAt(st, p)
  {
    var T, s, c := Touched(off, off + |data|), Spilled(st, evicted), ChunkBase(p);
    if c in T {
      assert !(off <= c && c + CHUNK <= off + |data|);
      assert evicted != Some(c);
    }
  }

  lemma Above(bases: set<int>) returns (m: nat)
    ensures forall b :: b in bases ==> b < m
  {
    m := 0;
    var rest := bases;
    while rest != {}
      invariant rest <= bases && forall b :: b in bases && b !in rest ==> b < m
      decreases |rest|
    {
      HasMember(rest);
      var b: int :| b in rest;
      m := Max(m, Max(b + 1, 0));
      rest := rest - {b};
    }
  }

  /** A file with the given resident and spilled bases whose only non-zero chunk, `base`, holds
      ones; nothing is committed. */
  ghost function OnesFile(resident: set<int>, spilled: set<int>, dirty: set<int>, base: int, size: nat): (st: FileState)
  {
    FileState([], 0, map[],
      map b | b in resident :: Filled(b == base),
      map b | b in spilled :: Filled(b == base && b !in resident),
      dirty, size)
  }

  function Filled(ones: bool): (s: seq<Byte>)
    ensures |s| == CHUNK && forall k :: 0 <= k < CHUNK ==> s[k] == if ones then 1 else 0
  {
    seq(CHUNK, _ => if ones then 1 else 0)
  }

  lemma OnesFileValid(resident: set<int>, spilled: set<int>, dirty: set<int>, base: int, size: nat)
    requires Bases(resident) && Bases(spilled) && base in resident + spilled && base + CHUNK <= size
    requires spilled + {base} <= dirty <= resident + spilled && forall b :: b in dirty ==> b < size
    ensures Valid(OnesFile(resident, spilled, dirty, base, size))
    ensures Size(OnesFile(resident, spilled, dirty, base, size)) == size
    ensures forall p :: base <= p < base + CHUNK ==> ByteAt(OnesFile(resident, spilled, dirty, base, size), p) == 1
  {
    var st := OnesFile(resident, spilled, dirty, base, size);
    forall p ensures ByteAt(st, p) == if base <= p < base + CHUNK then 1 else 0 {
      if base <= p < base + CHUNK {
        BaseIs(p, base);
      }
    }
  }

  lemma ForgottenByte(s: FileState, T: set<int>, p: int)
    requires Shape(s) && s.refs == [] && ChunkBase(p) in T && ChunkBase(p) !in s.bufs
    ensures ByteAt(Forget(s, T), p) == 0
  {
  }

  /** The byte of a partly overwritten chunk that the write forgets. */
  lemma LostByte(resident: set<int>, spilled: set<int>, dirty: set<int>, evicted: Option<int>, base: int, size: nat,
                 off: nat, data: seq<Byte>)
    requires Bases(resident) && Bases(spilled) && base in resident + spilled && base + CHUNK <= size
    requires spilled + {base} <= dirty <= resident + spilled && forall b :: b in dirty ==> b < size
    requires evicted.Some? ==> evicted.value in resident && evicted.value in dirty
    requires base in Touched(off, off + |data|) && (evicted == Some(base) || (base in spilled && base !in resident))
    requires !(off <= base && base + CHUNK <= off + |data|)
    ensures Valid(OnesFile(resident, spilled, dirty, base, size))
    ensures !WriteExact(OnesFile(resident, spilled, dirty, base, size), evicted, off, data)
  {
    hide Image, Splice, Written;
    var st := OnesFile(resident, spilled, dirty, base, size);
    OnesFileValid(resident, spilled, dirty, base, size);
    WrittenImage(st, evicted, off, data);
    var T, s := Touched(off, off + |data|), Spilled(st, evicted);
    var p := if base < off then base else base + CHUNK - 1;
    BaseIs(p, base);
    ForgottenByte(s, T, p);
    assert Splice(Image(Forget(s, T)), off, data)[p] == 0;
    assert Splice(Image(st), off, data)[p] == 1;
  }

  /** A file with these resident and spilled bases, whose victim, if any, is a dirty buffer. */
  ghost predicate FileWith(st: FileState, resident: set<int>, spilled: set<int>, evicted: Option<int>) {
    && Valid(st) && st.bufs.Keys == resident && st.spill.Keys == spilled
    && (evicted.Some? ==> evicted.value in resident && evicted.value in st.dirty)
  }

  /** For any resident and spilled bases and any victim, a write is exact for every such file if
      and only if it wholly overwrites each touched chunk that is spilled or evicted. */
  lemma SpilledWriteExactIff(resident: set<int>, spilled: set<int>, evicted: Option<int>, off: nat, data: seq<Byte>)
    requires Bases(resident) && Bases(spilled) && (evicted.Some? ==> evicted.value in resident)
    ensures (forall st: FileState :: FileWith(st, resident, spilled, evicted) ==> WriteExact(st, evicted, off, data))
            <==> NothingLost(resident, spilled, evicted, off, off + |data|)
  {
    if NothingLost(resident, spilled, evicted, off, off + |data|) {
      forall st: FileState | FileWith(st, resident, spilled, evicted) ensures WriteExact(st, evicted, off, data) {
        NothingLostExact(st, evicted, off, data);
      }
    } else {
      var base :| base in Touched(off, off + |data|) && (evicted == Some(base) || (base in spilled && base !in resident)) &&
                  !(off <= base && base + CHUNK <= off + |data|);
      var dirty := spilled + {base} + if evicted.Some? then {evicted.value} else {};
      var m := Above(dirty);
      LostByte(resident, spilled, dirty, evicted, base, Max(m, base + CHUNK), off, data);
      assert FileWith(OnesFile(resident, spilled, dirty, base, Max(m, base + CHUNK)), resident, spilled, evicted);
    }
  }

  /** The eviction alone loses bytes: chunk 0 is dirty, resident and all ones, nothing is
      spilled, and a write of two bytes across its end, evicting it, zeroes it. */
  lemma EvictedWriteLosesBytes()
    ensures var st := OnesFile({0}, {}, {0}, 0, CHUNK);
            var w := Written(st, Some(0), CHUNK - 1, [2, 2]);
            && Valid(st) && st.spill == map[] && Valid(w)
            && |Image(st)| == CHUNK && Image(st)[0] == 1
            && |Image(w)| == CHUNK + 1 && Image(w)[0] == 0
            && !WriteExact(st, Some(0), CHUNK - 1, [2, 2])
  {
    hide Written, Image, Splice;
    var st, off, data := OnesFile({0}, {}, {0}, 0, CHUNK), CHUNK - 1, [2, 2];
    OnesFileValid({0}, {}, {0}, 0, CHUNK);
    WrittenImage(st, Some(0), off, data);
    ForgottenByte(Spilled(st, Some(0)), Touched(off, off + |data|), 0);
    assert ByteAt(st, 0) == 1;
  }

  /** A whole chunk of ones written into a new file. */
  lemma OnesWritten()
    ensures Written(NewFile(), None, 0, Filled(true)) == OnesFile({0}, {}, {0}, 0, CHUNK)
    ensures NewBases(map[], 0, CHUNK) == {0}
  {
    hide Wrote, Image, Splice, NewBases;
    var st, ones := NewFile(), Filled(true);
    var w := Written(st, None, 0, ones);
    assert Touched(0, CHUNK) == {0};
    NewBasesAre(map[], 0, CHUNK);
    WrittenImage(st, None, 0, ones);
    WroteKeys(st, 0, ones);
    WroteParts(st, 0, ones);
    forall k | 0 <= k < CHUNK ensures w.bufs[0][k] == 1 {
      BaseIs(k, 0);
      assert Image(w)[k] == ByteAt(w, k);
    }
    assert |w.bufs[0]| == CHUNK;
    assert w.bufs[0] == Filled(true);
    assert w.bufs == OnesFile({0}, {}, {0}, 0, CHUNK).bufs;
  }

  lemma WroteParts(st: FileState, off: int, data: seq<Byte>)
    requires Shape(st)
    ensures Wrote(st, off, data) ==
            st.(bufs := Wrote(st, off, data).bufs, dirty := st.dirty + NewBases(map[], off, off + |data|))
  {
  }

  /** With a budget of one chunk, a write across the end of chunk 0 needs one chunk more, and
      chunk 0 is the one to go. */
  lemma ChunkZeroEvicted(st: FileState)
    requires st == OnesFile({0}, {}, {0}, 0, CHUNK)
    ensures |st.bufs| == 1 && |NewBases(st.bufs, CHUNK - 1, CHUNK + 1)| == 1
    ensures OldestOf(st.dirty, st.bufs.Keys) == Some(0)
  {
    NewBasesAre(st.bufs, CHUNK - 1, CHUNK + 1);
    assert Touched(CHUNK - 1, CHUNK + 1) - st.bufs.Keys == {CHUNK};
    assert |st.bufs| == |st.bufs.Keys| && st.bufs.Keys == {0};
    OldestIs(st.dirty, st.bufs.Keys, 0);
  }
}
