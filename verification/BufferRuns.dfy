/**
 Whole runs of the buffer with spilling off, against one flat zero-filled byte array.
 */
module BufferRuns {
  import opened Bytes
  import opened BufferImage
  import opened BufferReads
  import opened BufferOps
  import opened BufferSpill
  import opened ChunkServices
  import B = BufferedFile

  datatype Op =
    | Write(data: seq<Byte>, off: nat)
    | Zero(off: nat, size: nat, extend: bool, persisted: bool)
    | Touch(off: nat, end: nat, keepSize: bool, persisted: bool)
    | Flush(faults: Faults)
    | Read(off: nat, n: nat, dropped: set<(int, int)>)
  {
    predicate WellFormed() { Touch? ==> off <= end }

    /** An empty write moves the logical size without making the file dirty. */
    predicate Proper() { Write? ==> data != [] }
  }

  /** The same operation on the flat array; a refused write does nothing. */
  ghost function Flat(flat: seq<Byte>, op: Op, accepted: bool): seq<Byte> {
    match op
    case Write(data, off) => if accepted then Splice(flat, off, data) else flat
    case Zero(off, size, extend, _) =>
      var end := if extend then off + size else Min(off + size, |flat|);
      if end <= off then flat else Splice(flat, off, Zeros(end - off))
    case Touch(_, end, keepSize, _) => if keepSize then flat else Grow(flat, end)
    case Flush(_) => flat
    case Read(_, _, _) => flat
  }

  ghost function FlatRun(flat: seq<Byte>, ops: seq<Op>, accepted: seq<bool>): seq<Byte>
    requires |ops| == |accepted|
  {
    if ops == [] then flat
    else
      var n := |ops| - 1;
      Flat(FlatRun(flat, ops[..n], accepted[..n]), ops[n], accepted[n])
  }

  /** A read that starts on a chunk boundary or stays inside one chunk of the flat array. */
  predicate InWindow(flat: seq<Byte>, off: nat, n: nat) {
    off % CHUNK == 0 || Min(off + n, |flat|) <= ChunkBase(off) + CHUNK
  }

  function Slice(flat: seq<Byte>, off: nat, n: nat): seq<Byte> {
    if off >= |flat| then [] else flat[off..Min(off + n, |flat|)]
  }

  ghost predicate Answers(flat: seq<Byte>, op: Op, out: seq<Byte>) {
    op.Read? && InWindow(flat, op.off, op.n) ==> out == Slice(flat, op.off, op.n)
  }

  predicate Aligned(refs: seq<ChunkRef>) {
    forall c :: c in refs ==> 0 <= c.offset && c.offset % CHUNK == 0
  }

  /** The committed references, aligned and one per base, give the whole file on their own. */
  ghost predicate Committed(file: B.BufferedFile)
    requires file.Inv()
    reads file, file.meta, file.store, file.cache
  {
    && Aligned(file.meta.refs) && OnePerBase(file.meta.refs)
    && CommittedImage(file.State()) == file.Contents()
  }

  lemma AlignedRefs(file: B.BufferedFile)
    requires file.Inv()
    ensures Aligned(file.meta.refs) && OnePerBase(file.meta.refs)
  {
    forall c | c in file.meta.refs ensures 0 <= c.offset && c.offset % CHUNK == 0 {
      assert RefOk(c, file.store.chunks);
    }
  }

  /** The environment lets every step of a flush succeed. */
  ghost predicate Faultless(f: Faults) {
    (forall i :: f.batchOk(i) && f.loadOk(i) && f.writeOk(i) && f.chunkCommitOk(i)) && f.commitOk
  }

  lemma FaultlessGoes(f: Faults, dirty: set<int>, resident: set<int>)
    requires Faultless(f)
    ensures GoesThrough(f, dirty, resident)
  {
  }

  /** A flush changes no byte, and what it commits is the whole file unless the size is ahead. */
  method FlushStep(file: B.BufferedFile, faults: Faults) returns (accepted: bool)
    requires file.Inv() && !file.staging
    modifies file, file.meta, file.store, file.cache
    ensures file.Inv() && file.Contents() == old(file.Contents())
    ensures accepted && file.logicalSize <= file.meta.size ==> Committed(file)
    ensures accepted <==> !old(file.dirty) || GoesThrough(faults, old(file.dirtyMap), old(file.chunkBufs.Keys))
    ensures Faultless(faults) ==> accepted
    ensures old(file.dirty || file.logicalSize <= file.meta.size) ==> file.dirty || file.logicalSize <= file.meta.size
    ensures accepted && old(file.dirty || file.logicalSize <= file.meta.size) ==> file.logicalSize <= file.meta.size
  {
    hide BufferImage.Valid, Image, CommittedImage, GoesThrough;
    if Faultless(faults) {
      FaultlessGoes(faults, file.dirtyMap, file.chunkBufs.Keys);
    }
    accepted := file.Flush(faults);
    ValidFacts(file.State());
    if accepted && file.logicalSize <= file.meta.size {
      CleanImage(file.State());
      AlignedRefs(file);
    }
  }

  method Step(file: B.BufferedFile, op: Op) returns (accepted: bool, out: seq<Byte>)
    requires file.Inv() && !file.staging && op.WellFormed()
    modifies file, file.meta, file.store, file.cache
    ensures file.Inv()
    ensures file.Contents() == Flat(old(file.Contents()), op, accepted)
    ensures Answers(old(file.Contents()), op, out)
    ensures op.Write? && file.maxDirty <= 0 ==> accepted
    ensures op.Flush? && accepted && file.logicalSize <= file.meta.size ==> Committed(file)
    ensures op.Flush? ==> (accepted <==> !old(file.dirty) || GoesThrough(op.faults, old(file.dirtyMap), old(file.chunkBufs.Keys)))
    ensures op.Flush? && Faultless(op.faults) ==> accepted
    ensures old(file.dirty || file.logicalSize <= file.meta.size) && op.Proper() ==>
              file.dirty || file.logicalSize <= file.meta.size
    ensures op.Flush? && accepted && old(file.dirty || file.logicalSize <= file.meta.size) ==>
              file.logicalSize <= file.meta.size
  {
    hide BufferImage.Valid, Image, CommittedImage, Splice, Live, WindowsOk, NothingLost, Faultless, GoesThrough, Committed;
    accepted, out := true, [];
    match op {
      case Write(data, off) =>
        ghost var evicted;
        accepted, evicted := file.Write(data, off, false, false);
      case Zero(off, size, extend, persisted) =>
        file.ZeroRange(off, size, extend, persisted);
      case Touch(off, end, keepSize, persisted) =>
        file.TouchRange(off, end, keepSize, persisted);
      case Flush(faults) =>
        accepted := FlushStep(file, faults);
      case Read(off, n, dropped) =>
        out := file.ReadView(off, n, dropped);
    }
  }

  /** Every run of writes, zero-fills, preallocations, flushes and reads refines the flat
      array: the image at the end is the array's, every read in window is its slice at that
      point of the run, a flush without faults succeeds, and a run that ends with a successful
      flush leaves the whole array committed; only an empty write past the end can stand in
      the way of that, by moving the size of a clean file. */
  method Run(file: B.BufferedFile, ops: seq<Op>) returns (accepted: seq<bool>, outs: seq<seq<Byte>>)
    requires file.Inv() && !file.staging && forall op :: op in ops ==> op.WellFormed()
    modifies file, file.meta, file.store, file.cache
    ensures file.Inv() && |accepted| == |outs| == |ops|
    ensures file.Contents() == FlatRun(old(file.Contents()), ops, accepted)
    ensures forall i :: 0 <= i < |ops| ==>
              Answers(FlatRun(old(file.Contents()), ops[..i], accepted[..i]), ops[i], outs[i])
    ensures forall i :: 0 <= i < |ops| && ops[i].Flush? && Faultless(ops[i].faults) ==> accepted[i]
    ensures ops != [] && ops[|ops| - 1].Flush? && accepted[|ops| - 1] && file.logicalSize <= file.meta.size ==>
              && Aligned(file.meta.refs) && OnePerBase(file.meta.refs)
              && CommittedImage(file.State()) == FlatRun(old(file.Contents()), ops, accepted)
    ensures old(file.dirty || file.logicalSize <= file.meta.size) && (forall op :: op in ops ==> op.Proper()) &&
            ops != [] && ops[|ops| - 1].Flush? && Faultless(ops[|ops| - 1].faults) ==>
              CommittedImage(file.State()) == FlatRun(old(file.Contents()), ops, accepted)
    ensures file.maxDirty <= 0 ==> forall i :: 0 <= i < |ops| && ops[i].Write? ==> accepted[i]
  {
    hide Faultless, Flat, FlatRun, Answers, B.BufferedFile.Inv, B.BufferedFile.Contents, Aligned, OnePerBase, CommittedImage;
    ghost var flat := file.Contents();
    FlatRunNone(flat, ops);
    accepted, outs := [], [];
    for i := 0 to |ops|
      invariant file.Inv() && |accepted| == |outs| == i
      invariant file.Contents() == FlatRun(flat, ops[..i], accepted)
      invariant forall j :: 0 <= j < i ==> Answers(FlatRun(flat, ops[..j], accepted[..j]), ops[j], outs[j])
      invariant 0 < i && ops[i - 1].Flush? && accepted[i - 1] && file.logicalSize <= file.meta.size ==> Committed(file)
      invariant forall j :: 0 <= j < i && ops[j].Flush? && Faultless(ops[j].faults) ==> accepted[j]
      invariant old(file.dirty || file.logicalSize <= file.meta.size) && (forall op :: op in ops ==> op.Proper()) ==>
                  && (file.dirty || file.logicalSize <= file.meta.size)
                  && (0 < i && ops[i - 1].Flush? && accepted[i - 1] ==> file.logicalSize <= file.meta.size)
      invariant file.maxDirty <= 0 ==> forall j :: 0 <= j < i && ops[j].Write? ==> accepted[j]
    {
      var ok, out := Step(file, ops[i]);
      FlatRunStep(flat, ops, accepted, i, ok);
      accepted, outs := accepted + [ok], outs + [out];
    }
    assert ops[..|ops|] == ops;
  }

  lemma FlatRunNone(flat: seq<Byte>, ops: seq<Op>)
    ensures FlatRun(flat, ops[..0], []) == flat
  {
  }

  lemma FlatRunStep(flat: seq<Byte>, ops: seq<Op>, accepted: seq<bool>, i: nat, ok: bool)
    requires i < |ops| && |accepted| == i
    ensures FlatRun(flat, ops[..i + 1], accepted + [ok]) == Flat(FlatRun(flat, ops[..i], accepted), ops[i], ok)
    ensures forall j :: 0 <= j <= i ==> (accepted + [ok])[..j] == accepted[..j]
  {
    assert ops[..i + 1][..i] == ops[..i];
    assert (accepted + [ok])[..i] == accepted;
  }

  lemma NothingThere()
    ensures |Image(NewFile())| == 0 && NothingLost({}, {}, None, 5, 5)
  {
  }

  lemma ImageSizes(st: FileState)
    requires BufferImage.Valid(st)
    ensures |CommittedImage(st)| == st.committed
  {
  }

  /** An empty write past the end of a new file moves its size to 5, and a flush in which nothing
      fails leaves it uncommitted. */
  method EmptyWriteUncommitted() returns (file: B.BufferedFile)
    ensures fresh(file) && file.Inv() && |file.Contents()| == 5 && |CommittedImage(file.State())| == 0
  {
    hide BufferImage.Valid, Image, CommittedImage, Splice, Written, Spilled, Forget, OldestOf, NewBases, NothingLost;
    hide Live, WindowsOk, GoesThrough;
    file := new B.BufferedFile(0, 0, false, false);
    NothingThere();
    var ok;
    ghost var evicted;
    ok, evicted := file.Write([], 5, true, true);
    ImageSizes(file.State());
    ok := file.Flush(Faults(_ => true, _ => true, _ => true, _ => true, true));
  }

  /** A budget of one chunk and a staging directory: after a full chunk of ones, a write of two
      bytes across its end evicts that chunk and rebuilds it from nothing. */
  method EvictingRun() returns (file: B.BufferedFile)
    ensures fresh(file) && file.Inv()
    ensures |file.Contents()| == CHUNK + 1 && file.Contents()[0] == 0
  {
    hide BufferImage.Valid, Image, Written, Spilled, NewBases, Touched, OldestOf, NothingLost, Live, WindowsOk, Splice;
    hide OnesFile, CommittedImage, Forget;
    file := new B.BufferedFile(CHUNK, 0, true, false);
    OnesWritten();
    var ok;
    ghost var evicted;
    ok, evicted := file.Write(Filled(true), 0, true, true);
    assert file.State() == OnesFile({0}, {}, {0}, 0, CHUNK);
    ChunkZeroEvicted(file.State());
    ok, evicted := file.Write([2, 2], CHUNK - 1, true, true);
    assert ok && evicted == Some(0);
    EvictedWriteLosesBytes();
  }
}
