/**
 Chunk records and their tombstones under fenced conditional batches: which batches the
 validators admit, and what every admitted batch keeps.  Encoded values are typed here; a
 value of the wrong kind stands for bytes that do not decode.
 */
module ChunkTombstones {
  import opened Bytes

  /** 25 hours, in seconds. */
  const QUARANTINE: int := 90000

  datatype Chunk = Chunk(id: nat, size: int, replicas: seq<nat>, state: nat)

  datatype Tombstone = Tombstone(
    id: nat, replicas: seq<nat>, size: int, reason: string, deletedAt: int, deleteAfter: int)

  datatype Key =
    | ChunkKey(id: nat) | TombstoneKey(id: nat) | InodeKey(id: nat)
    | EpochKey | CatalogKey | OtherKey(name: string)

  datatype Value =
    | ChunkValue(chunk: Chunk)
    | TombstoneValue(tombstone: Tombstone)
    | InodeValue(id: nat, refs: seq<nat>)
    | EpochValue(epoch: nat)
    | CatalogValue(canonical: bool)
    | Opaque(raw: seq<Byte>)

  /** A precondition expects a value, or absence. */
  datatype Precondition = Precondition(key: Key, wanted: Option<Value>)

  /** A mutation sets a value, or deletes the key. */
  datatype Mutation = Mutation(key: Key, value: Option<Value>)

  datatype Batch = Batch(pre: seq<Precondition>, muts: seq<Mutation>)

  type Db = map<Key, Value>

  // ---------- applying ----------

  predicate Lookup(db: Db, k: Key, v: Option<Value>) { if v.None? then k !in db else k in db && db[k] == v.value }

  predicate Holds(db: Db, pre: seq<Precondition>) {
    forall p :: p in pre ==> Lookup(db, p.key, p.wanted)
  }

  function Mutate(db: Db, muts: seq<Mutation>): Db {
    if muts == [] then db
    else
      var before, m := Mutate(db, muts[..|muts| - 1]), muts[|muts| - 1];
      if m.value.None? then before - {m.key} else before[m.key := m.value.value]
  }

  /** The canonical form sorts by key and refuses two mutations, or two preconditions, of one
      key. */
  predicate NoDuplicates(b: Batch) {
    && (forall i, j :: 0 <= i < j < |b.pre| ==> b.pre[i].key != b.pre[j].key)
    && (forall i, j :: 0 <= i < j < |b.muts| ==> b.muts[i].key != b.muts[j].key)
  }

  /** Check all preconditions, then apply all mutations; nothing happens on a conflict. */
  function Apply(db: Db, b: Batch): Db {
    if Accepted(b) && Holds(db, b.pre) then Mutate(db, b.muts) else db
  }

  // ---------- the validators ----------

  function ChunkPre(pre: seq<Precondition>): (r: Option<Precondition>)
    ensures r.Some? ==> r.value in pre && r.value.key.ChunkKey?
  {
    if pre == [] then None
    else if pre[|pre| - 1].key.ChunkKey? then Some(pre[|pre| - 1])
    else ChunkPre(pre[..|pre| - 1])
  }

  function TombstonePre(pre: seq<Precondition>): (r: Option<Precondition>)
    ensures r.Some? ==> r.value in pre && r.value.key.TombstoneKey?
  {
    if pre == [] then None
    else if pre[|pre| - 1].key.TombstoneKey? then Some(pre[|pre| - 1])
    else TombstonePre(pre[..|pre| - 1])
  }

  /** The chunk compared by a batch, and its tombstone condition, name one chunk. */
  predicate Names(b: Batch, id: nat) {
    var c, t := ChunkPre(b.pre), TombstonePre(b.pre);
    c.Some? && t.Some? && c.value.key == ChunkKey(id) && t.value.key == TombstoneKey(id) && id != 0
  }

  predicate ComparesChunk(b: Batch, id: nat) {
    var c := ChunkPre(b.pre);
    c.Some? && c.value.wanted.Some? && c.value.wanted.value.ChunkValue? && c.value.wanted.value.chunk.id == id
  }

  predicate ComparesTombstone(b: Batch, id: nat) {
    var t := TombstonePre(b.pre);
    && t.Some? && t.value.wanted.Some? && t.value.wanted.value.TombstoneValue?
    && Normal(t.value.wanted.value.tombstone) && t.value.wanted.value.tombstone.id == id
  }

  predicate Normal(t: Tombstone) {
    t.id != 0 && 0 <= t.size && NonBlank(t.reason) && t.deleteAfter == t.deletedAt + QUARANTINE
  }

  predicate NonBlank(s: string) { exists i :: 0 <= i < |s| && s[i] !in {' ', '\t', '\n', '\r'} }

  /** A tombstone is the snapshot of a chunk record. */
  predicate Snapshots(t: Tombstone, c: Chunk) { t.id == c.id && t.size == c.size && t.replicas == c.replicas }

  predicate ValidUpdate(b: Batch, id: nat) {
    && |b.pre| == 2 && |b.muts| == 1
    && (forall p :: p in b.pre ==> p.key.ChunkKey? || p.key.TombstoneKey?)
    && Names(b, id) && ComparesChunk(b, id) && TombstonePre(b.pre).value.wanted.None?
    && b.muts[0].key == ChunkKey(id) && b.muts[0].value.Some?
    && b.muts[0].value.value.ChunkValue? && b.muts[0].value.value.chunk.id == id
  }

  predicate ValidCreate(b: Batch, id: nat) {
    && |b.pre| == 3 && |b.muts| == 1
    && (forall p :: p in b.pre ==> p.key.EpochKey? || p.key.ChunkKey? || p.key.TombstoneKey?)
    && Names(b, id) && ComparesChunk(b, id) && TombstonePre(b.pre).value.wanted.None?
    && b.muts[0].key == TombstoneKey(id) && b.muts[0].value.Some? && b.muts[0].value.value.TombstoneValue?
    && var chunk, t := ChunkPre(b.pre).value.wanted.value.chunk, b.muts[0].value.value.tombstone;
       0 <= chunk.size && Normal(t) && Snapshots(t, chunk)
  }

  predicate ValidPurge(b: Batch, id: nat) {
    && |b.pre| == 4 && |b.muts| == 2
    && (forall p :: p in b.pre ==> p.key.EpochKey? || p.key.CatalogKey? || p.key.ChunkKey? || p.key.TombstoneKey?)
    && (exists p :: p in b.pre && p.key.CatalogKey? && p.wanted == Some(CatalogValue(true)))
    && Names(b, id) && ComparesChunk(b, id)
    && ComparesTombstone(b, id)
    && b.muts[0] == Mutation(ChunkKey(id), None) && b.muts[1] == Mutation(TombstoneKey(id), None)
  }

  predicate IsAllocation(b: Batch) { exists p :: p in b.pre && p.key.InodeKey? }

  /** The condition an allocation puts on one key: the inode is compared exactly, chunks and
      tombstones must be absent. */
  predicate AllocationPre(p: Precondition) {
    match p.key
    case InodeKey(_) => p.wanted.Some?
    case EpochKey => true
    case ChunkKey(id) => p.wanted.None? && id != 0
    case TombstoneKey(id) => p.wanted.None? && id != 0
    case _ => false
  }

  function ChunksOf(pre: seq<Precondition>): set<nat> { set p | p in pre && p.key.ChunkKey? :: p.key.id }

  function TombstonesOf(pre: seq<Precondition>): set<nat> { set p | p in pre && p.key.TombstoneKey? :: p.key.id }

  predicate AllocationMut(m: Mutation, inode: nat, chunks: set<nat>) {
    match m.key
    case ChunkKey(id) => id in chunks && m.value.Some? && m.value.value.ChunkValue? && m.value.value.chunk.id == id
    case InodeKey(i) => i == inode && m.value.Some? && m.value.value.InodeValue? && m.value.value.id == inode
    case EpochKey => m.value.Some?
    case _ => false
  }

  predicate ComparesInode(p: Precondition, inode: nat) {
    && p.key == InodeKey(inode) && p.wanted.Some?
    && p.wanted.value.InodeValue? && p.wanted.value.id == inode
  }

  /** New chunk records for one inode, all with their tombstones absent, and an inode that
      references exactly them in addition. */
  predicate ValidAllocation(b: Batch, inode: nat) {
    && (forall p :: p in b.pre ==> AllocationPre(p))
    && (exists p :: p in b.pre && ComparesInode(p, inode))
    && (forall p :: p in b.pre && p.key.InodeKey? ==> p.key.id == inode)
    && ChunksOf(b.pre) == TombstonesOf(b.pre) != {}
    && (forall m :: m in b.muts ==> AllocationMut(m, inode, ChunksOf(b.pre)))
    && (forall id :: id in ChunksOf(b.pre) ==> exists m :: m in b.muts && m.key == ChunkKey(id))
    && (exists m :: m in b.muts && m.key == InodeKey(inode))
    && (forall p, m :: p in b.pre && m in b.muts && p.key == m.key == InodeKey(inode) && p.wanted.Some? && m.value.Some? ==>
          References(p.wanted.value, m.value.value, ChunksOf(b.pre)))
  }

  /** The inode's new references are its old ones plus exactly `added`, none twice. */
  predicate References(before: Value, after: Value, added: set<nat>) {
    && before.InodeValue? && after.InodeValue? && |before.refs| <= |after.refs|
    && (set r | r in after.refs && r !in before.refs) == added
    && (forall i, j :: 0 <= i < j < |after.refs| ==> after.refs[i] != after.refs[j])
  }

  /** validateChunkTombstoneFencedBatch: the shape decides the validator. */
  predicate Accepted(b: Batch) {
    && NoDuplicates(b)
    && if IsAllocation(b) then exists p :: p in b.pre && p.key.InodeKey? && ValidAllocation(b, p.key.id)
       else exists p :: p in b.pre && p.key.ChunkKey? &&
              (ValidUpdate(b, p.key.id) || ValidCreate(b, p.key.id) || ValidPurge(b, p.key.id))
  }

  // ---------- the pair invariant ----------

  /** A tombstone and a chunk record are stored for one chunk: both name it, they agree on size and
      replicas, and the tombstone has a reason and a quarantine of 25 hours. */
  ghost predicate Paired(db: Db, id: nat) {
    && TombstoneKey(id) in db && db[TombstoneKey(id)].TombstoneValue?
    && ChunkKey(id) in db && db[ChunkKey(id)].ChunkValue?
    && var t, c := db[TombstoneKey(id)].tombstone, db[ChunkKey(id)].chunk;
       && id != 0 && t.id == id && c.id == id && t.size == c.size >= 0 && t.replicas == c.replicas
       && t.deleteAfter == t.deletedAt + 25 * 3600
       && exists i :: 0 <= i < |t.reason| && t.reason[i] !in {' ', '\t', '\n', '\r'}
  }

  ghost predicate Inv(db: Db) { forall id :: TombstoneKey(id) in db ==> Paired(db, id) }

  lemma {:induction false} MutateElsewhere(db: Db, muts: seq<Mutation>, k: Key)
    requires forall m :: m in muts ==> m.key != k
    ensures Lookup(Mutate(db, muts), k, if k in db then Some(db[k]) else None)
  {
    if muts != [] {
      MutateElsewhere(db, muts[..|muts| - 1], k);
    }
  }

  /** Allocation leaves every tombstoned chunk alone. */
  lemma AllocationKeeps(db: Db, b: Batch, inode: nat, id: nat)
    requires ValidAllocation(b, inode) && Holds(db, b.pre)
    ensures Lookup(Mutate(db, b.muts), TombstoneKey(id), if TombstoneKey(id) in db then Some(db[TombstoneKey(id)]) else None)
    ensures TombstoneKey(id) in db ==>
              Lookup(Mutate(db, b.muts), ChunkKey(id), if ChunkKey(id) in db then Some(db[ChunkKey(id)]) else None)
  {
    forall m | m in b.muts ensures m.key != TombstoneKey(id) && (TombstoneKey(id) in db ==> m.key != ChunkKey(id)) {
      assert AllocationMut(m, inode, ChunksOf(b.pre));
      if m.key == ChunkKey(id) {
        assert id in TombstonesOf(b.pre);
        var p :| p in b.pre && p.key == TombstoneKey(id);
        assert AllocationPre(p) && Lookup(db, p.key, p.wanted);
      }
    }
    MutateElsewhere(db, b.muts, TombstoneKey(id));
    if TombstoneKey(id) in db {
      MutateElsewhere(db, b.muts, ChunkKey(id));
    }
  }

  lemma MutateOne(db: Db, m: Mutation)
    ensures Mutate(db, [m]) == if m.value.None? then db - {m.key} else db[m.key := m.value.value]
  {
    assert [m][..0] == [];
  }

  lemma MutateTwo(db: Db, m: Mutation, n: Mutation)
    ensures Mutate(db, [m, n]) == Mutate(Mutate(db, [m]), [n])
  {
    assert [m, n][..1] == [m];
    assert [n][..0] == [];
  }

  /** What one admitted batch may do to a tombstoned chunk: nothing, or remove both records. */
  ghost predicate FrozenOrGone(db: Db, after: Db, id: nat) {
    || (ChunkKey(id) !in after && TombstoneKey(id) !in after)
    || (ChunkKey(id) in after && TombstoneKey(id) in after && ChunkKey(id) in db && TombstoneKey(id) in db &&
        after[ChunkKey(id)] == db[ChunkKey(id)] && after[TombstoneKey(id)] == db[TombstoneKey(id)])
  }

  /** The effect of the three batches about one chunk. */
  lemma {:induction false} ChunkBatch(db: Db, b: Batch, id: nat)
    requires Holds(db, b.pre) && (ValidUpdate(b, id) || ValidCreate(b, id) || ValidPurge(b, id))
    ensures var after := Mutate(db, b.muts);
            && (ValidUpdate(b, id) ==> TombstoneKey(id) !in db && after == db[ChunkKey(id) := b.muts[0].value.value])
            && (ValidCreate(b, id) ==>
                  TombstoneKey(id) !in db && ChunkKey(id) in db && db[ChunkKey(id)] == ChunkPre(b.pre).value.wanted.value &&
                  after == db[TombstoneKey(id) := b.muts[0].value.value])
            && (ValidPurge(b, id) ==> after == db - {ChunkKey(id)} - {TombstoneKey(id)})
  {
    var c, t := ChunkPre(b.pre).value, TombstonePre(b.pre).value;
    assert Lookup(db, c.key, c.wanted) && Lookup(db, t.key, t.wanted);
    if |b.muts| == 1 {
      assert b.muts == [b.muts[0]];
      MutateOne(db, b.muts[0]);
    } else {
      assert b.muts == [b.muts[0], b.muts[1]];
      MutateTwo(db, b.muts[0], b.muts[1]);
      MutateOne(db, b.muts[0]);
      MutateOne(Mutate(db, [b.muts[0]]), b.muts[1]);
    }
  }

  lemma ChunkBatchKeeps(db: Db, b: Batch, id: nat, x: nat)
    requires Inv(db) && Holds(db, b.pre) && (ValidUpdate(b, id) || ValidCreate(b, id) || ValidPurge(b, id))
    ensures var after := Mutate(db, b.muts);
            && (TombstoneKey(x) in after ==> Paired(after, x))
            && (TombstoneKey(x) in db ==> FrozenOrGone(db, after, x))
  {
    hide ValidUpdate, ValidCreate, ValidPurge, Mutate;
    ChunkBatch(db, b, id);
    BatchValues(b, id);
    assert TombstoneKey(x) in db ==> Paired(db, x);
  }

  lemma BatchValues(b: Batch, id: nat)
    requires ValidUpdate(b, id) || ValidCreate(b, id) || ValidPurge(b, id)
    ensures id != 0
    ensures ValidCreate(b, id) ==>
              var v := b.muts[0].value.value;
              && v.TombstoneValue? && Normal(v.tombstone) && v.tombstone.id == id
              && ChunkPre(b.pre).value.wanted.value.ChunkValue?
              && Snapshots(v.tombstone, ChunkPre(b.pre).value.wanted.value.chunk)
  {
  }

  /** Every admitted batch keeps the pair invariant, and freezes a tombstoned chunk or removes
      both of its records. */
  lemma BatchKeeps(db: Db, b: Batch)
    requires Inv(db)
    ensures Inv(Apply(db, b))
    ensures forall x :: TombstoneKey(x) in db ==> FrozenOrGone(db, Apply(db, b), x)
  {
    var after := Apply(db, b);
    forall x
      ensures TombstoneKey(x) in after ==> Paired(after, x)
      ensures TombstoneKey(x) in db ==> FrozenOrGone(db, after, x)
    {
      assert TombstoneKey(x) in db ==> Paired(db, x);
      if Accepted(b) && Holds(db, b.pre) {
        if IsAllocation(b) {
          var p :| p in b.pre && p.key.InodeKey? && ValidAllocation(b, p.key.id);
          AllocationKeeps(db, b, p.key.id, x);
        } else {
          var p :| p in b.pre && p.key.ChunkKey? &&
                   (ValidUpdate(b, p.key.id) || ValidCreate(b, p.key.id) || ValidPurge(b, p.key.id));
          ChunkBatchKeeps(db, b, p.key.id, x);
        }
      }
    }
  }

  // ---------- whole runs ----------

  function Run(db: Db, batches: seq<Batch>): Db {
    if batches == [] then db else Apply(Run(db, batches[..|batches| - 1]), batches[|batches| - 1])
  }

  lemma {:induction false} RunKeeps(db: Db, batches: seq<Batch>)
    requires Inv(db)
    ensures Inv(Run(db, batches))
  {
    if batches != [] {
      RunKeeps(db, batches[..|batches| - 1]);
      BatchKeeps(Run(db, batches[..|batches| - 1]), batches[|batches| - 1]);
    }
  }

  ghost predicate Gone(db: Db, id: nat) { ChunkKey(id) !in db && TombstoneKey(id) !in db }

  /** A tombstoned chunk stays exactly as it is through every run, until one batch removes the
      chunk record and the tombstone together. */
  lemma {:induction false} FrozenUntilPurged(db: Db, batches: seq<Batch>, id: nat)
    requires Inv(db) && TombstoneKey(id) in db
    ensures || (exists n :: 0 <= n <= |batches| && Gone(Run(db, batches[..n]), id))
            || (Paired(db, id) && Paired(Run(db, batches), id) &&
                Run(db, batches)[ChunkKey(id)] == db[ChunkKey(id)] &&
                Run(db, batches)[TombstoneKey(id)] == db[TombstoneKey(id)])
  {
    hide Apply;
    if batches != [] {
      var n := |batches| - 1;
      var before := batches[..n];
      FrozenUntilPurged(db, before, id);
      if m :| 0 <= m <= n && Gone(Run(db, before[..m]), id) {
        assert before[..m] == batches[..m];
      } else {
        RunKeeps(db, before);
        BatchKeeps(Run(db, before), batches[n]);
        assert batches[..|batches|] == batches;
        assert FrozenOrGone(Run(db, before), Run(db, batches), id);
        if ChunkKey(id) !in Run(db, batches) {
          assert Gone(Run(db, batches[..n + 1]), id);
        }
      }
    }
  }

  // ---------- what is admitted ----------

  lemma ApplyIs(b: Batch, id: nat)
    requires !IsAllocation(b) && NoDuplicates(b)
    requires forall p :: p in b.pre && p.key.ChunkKey? ==> p.key.id == id
    requires exists p :: p in b.pre && p.key == ChunkKey(id)
    ensures Accepted(b) <==> ValidUpdate(b, id) || ValidCreate(b, id) || ValidPurge(b, id)
  {
  }

  /** Chunk record `was` is there without a tombstone, and is replaced. */
  function UpdateBatch(was: Chunk, now: Chunk): Batch {
    Batch([Precondition(ChunkKey(was.id), Some(ChunkValue(was))), Precondition(TombstoneKey(was.id), None)],
      [Mutation(ChunkKey(was.id), Some(ChunkValue(now)))])
  }

  /** An update of a live chunk goes through if and only if the record keeps its ID; nothing
      happens to a chunk that is tombstoned or has changed. */
  lemma UpdateIff(db: Db, was: Chunk, now: Chunk)
    ensures Apply(db, UpdateBatch(was, now)) ==
            if && was.id != 0 && now.id == was.id && TombstoneKey(was.id) !in db
               && ChunkKey(was.id) in db && db[ChunkKey(was.id)] == ChunkValue(was)
            then db[ChunkKey(was.id) := ChunkValue(now)] else db
  {
    var b := UpdateBatch(was, now);
    var c, t := b.pre[0], b.pre[1];
    LastPre(b.pre[..1], t);
    LastPre([], c);
    assert b.pre == b.pre[..1] + [t] && b.pre[..1] == [] + [c];
    assert c in b.pre && t in b.pre;
    ApplyIs(b, was.id);
    MutateOne(db, b.muts[0]);
    assert Holds(db, b.pre) <==> Lookup(db, c.key, c.wanted) && Lookup(db, t.key, t.wanted);
  }

  lemma LastPre(pre: seq<Precondition>, p: Precondition)
    ensures ChunkPre(pre + [p]) == if p.key.ChunkKey? then Some(p) else ChunkPre(pre)
    ensures TombstonePre(pre + [p]) == if p.key.TombstoneKey? then Some(p) else TombstonePre(pre)
  {
    assert (pre + [p])[..|pre|] == pre;
  }

  function CreateBatch(epoch: Option<Value>, chunk: Chunk, t: Tombstone): Batch {
    Batch([Precondition(EpochKey, epoch), Precondition(ChunkKey(chunk.id), Some(ChunkValue(chunk))),
           Precondition(TombstoneKey(chunk.id), None)],
      [Mutation(TombstoneKey(chunk.id), Some(TombstoneValue(t)))])
  }

  /** A tombstone is created if and only if it repeats the ID, size and replicas of the chunk record
      that is there, gives a reason and a quarantine of 25 hours, and none exists yet. */
  lemma CreateIff(db: Db, epoch: Option<Value>, chunk: Chunk, t: Tombstone)
    ensures Apply(db, CreateBatch(epoch, chunk, t)) ==
            if && chunk.id != 0 && 0 <= chunk.size
               && t.id == chunk.id && t.size == chunk.size && t.replicas == chunk.replicas
               && NonBlank(t.reason) && t.deleteAfter == t.deletedAt + 25 * 3600
               && Lookup(db, EpochKey, epoch) && TombstoneKey(chunk.id) !in db
               && ChunkKey(chunk.id) in db && db[ChunkKey(chunk.id)] == ChunkValue(chunk)
            then db[TombstoneKey(chunk.id) := TombstoneValue(t)] else db
  {
    var b := CreateBatch(epoch, chunk, t);
    var e, c, n := b.pre[0], b.pre[1], b.pre[2];
    LastPre(b.pre[..2], n);
    LastPre(b.pre[..1], c);
    assert b.pre == b.pre[..2] + [n] && b.pre[..2] == b.pre[..1] + [c];
    assert e in b.pre && c in b.pre && n in b.pre;
    ApplyIs(b, chunk.id);
    MutateOne(db, b.muts[0]);
    assert Holds(db, b.pre) <==>
           Lookup(db, e.key, e.wanted) && Lookup(db, c.key, c.wanted) && Lookup(db, n.key, n.wanted);
  }

  function PurgeBatch(epoch: Option<Value>, canonical: bool, chunk: Chunk, t: Tombstone): Batch {
    Batch([Precondition(EpochKey, epoch), Precondition(CatalogKey, Some(CatalogValue(canonical))),
           Precondition(ChunkKey(chunk.id), Some(ChunkValue(chunk))),
           Precondition(TombstoneKey(chunk.id), Some(TombstoneValue(t)))],
      [Mutation(ChunkKey(chunk.id), None), Mutation(TombstoneKey(chunk.id), None)])
  }

  predicate PurgeAdmitted(canonical: bool, chunk: Chunk, t: Tombstone) {
    && chunk.id != 0 && canonical && t.id == chunk.id && 0 <= t.size
    && NonBlank(t.reason) && t.deleteAfter == t.deletedAt + 25 * 3600
  }

  lemma PurgeShape(epoch: Option<Value>, canonical: bool, chunk: Chunk, t: Tombstone)
    ensures var b := PurgeBatch(epoch, canonical, chunk, t);
            && NoDuplicates(b) && !IsAllocation(b) && b.pre[1] in b.pre && b.pre[2] in b.pre
            && ChunkPre(b.pre) == Some(b.pre[2]) && TombstonePre(b.pre) == Some(b.pre[3])
            && (forall p :: p in b.pre ==> p == b.pre[0] || p == b.pre[1] || p == b.pre[2] || p == b.pre[3])
  {
    var b := PurgeBatch(epoch, canonical, chunk, t);
    LastPre(b.pre[..3], b.pre[3]);
    LastPre(b.pre[..2], b.pre[2]);
    assert b.pre == b.pre[..3] + [b.pre[3]] && b.pre[..3] == b.pre[..2] + [b.pre[2]];
  }

  lemma PurgeAccepted(epoch: Option<Value>, canonical: bool, chunk: Chunk, t: Tombstone)
    ensures Accepted(PurgeBatch(epoch, canonical, chunk, t)) <==> PurgeAdmitted(canonical, chunk, t)
  {
    hide NonBlank, NoDuplicates, IsAllocation, ChunkPre, TombstonePre, Accepted;
    var b := PurgeBatch(epoch, canonical, chunk, t);
    PurgeShape(epoch, canonical, chunk, t);
    ApplyIs(b, chunk.id);
  }

  lemma PurgeHolds(db: Db, epoch: Option<Value>, canonical: bool, chunk: Chunk, t: Tombstone)
    ensures var b := PurgeBatch(epoch, canonical, chunk, t);
            && Mutate(db, b.muts) == db - {ChunkKey(chunk.id)} - {TombstoneKey(chunk.id)}
            && (Holds(db, b.pre) <==>
                  Lookup(db, EpochKey, epoch) && Lookup(db, CatalogKey, Some(CatalogValue(canonical))) &&
                  Lookup(db, ChunkKey(chunk.id), Some(ChunkValue(chunk))) &&
                  Lookup(db, TombstoneKey(chunk.id), Some(TombstoneValue(t))))
  {
    hide Lookup;
    var b := PurgeBatch(epoch, canonical, chunk, t);
    assert b.pre[0] in b.pre && b.pre[1] in b.pre && b.pre[2] in b.pre && b.pre[3] in b.pre;
    MutateTwo(db, b.muts[0], b.muts[1]);
    MutateOne(db, b.muts[0]);
    MutateOne(Mutate(db, [b.muts[0]]), b.muts[1]);
  }

  /** A purge compares the epoch, a canonical catalog, the chunk and its tombstone, and then
      removes both records. */
  lemma PurgeIff(db: Db, epoch: Option<Value>, canonical: bool, chunk: Chunk, t: Tombstone)
    ensures Apply(db, PurgeBatch(epoch, canonical, chunk, t)) ==
            if && chunk.id != 0 && canonical && t.id == chunk.id && 0 <= t.size
               && NonBlank(t.reason) && t.deleteAfter == t.deletedAt + 25 * 3600
               && Lookup(db, EpochKey, epoch) && Lookup(db, CatalogKey, Some(CatalogValue(true)))
               && Lookup(db, ChunkKey(chunk.id), Some(ChunkValue(chunk)))
               && Lookup(db, TombstoneKey(chunk.id), Some(TombstoneValue(t)))
            then db - {ChunkKey(chunk.id)} - {TombstoneKey(chunk.id)} else db
  {
    PurgeAccepted(epoch, canonical, chunk, t);
    PurgeHolds(db, epoch, canonical, chunk, t);
    hide Accepted, Holds, Mutate, Lookup, NonBlank;
  }

  /** New chunk records for an inode: the inode is compared, each chunk and its tombstone must be
      absent; the records and the inode with their IDs appended are written. */
  function AllocationBatch(inode: nat, refs: seq<nat>, chunks: seq<Chunk>): Batch {
    Batch([Precondition(InodeKey(inode), Some(InodeValue(inode, refs)))] + Absences(chunks),
      seq(|chunks|, i requires 0 <= i < |chunks| => Mutation(ChunkKey(chunks[i].id), Some(ChunkValue(chunks[i])))) +
      [Mutation(InodeKey(inode), Some(InodeValue(inode, refs + Ids(chunks))))])
  }

  function Ids(chunks: seq<Chunk>): (r: seq<nat>)
    ensures |r| == |chunks| && forall i :: 0 <= i < |r| ==> r[i] == chunks[i].id
  {
    seq(|chunks|, i requires 0 <= i < |chunks| => chunks[i].id)
  }

  function Absences(chunks: seq<Chunk>): (r: seq<Precondition>)
    ensures |r| == 2 * |chunks|
    ensures forall i :: 0 <= i < |chunks| ==>
              r[i] == Precondition(ChunkKey(chunks[i].id), None) &&
              r[|chunks| + i] == Precondition(TombstoneKey(chunks[i].id), None)
  {
    seq(|chunks|, i requires 0 <= i < |chunks| => Precondition(ChunkKey(chunks[i].id), None)) +
    seq(|chunks|, i requires 0 <= i < |chunks| => Precondition(TombstoneKey(chunks[i].id), None))
  }

  /** New, distinct, non-zero chunk IDs that the inode does not reference yet. */
  ghost predicate Allocates(refs: seq<nat>, chunks: seq<Chunk>) {
    && chunks != [] && (forall i :: 0 <= i < |chunks| ==> chunks[i].id != 0 && chunks[i].id !in refs)
    && (forall i, j :: 0 <= i < j < |chunks| ==> chunks[i].id != chunks[j].id)
    && (forall i, j :: 0 <= i < j < |refs| ==> refs[i] != refs[j])
  }

  lemma AllocationShape(inode: nat, refs: seq<nat>, chunks: seq<Chunk>)
    requires Allocates(refs, chunks)
    ensures var b := AllocationBatch(inode, refs, chunks); NoDuplicates(b) && IsAllocation(b)
    ensures forall p :: p in AllocationBatch(inode, refs, chunks).pre ==>
              || p == Precondition(InodeKey(inode), Some(InodeValue(inode, refs)))
              || exists i :: 0 <= i < |chunks| &&
                   (p == Precondition(ChunkKey(chunks[i].id), None) || p == Precondition(TombstoneKey(chunks[i].id), None))
  {
    var b, n := AllocationBatch(inode, refs, chunks), |chunks|;
    assert b.pre[0] in b.pre;
    forall i | 1 <= i < |b.pre| ensures b.pre[i] == Absences(chunks)[i - 1] {
    }
    forall p | p in b.pre
      ensures || p == b.pre[0]
              || exists i :: 0 <= i < n &&
                   (p == Precondition(ChunkKey(chunks[i].id), None) || p == Precondition(TombstoneKey(chunks[i].id), None))
    {
      var j :| 0 <= j < |b.pre| && b.pre[j] == p;
      if 1 <= j <= n {
        assert p == Precondition(ChunkKey(chunks[j - 1].id), None);
      } else if n < j {
        assert p == Absences(chunks)[n + (j - 1 - n)];
        assert p == Precondition(TombstoneKey(chunks[j - 1 - n].id), None);
      }
    }
    forall i, j | 0 <= i < j < |b.pre| ensures b.pre[i].key != b.pre[j].key {
      if n < i {
        assert b.pre[i] == Absences(chunks)[n + (i - 1 - n)] && b.pre[j] == Absences(chunks)[n + (j - 1 - n)];
      } else if n < j {
        assert b.pre[j] == Absences(chunks)[n + (j - 1 - n)];
      }
    }
  }

  lemma AllocatedIds(inode: nat, refs: seq<nat>, chunks: seq<Chunk>)
    requires Allocates(refs, chunks)
    ensures var b := AllocationBatch(inode, refs, chunks);
            ChunksOf(b.pre) == TombstonesOf(b.pre) == (set c | c in chunks :: c.id) != {}
  {
    hide Allocates;
    var b, n := AllocationBatch(inode, refs, chunks), |chunks|;
    var ids := set c | c in chunks :: c.id;
    AllocationShape(inode, refs, chunks);
    forall c | c in chunks ensures c.id in ChunksOf(b.pre) && c.id in TombstonesOf(b.pre) {
      var i :| 0 <= i < n && chunks[i] == c;
      assert b.pre[1 + i] in b.pre && b.pre[1 + n + i] in b.pre;
      assert b.pre[1 + i] == Absences(chunks)[i] && b.pre[1 + n + i] == Absences(chunks)[n + i];
    }
    forall id | id in ChunksOf(b.pre) || id in TombstonesOf(b.pre) ensures id in ids {
      var p :| p in b.pre && (p.key == ChunkKey(id) || p.key == TombstoneKey(id));
      var i :| 0 <= i < |chunks| &&
               (p == Precondition(ChunkKey(chunks[i].id), None) || p == Precondition(TombstoneKey(chunks[i].id), None));
      assert chunks[i] in chunks;
    }
    assert chunks != [] by { AllocatesSome(refs, chunks); }
    assert chunks[0] in chunks && chunks[0].id in ids;
  }

  lemma AllocatesSome(refs: seq<nat>, chunks: seq<Chunk>)
    requires Allocates(refs, chunks)
    ensures chunks != []
  {
  }

  lemma NewReferences(refs: seq<nat>, chunks: seq<Chunk>, inode: nat)
    requires Allocates(refs, chunks)
    ensures References(InodeValue(inode, refs), InodeValue(inode, refs + Ids(chunks)), set c | c in chunks :: c.id)
  {
    var after := refs + Ids(chunks);
    forall r | r in after && r !in refs ensures r in set c | c in chunks :: c.id {
      var j :| 0 <= j < |Ids(chunks)| && Ids(chunks)[j] == r;
      assert chunks[j] in chunks;
    }
    forall c | c in chunks ensures c.id in after && c.id !in refs {
      var i :| 0 <= i < |chunks| && chunks[i] == c;
      assert after[|refs| + i] == c.id;
    }
  }

  lemma AllocationHolds(db: Db, inode: nat, refs: seq<nat>, chunks: seq<Chunk>)
    requires Allocates(refs, chunks)
    requires Lookup(db, InodeKey(inode), Some(InodeValue(inode, refs)))
    requires forall c :: c in chunks ==> ChunkKey(c.id) !in db && TombstoneKey(c.id) !in db
    ensures Holds(db, AllocationBatch(inode, refs, chunks).pre)
  {
    hide Allocates;
    var pre := AllocationBatch(inode, refs, chunks).pre;
    AllocationShape(inode, refs, chunks);
    forall p | p in pre ensures Lookup(db, p.key, p.wanted) {
      if p != pre[0] {
        var i :| 0 <= i < |chunks| &&
                 (p == Precondition(ChunkKey(chunks[i].id), None) || p == Precondition(TombstoneKey(chunks[i].id), None));
        assert chunks[i] in chunks;
      }
    }
  }

  lemma AllocationEffect(db: Db, inode: nat, refs: seq<nat>, chunks: seq<Chunk>)
    requires NoDuplicates(AllocationBatch(inode, refs, chunks))
    ensures var after := Mutate(db, AllocationBatch(inode, refs, chunks).muts);
            && Lookup(after, InodeKey(inode), Some(InodeValue(inode, refs + Ids(chunks))))
            && forall c :: c in chunks ==> Lookup(after, ChunkKey(c.id), Some(ChunkValue(c)))
  {
    hide Mutate, Lookup;
    var muts := AllocationBatch(inode, refs, chunks).muts;
    MutateAt(db, muts, |chunks|);
    forall c | c in chunks ensures Lookup(Mutate(db, muts), ChunkKey(c.id), Some(ChunkValue(c))) {
      var i :| 0 <= i < |chunks| && chunks[i] == c;
      MutateAt(db, muts, i);
    }
  }

  lemma AdmittedAllocation(b: Batch, inode: nat)
    requires NoDuplicates(b) && ValidAllocation(b, inode)
    ensures Accepted(b)
  {
    var p :| p in b.pre && ComparesInode(p, inode);
    assert p in b.pre && p.key.InodeKey? && p.key.id == inode;
  }

  /** Such an allocation is admitted, and when the inode is unchanged and nothing is stored for the
      new IDs it stores every new record and the longer inode. */
  lemma {:induction false} AllocationAccepted(db: Db, inode: nat, refs: seq<nat>, chunks: seq<Chunk>)
    requires Allocates(refs, chunks)
    requires Lookup(db, InodeKey(inode), Some(InodeValue(inode, refs)))
    requires forall c :: c in chunks ==> ChunkKey(c.id) !in db && TombstoneKey(c.id) !in db
    ensures var after := Apply(db, AllocationBatch(inode, refs, chunks));
            && Lookup(after, InodeKey(inode), Some(InodeValue(inode, refs + Ids(chunks))))
            && forall c :: c in chunks ==> Lookup(after, ChunkKey(c.id), Some(ChunkValue(c)))
  {
    hide Allocates, Accepted, Holds, Mutate, NoDuplicates, IsAllocation, ValidAllocation, AllocationBatch;
    AllocationShape(inode, refs, chunks);
    AllocationValid(inode, refs, chunks);
    AdmittedAllocation(AllocationBatch(inode, refs, chunks), inode);
    AllocationHolds(db, inode, refs, chunks);
    AllocationEffect(db, inode, refs, chunks);
  }

  /** The inode's added references are exactly the chunks that are new in the store: each had neither
      record nor tombstone and now has a record of its own; every other record is as before. */
  ghost predicate Linked(db: Db, after: Db, inode: nat) {
    && InodeKey(inode) in db && db[InodeKey(inode)].InodeValue?
    && InodeKey(inode) in after && after[InodeKey(inode)].InodeValue?
    && var was, now := db[InodeKey(inode)].refs, after[InodeKey(inode)].refs;
       && (exists id :: id in now && id !in was)
       && (forall id :: id in now && id !in was ==>
             && id != 0 && ChunkKey(id) !in db && TombstoneKey(id) !in db
             && ChunkKey(id) in after && after[ChunkKey(id)].ChunkValue? && after[ChunkKey(id)].chunk.id == id)
       && (forall id :: !(id in now && id !in was) ==>
             Lookup(after, ChunkKey(id), if ChunkKey(id) in db then Some(db[ChunkKey(id)]) else None))
  }

  /** Every allocation that goes through links new chunks to one inode. */
  lemma {:induction false} AllocationLinks(db: Db, b: Batch) returns (inode: nat)
    requires Accepted(b) && IsAllocation(b) && Holds(db, b.pre)
    ensures Linked(db, Apply(db, b), inode)
  {
    hide Mutate, References, AllocationPre, AllocationMut;
    var p :| p in b.pre && p.key.InodeKey? && ValidAllocation(b, p.key.id);
    inode := p.key.id;
    var after, chunks := Mutate(db, b.muts), ChunksOf(b.pre);
    AllocatedInode(db, b, inode);
    forall id | id in chunks
      ensures id != 0 && ChunkKey(id) !in db && TombstoneKey(id) !in db
      ensures ChunkKey(id) in after && after[ChunkKey(id)].ChunkValue? && after[ChunkKey(id)].chunk.id == id
    {
      AllocatedChunk(db, b, inode, id);
    }
    forall id | id !in chunks
      ensures Lookup(after, ChunkKey(id), if ChunkKey(id) in db then Some(db[ChunkKey(id)]) else None)
    {
      forall m | m in b.muts ensures m.key != ChunkKey(id) {
        MutatedChunk(m, inode, chunks, id);
      }
      MutateElsewhere(db, b.muts, ChunkKey(id));
    }
  }

  lemma MutatedChunk(m: Mutation, inode: nat, chunks: set<nat>, id: nat)
    requires AllocationMut(m, inode, chunks) && id !in chunks
    ensures m.key != ChunkKey(id)
  {
  }

  lemma AllocatedChunk(db: Db, b: Batch, inode: nat, id: nat)
    requires NoDuplicates(b) && ValidAllocation(b, inode) && Holds(db, b.pre) && id in ChunksOf(b.pre)
    ensures var after := Mutate(db, b.muts);
            && id != 0 && ChunkKey(id) !in db && TombstoneKey(id) !in db
            && ChunkKey(id) in after && after[ChunkKey(id)].ChunkValue? && after[ChunkKey(id)].chunk.id == id
  {
    var c :| c in b.pre && c.key == ChunkKey(id);
    assert id in TombstonesOf(b.pre);
    var t :| t in b.pre && t.key == TombstoneKey(id);
    assert AllocationPre(c) && AllocationPre(t);
    var m :| m in b.muts && m.key == ChunkKey(id);
    var i :| 0 <= i < |b.muts| && b.muts[i] == m;
    assert AllocationMut(m, inode, ChunksOf(b.pre));
    MutateAt(db, b.muts, i);
  }

  lemma AllocatedInode(db: Db, b: Batch, inode: nat)
    requires NoDuplicates(b) && ValidAllocation(b, inode) && Holds(db, b.pre)
    ensures var after := Mutate(db, b.muts);
            && InodeKey(inode) in db && db[InodeKey(inode)].InodeValue?
            && InodeKey(inode) in after && after[InodeKey(inode)].InodeValue?
            && var was, now := db[InodeKey(inode)].refs, after[InodeKey(inode)].refs;
               && (forall id :: id in ChunksOf(b.pre) <==> id in now && id !in was)
               && (exists id :: id in now && id !in was)
  {
    var p :| p in b.pre && ComparesInode(p, inode);
    var m :| m in b.muts && m.key == InodeKey(inode);
    var i :| 0 <= i < |b.muts| && b.muts[i] == m;
    assert AllocationMut(m, inode, ChunksOf(b.pre));
    MutateAt(db, b.muts, i);
    assert References(p.wanted.value, m.value.value, ChunksOf(b.pre));
    var was, now := p.wanted.value.refs, m.value.value.refs;
    assert forall id :: id in ChunksOf(b.pre) <==> id in set r | r in now && r !in was;
    var first :| first in ChunksOf(b.pre);
  }

  lemma {:induction false} MutateAt(db: Db, muts: seq<Mutation>, i: nat)
    requires i < |muts| && forall j, k :: 0 <= j < k < |muts| ==> muts[j].key != muts[k].key
    ensures Lookup(Mutate(db, muts), muts[i].key, muts[i].value)
  {
    if i < |muts| - 1 {
      MutateAt(db, muts[..|muts| - 1], i);
    }
  }

  lemma AllocationMuts(inode: nat, refs: seq<nat>, chunks: seq<Chunk>, ids: set<nat>)
    requires ids == set c | c in chunks :: c.id
    ensures var muts := AllocationBatch(inode, refs, chunks).muts;
            && (forall m :: m in muts ==> AllocationMut(m, inode, ids))
            && (forall id :: id in ids ==> exists m :: m in muts && m.key == ChunkKey(id))
            && (exists m :: m in muts && m.key == InodeKey(inode))
            && (forall m :: m in muts && m.key == InodeKey(inode) ==> m.value == Some(InodeValue(inode, refs + Ids(chunks))))
  {
    var muts, n := AllocationBatch(inode, refs, chunks).muts, |chunks|;
    assert muts[n] in muts;
    forall m | m in muts
      ensures AllocationMut(m, inode, ids)
      ensures m.key == InodeKey(inode) ==> m.value == Some(InodeValue(inode, refs + Ids(chunks)))
    {
      var i :| 0 <= i < |muts| && muts[i] == m;
      assert i < n ==> chunks[i] in chunks;
    }
    forall id | id in ids ensures exists m :: m in muts && m.key == ChunkKey(id) {
      var c :| c in chunks && c.id == id;
      var i :| 0 <= i < n && chunks[i] == c;
      assert muts[i] in muts;
    }
  }

  lemma AllocationPres(inode: nat, refs: seq<nat>, chunks: seq<Chunk>)
    requires Allocates(refs, chunks)
    ensures var pre := AllocationBatch(inode, refs, chunks).pre;
            && (forall p :: p in pre ==> AllocationPre(p))
            && (exists p :: p in pre && ComparesInode(p, inode))
            && (forall p :: p in pre && p.key.InodeKey? ==> p.key.id == inode && p.wanted == Some(InodeValue(inode, refs)))
  {
    var pre := AllocationBatch(inode, refs, chunks).pre;
    AllocationShape(inode, refs, chunks);
    assert pre[0] in pre && ComparesInode(pre[0], inode);
  }

  lemma AllocationValid(inode: nat, refs: seq<nat>, chunks: seq<Chunk>)
    requires Allocates(refs, chunks)
    ensures ValidAllocation(AllocationBatch(inode, refs, chunks), inode)
  {
    hide AllocationBatch, AllocationPre, AllocationMut, References, Allocates, ComparesInode;
    AllocationPres(inode, refs, chunks);
    AllocatedIds(inode, refs, chunks);
    NewReferences(refs, chunks, inode);
    AllocationMuts(inode, refs, chunks, set c | c in chunks :: c.id);
  }
}
