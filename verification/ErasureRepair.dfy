/**
 Repair of one 6+3 stripe on a data node: lost shards are rebuilt from the survivors and
 written to shard disks that hold no record of them.  A record is never replaced in place: a
 deleted shard leaves a tombstone that the generation fence protects.
 */
module ErasureRepair {
  import opened Bytes
  import opened ErasureCode
  import opened ErasureStripe
  import opened ErasureChunks

  /** One extent record, as the segment store keeps it. */
  datatype State = Live | Tombstoned | Corrupt

  datatype Record = Record(state: State, data: seq<Sym>)

  datatype Read = Found(data: seq<Sym>) | NotFound | Broken

  /** Rebuilds a stripe from the shards that are there; the claimed length only has to fit. */
  method Reconstruct(c: Code, partial: seq<Option<seq<Sym>>>, originalLen: nat) returns (r: Result<seq<seq<Sym>>>)
    ensures r == ReconstructOf(c, partial, originalLen)
  {
    hide Count, Join, Consistent;
    if |partial| != c.k + c.m {
      return Err;
    }
    var shards := Usable(partial);
    var available := CountShards(shards);
    var n := SliceLen(shards);
    if available < c.k || !SameLen(shards, n) {
      return Err;
    }
    var rebuilt := Rebuild(c, shards, n);
    RebuildLen(c, shards, n);
    if !Consistent(c, rebuilt, n) {
      return Err;
    }
    var joined := JoinShards(rebuilt, c.k);
    if |joined| < originalLen {
      return Err;
    }
    r := Ok(rebuilt);
  }

  ghost function ReconstructOf(c: Code, partial: seq<Option<seq<Sym>>>, len: nat): Result<seq<seq<Sym>>> {
    var shards := Usable(partial);
    var n := SliceLen(shards);
    if |partial| != c.k + c.m || Count(shards) < c.k || !SameLen(shards, n) then Err
    else
      var rebuilt := Rebuild(c, shards, n);
      RebuildLen(c, shards, n);
      if !Consistent(c, rebuilt, n) || |Join(rebuilt[..c.k])| < len then Err else Ok(rebuilt)
  }

  /** Any k shards of a stripe rebuild all of it, for every claimed length the stripe can hold. */
  lemma {:induction false} ReconstructIs(c: Code, data: seq<Sym>, n: nat, partial: seq<Option<seq<Sym>>>, len: nat)
    requires Valid(c) && 0 < n && Comes(c, data, n, partial, 0, n)
    ensures ReconstructOf(c, partial, len) ==
            if |Present(partial)| < c.k || c.k * n < len then Err else Ok(Shards(c, data, n))
  {
    hide Consistent, Join, Count, Comes, Present;
    ComesUsable(c, data, n, partial);
    CountIs(partial);
    if |Present(partial)| >= c.k {
      RebuildStripe(c, data, n, partial);
      StripeConsistent(c, data, n);
      JoinIs(c, data, n, Shards(c, data, n)[..c.k]);
    }
  }

  /** Repair's reconstruction: a claimed length that is unknown or larger than the shards imply
      is replaced by what they imply. */
  method RebuildStripeFrom(c: Code, shards: seq<Option<seq<Sym>>>, originalLen: int, ghost data: seq<Sym>, ghost n: nat)
    returns (r: Result<seq<seq<Sym>>>)
    requires Valid(c) && 0 < n && Comes(c, data, n, shards, 0, n)
    ensures r == if |Present(shards)| < c.k then Err else Ok(Shards(c, data, n))
  {
    hide Valid, Comes, Present, ReconstructOf, MaxLen;
    var longest := LongestShard(shards);
    PartialLens(c, data, n, shards);
    var padded := longest * c.k;
    var len := if originalLen <= 0 || originalLen > padded then padded else originalLen;
    r := Reconstruct(c, shards, len);
    ReconstructIs(c, data, n, shards, len);
  }

  /** `missing` lists the absent shards once each. */
  ghost predicate Absent(shards: seq<Option<seq<Sym>>>, missing: seq<int>) {
    && (forall i :: i in missing <==> 0 <= i < |shards| && shards[i].None?)
    && (forall i, j :: 0 <= i < j < |missing| ==> missing[i] != missing[j])
  }

  class ShardStores {
    /** One shard store per disk: the records of this chunk by shard index. */
    var disks: seq<map<int, Record>>
    var used: seq<int>
    /** The disk recorded for each shard. */
    var diskOf: map<int, int>

    predicate Wired()
      reads this
    {
      |used| == |disks| && forall i :: i in diskOf ==> 0 <= diskOf[i] < |disks|
    }

    /** Where shard i is looked for: the recorded disk, else the first with any record of it. */
    function Located(i: int): (d: int)
      requires Wired()
      reads this
      ensures -1 <= d < |disks|
    {
      if i in diskOf then diskOf[i] else Probe(disks, i, 0)
    }

    function Reads(i: int): Read
      requires Wired()
      reads this
    {
      var d := Located(i);
      if d < 0 || i !in disks[d] || disks[d][i].state.Tombstoned? then NotFound
      else if disks[d][i].state.Corrupt? then Broken
      else Found(disks[d][i].data)
    }

    /** Every live record of a shard holds that shard of the stripe. */
    ghost predicate Holds(c: Code, data: seq<Sym>, n: nat)
      requires Valid(c)
      reads this
    {
      forall d, i :: 0 <= d < |disks| && i in disks[d] && disks[d][i].state.Live? ==>
        IsShard(disks[d][i], c, data, n, i)
    }

    ghost predicate OnDisk(i: int, data: seq<Sym>)
      reads this
    {
      i in diskOf && 0 <= diskOf[i] < |disks| && i in disks[diskOf[i]] && disks[diskOf[i]][i] == Record(Live, data)
    }

    /** shardDisk caches what its probe finds. */
    method ShardDisk(i: int) returns (d: int)
      requires Wired()
      modifies this`diskOf
      ensures Wired() && d == old(Located(i))
      ensures diskOf == if d < 0 then old(diskOf) else old(diskOf)[i := d]
    {
      if i in diskOf {
        d := diskOf[i];
        assert diskOf == diskOf[i := d];
        return;
      }
      d := -1;
      for x := 0 to |disks|
        invariant Probe(disks, i, x) == Probe(disks, i, 0)
      {
        if i in disks[x] {
          diskOf := diskOf[i := x];
          return x;
        }
      }
    }

    method ReadShard(i: int) returns (r: Read)
      requires Wired()
      modifies this`diskOf
      ensures Wired() && r == old(Reads(i)) && forall x :: Located(x) == old(Located(x))
      ensures forall x :: x in old(diskOf) ==> x in diskOf
      ensures r.Found? ==> OnDisk(i, r.data)
    {
      var d := ShardDisk(i);
      if d < 0 || i !in disks[d] || disks[d][i].state.Tombstoned? {
        return NotFound;
      }
      if disks[d][i].state.Corrupt? {
        return Broken;
      }
      r := Found(disks[d][i].data);
    }

    /** Reads all shards, listing the absent ones; a shard that cannot be read is an error. */
    method ReadAll(total: nat) returns (r: Result<seq<Option<seq<Sym>>>>, missing: seq<int>)
      requires Wired()
      modifies this`diskOf
      ensures Wired() && forall x :: Located(x) == old(Located(x))
      ensures r.Err? <==> exists i :: 0 <= i < total && old(Reads(i)).Broken?
      ensures r.Ok? ==> |r.value| == total && Absent(r.value, missing)
      ensures r.Ok? ==> forall i :: 0 <= i < total ==>
                r.value[i] == (if old(Reads(i)).Found? then Some(old(Reads(i)).data) else None) &&
                (r.value[i].Some? ==> OnDisk(i, r.value[i].value))
    {
      var shards: seq<Option<seq<Sym>>> := [];
      missing := [];
      for i := 0 to total
        invariant Wired() && forall x :: Located(x) == old(Located(x))
        invariant |shards| == i && Absent(shards, missing)
        invariant forall x :: 0 <= x < i ==>
                    && !old(Reads(x)).Broken?
                    && shards[x] == (if old(Reads(x)).Found? then Some(old(Reads(x)).data) else None)
                    && (shards[x].Some? ==> OnDisk(x, shards[x].value))
      {
        assert Reads(i) == old(Reads(i)) && forall x :: 0 <= x < |missing| ==> missing[x] in missing;
        var read := ReadShard(i);
        if read.Broken? {
          return Err, missing;
        }
        if read.NotFound? {
          missing := missing + [i];
          shards := shards + [None];
        } else {
          shards := shards + [Some(read.data)];
        }
      }
      r := Ok(shards);
    }

    /** The disk a lost shard is rebuilt on: the preferred one if it has no record of the shard,
        else the least used of those that have none, else -1. */
    method CleanDisk(i: int, prefer: int) returns (best: int)
      requires Wired()
      ensures -1 <= best < |disks|
      ensures best == -1 <==> forall d :: 0 <= d < |disks| ==> i in disks[d]
      ensures 0 <= best ==> i !in disks[best]
      ensures 0 <= prefer < |disks| && i !in disks[prefer] ==> best == prefer
      ensures 0 <= best && best != prefer ==>
                forall d :: 0 <= d < |disks| && i !in disks[d] ==> used[best] <= used[d]
    {
      if 0 <= prefer < |disks| && i !in disks[prefer] {
        return prefer;
      }
      best := -1;
      for d := 0 to |disks|
        invariant -1 <= best < d
        invariant best == -1 <==> forall x :: 0 <= x < d ==> i in disks[x]
        invariant 0 <= best ==> i !in disks[best] && forall x :: 0 <= x < d && i !in disks[x] ==> used[best] <= used[x]
      {
        if i !in disks[d] && (best < 0 || used[d] < used[best]) {
          best := d;
        }
      }
    }

    /** Writes one shard extent: a new record, or a repeat of the same payload; any other write
        over a record is fenced off. */
    method WriteShardAt(i: int, d: nat, data: seq<Sym>, io: bool) returns (ok: bool)
      requires Wired() && d < |disks|
      modifies this
      ensures Wired() && |disks| == |old(disks)|
      ensures ok <==> io && (i in old(disks)[d] ==> old(disks)[d][i].data == data)
      ensures disks == if ok && i !in old(disks)[d]
                       then old(disks)[d := old(disks)[d][i := Record(Live, data)]] else old(disks)
      ensures diskOf == if ok then old(diskOf)[i := d] else old(diskOf)
      ensures used == if ok then old(used)[d := old(used)[d] + |data|] else old(used)
    {
      if !io || (i in disks[d] && disks[d][i].data != data) {
        return false;
      }
      if i !in disks[d] {
        disks := disks[d := disks[d][i := Record(Live, data)]];
      }
      used := used[d := used[d] + |data|];
      diskOf := diskOf[i := d];
      ok := true;
    }

    /** Shard i is recorded on the disk its landing names, if that disk had no record of it. */
    ghost predicate Landed(before: seq<map<int, Record>>, landing: seq<nat>, i: int)
      reads this
    {
      0 <= i < |landing| && Clean(before, i, landing[i] % 1000) ==> i in diskOf && diskOf[i] == landing[i] % 1000
    }

    /** One lost shard rebuilt: a new record on a disk that had none of it. */
    method Restore(i: int, prefer: int, data: seq<Sym>, io: bool) returns (ok: bool)
      requires Wired()
      modifies this
      ensures Wired() && Extends(old(disks), disks, i, data)
      ensures ok <==> io && HasRoom(old(disks), i)
      ensures ok ==> OnDisk(i, data)
      ensures ok && Clean(old(disks), i, prefer) ==> diskOf[i] == prefer
      ensures forall x :: x != i ==> (x in diskOf <==> x in old(diskOf)) && (x in diskOf ==> diskOf[x] == old(diskOf)[x])
      ensures forall x, y :: x != i && old(OnDisk(x, y)) ==> OnDisk(x, y)
    {
      var d := CleanDisk(i, prefer);
      if d < 0 {
        return false;
      }
      ok := WriteShardAt(i, d, data, io);
    }

    /** Restores the missing shards one after the other; the landing list names the disk each
        shard was first put on, and stops the repair at the first shard that finds no place. */
    method RestoreAll(c: Code, rebuilt: seq<seq<Sym>>, missing: seq<int>, landing: seq<nat>, io: int -> bool,
                      ghost data: seq<Sym>, ghost n: nat)
      returns (ok: bool)
      requires Valid(c) && Wired() && rebuilt == Shards(c, data, n)
      requires forall i :: i in missing ==> 0 <= i < c.k + c.m
      requires forall i, j :: 0 <= i < j < |missing| ==> missing[i] != missing[j]
      modifies this
      ensures Wired() && Grows(old(disks), disks, c, data, n)
      ensures ok ==> forall i :: i in missing ==> OnDisk(i, rebuilt[i])
      ensures forall x, y :: x !in missing && old(OnDisk(x, y)) ==> OnDisk(x, y)
      ensures ok ==> forall i :: i in missing ==> Landed(old(disks), landing, i)
      ensures ok <==> forall i :: i in missing ==> io(i) && HasRoom(old(disks), i)
    {
      hide Valid, OnDisk, Grows, Extends, HasRoom, Clean;
      GrowsNone(disks, c, data, n);
      for x := 0 to |missing|
        invariant Wired() && Grows(old(disks), disks, c, data, n)
        invariant forall j :: 0 <= j < x ==> missing[j] in missing && OnDisk(missing[j], rebuilt[missing[j]])
        invariant forall j :: 0 <= j < x ==> Landed(old(disks), landing, missing[j])
        invariant forall j, d :: x <= j < |missing| ==> Clean(disks, missing[j], d) == Clean(old(disks), missing[j], d)
        invariant forall i, y :: i !in missing && old(OnDisk(i, y)) ==> OnDisk(i, y)
        invariant forall j :: 0 <= j < x ==> io(missing[j]) && HasRoom(old(disks), missing[j])
        invariant forall j :: x <= j < |missing| ==> HasRoom(disks, missing[j]) == HasRoom(old(disks), missing[j])
      {
        var idx := missing[x];
        assert idx in missing;
        var prefer := if idx < |landing| then landing[idx] % 1000 else -1;
        ghost var before := disks;
        ok := Restore(idx, prefer, rebuilt[idx], io(idx));
        GrowsMore(old(disks), before, disks, c, data, n, idx);
        RoomStays(before, disks, missing, x, rebuilt[idx]);
        if !ok {
          return;
        }
      }
      ok := true;
    }

    /** Rebuilds every lost shard of a stripe, whatever length is claimed.  No record is
        overwritten, whether the repair succeeds or stops part way; on success all shards read
        back as the original encoding.  It succeeds exactly when every shard can be read or is
        absent, at most m are absent, and each absent one finds a disk without a record of it
        and a write that goes through; it lands on the disk the landing list names, if that one
        has no record of it. */
    method Repair(c: Code, originalLen: int, landing: seq<nat>, io: int -> bool, ghost data: seq<Sym>, ghost n: nat)
      returns (r: Result<nat>)
      requires Valid(c) && 0 < n && Wired() && Holds(c, data, n)
      modifies this
      ensures Wired() && Grows(old(disks), disks, c, data, n)
      ensures r.Ok? ==> forall i :: 0 <= i < c.k + c.m ==> Reads(i) == Found(Shard(c, data, n, i))
      ensures forall i :: old(Reads(i)).Found? ==> Reads(i) == old(Reads(i))
      ensures r.Ok? ==> r.value == |old(Lost(c))|
      ensures r.Ok? ==> forall i :: i in old(Lost(c)) ==> Landed(old(disks), landing, i)
      ensures r.Ok? <==>
                && (forall i :: 0 <= i < c.k + c.m ==> !old(Reads(i)).Broken?)
                && |old(Lost(c))| <= c.m
                && (forall i :: i in old(Lost(c)) ==> io(i) && HasRoom(old(disks), i))
    {
      hide Valid, Comes, Present, Lost, Holds, MaxLen, Absent;
      var read, missing := Survey(c, data, n);
      GrowsNone(disks, c, data, n);
      if read.Err? {
        return Err;
      }
      if |missing| == 0 {
        return Ok(0);
      }
      var rebuilt := RebuildStripeFrom(c, read.value, originalLen, data, n);
      if rebuilt.Err? {
        return Err;
      }
      var ok := RestoreAll(c, rebuilt.value, missing, landing, io, data, n);
      forall i | old(Reads(i)).Found? ensures Reads(i) == old(Reads(i)) {
        OnDiskReads(i, old(Reads(i)).data);
      }
      if !ok {
        return Err;
      }
      AllOnDisk(c, data, n, missing);
      r := Ok(|missing|);
    }

    lemma OnDiskReads(i: int, data: seq<Sym>)
      requires Wired() && OnDisk(i, data)
      ensures Reads(i) == Found(data)
    {
    }

    lemma AllOnDisk(c: Code, data: seq<Sym>, n: nat, missing: seq<int>)
      requires Valid(c) && Wired()
      requires forall i :: i in missing && 0 <= i < c.k + c.m ==> OnDisk(i, Shard(c, data, n, i))
      requires forall i :: i !in missing && 0 <= i < c.k + c.m ==> OnDisk(i, Shard(c, data, n, i))
      ensures forall i :: 0 <= i < c.k + c.m ==> Reads(i) == Found(Shard(c, data, n, i))
    {
      forall i | 0 <= i < c.k + c.m ensures Reads(i) == Found(Shard(c, data, n, i)) {
        assert OnDisk(i, Shard(c, data, n, i));
      }
    }

    lemma FoundInRange(c: Code, data: seq<Sym>, n: nat)
      requires Valid(c) && Wired() && Holds(c, data, n)
      ensures forall i :: Reads(i).Found? ==> 0 <= i < c.k + c.m
    {
      forall i | Reads(i).Found? ensures 0 <= i < c.k + c.m {
        var d := Located(i);
        assert IsShard(disks[d][i], c, data, n, i);
      }
    }

    /** Reads the stripe: what is there is the stripe's own, the rest is lost. */
    method Survey(c: Code, ghost data: seq<Sym>, ghost n: nat)
      returns (r: Result<seq<Option<seq<Sym>>>>, missing: seq<int>)
      requires Valid(c) && Wired() && Holds(c, data, n)
      modifies this`diskOf
      ensures Wired() && forall i :: Reads(i) == old(Reads(i))
      ensures r.Err? <==> exists i :: 0 <= i < c.k + c.m && old(Reads(i)).Broken?
      ensures r.Ok? ==>
                && Comes(c, data, n, r.value, 0, n)
                && (forall i :: i in missing <==> i in old(Lost(c)))
                && (forall i :: i in missing ==> 0 <= i < c.k + c.m)
                && (forall i, j :: 0 <= i < j < |missing| ==> missing[i] != missing[j])
                && |missing| == |old(Lost(c))| && |Present(r.value)| == c.k + c.m - |missing|
                && (forall i :: 0 <= i < c.k + c.m && i !in missing ==> OnDisk(i, Shard(c, data, n, i)))
                && (forall i :: old(Reads(i)).Found? ==> i !in missing && OnDisk(i, old(Reads(i)).data))
    {
      hide Valid;
      FoundInRange(c, data, n);
      r, missing := ReadAll(c.k + c.m);
      if r.Ok? {
        forall i | old(Reads(i)).Found? ensures i !in missing && OnDisk(i, old(Reads(i)).data) {
          assert r.value[i] == Some(old(Reads(i)).data);
        }
        LostCount(c, r.value, missing, old(Lost(c)));
        FoundComes(c, data, n, r.value);
      }
    }

    /** The shards that do not read back. */
    ghost function Lost(c: Code): set<int>
      requires Wired()
      reads this
    {
      set i: int | 0 <= i < c.k + c.m && Reads(i).NotFound?
    }
  }

  /** Disk d is there and has no record of shard i. */
  ghost predicate Clean(disks: seq<map<int, Record>>, i: int, d: int) { 0 <= d < |disks| && i !in disks[d] }

  /** Some disk has no record of shard i. */
  ghost predicate HasRoom(disks: seq<map<int, Record>>, i: int) {
    exists d :: 0 <= d < |disks| && i !in disks[d]
  }

  lemma GrowsNone(disks: seq<map<int, Record>>, c: Code, data: seq<Sym>, n: nat)
    requires Valid(c)
    ensures Grows(disks, disks, c, data, n)
  {
  }

  lemma GrowsMore(first: seq<map<int, Record>>, before: seq<map<int, Record>>, after: seq<map<int, Record>>, c: Code,
                  data: seq<Sym>, n: nat, i: int)
    requires Valid(c) && 0 <= i < c.k + c.m
    requires Grows(first, before, c, data, n) && Extends(before, after, i, Shard(c, data, n, i))
    ensures Grows(first, after, c, data, n)
  {
    hide Valid;
    forall d, x | 0 <= d < |first| && x in first[d] ensures x in after[d] && after[d][x] == first[d][x] {
      assert x in before[d];
    }
    forall d, x | 0 <= d < |after| && x in after[d] && x !in first[d] ensures IsShard(after[d][x], c, data, n, x) {
      if x in before[d] {
        assert IsShard(before[d][x], c, data, n, x);
      }
    }
  }

  lemma RoomStays(before: seq<map<int, Record>>, after: seq<map<int, Record>>, missing: seq<int>, x: nat,
                  data: seq<Sym>)
    requires x < |missing| && Extends(before, after, missing[x], data)
    requires forall i, j :: 0 <= i < j < |missing| ==> missing[i] != missing[j]
    ensures forall j :: x < j < |missing| ==> HasRoom(after, missing[j]) == HasRoom(before, missing[j])
    ensures forall j, d :: x < j < |missing| ==> Clean(after, missing[j], d) == Clean(before, missing[j], d)
  {
    forall j | x < j < |missing|
      ensures HasRoom(after, missing[j]) == HasRoom(before, missing[j])
      ensures forall d :: Clean(after, missing[j], d) == Clean(before, missing[j], d)
    {
      var i := missing[j];
      assert forall d :: 0 <= d < |before| ==> (i in after[d] <==> i in before[d]);
    }
  }

  /** Shards that read back from a stripe are its shards. */
  lemma FoundComes(c: Code, data: seq<Sym>, n: nat, shards: seq<Option<seq<Sym>>>)
    requires Valid(c) && |shards| == c.k + c.m
    requires forall i :: 0 <= i < |shards| && shards[i].Some? ==> shards[i].value == Shard(c, data, n, i)
    ensures Comes(c, data, n, shards, 0, n)
  {
    forall i | 0 <= i < c.k + c.m ensures Shard(c, data, n, i)[0..n] == Shard(c, data, n, i) {
    }
  }

  lemma {:induction false} DistinctCount(s: seq<int>, members: set<int>)
    requires forall i, j :: 0 <= i < j < |s| ==> s[i] != s[j]
    requires forall i :: i in s <==> i in members
    ensures |members| == |s|
  {
    if s == [] {
      assert forall i :: i in members ==> i in s;
      assert members == {};
    } else {
      var n := |s| - 1;
      assert forall i :: i in s[..n] <==> i in members - {s[n]};
      DistinctCount(s[..n], members - {s[n]});
    }
  }

  /** The shards that read back and the lost ones make up the stripe. */
  lemma LostCount(c: Code, shards: seq<Option<seq<Sym>>>, missing: seq<int>, lost: set<int>)
    requires |shards| == c.k + c.m && Absent(shards, missing) && forall i :: i in missing <==> i in lost
    ensures |lost| == |missing| && |Present(shards)| == c.k + c.m - |missing|
  {
    DistinctCount(missing, lost);
    assert Present(shards) + lost == Upto(c.k + c.m);
    assert Present(shards) !! lost;
  }

  /** Only records of shard i with this payload were added. */
  ghost predicate Extends(before: seq<map<int, Record>>, after: seq<map<int, Record>>, i: int, data: seq<Sym>) {
    && |after| == |before|
    && (forall d, x :: 0 <= d < |before| && x in before[d] ==> x in after[d] && after[d][x] == before[d][x])
    && (forall d, x :: 0 <= d < |after| && x in after[d] && x !in before[d] ==>
          x == i && after[d][x] == Record(Live, data))
  }

  /** No record changed or went away, and every new one is a shard of the stripe. */
  ghost predicate Grows(before: seq<map<int, Record>>, after: seq<map<int, Record>>, c: Code, data: seq<Sym>, n: nat)
    requires Valid(c)
  {
    && |after| == |before|
    && (forall d, x :: 0 <= d < |before| && x in before[d] ==> x in after[d] && after[d][x] == before[d][x])
    && (forall d, x :: 0 <= d < |after| && x in after[d] && x !in before[d] ==> IsShard(after[d][x], c, data, n, x))
  }

  /** A live record of shard x of the stripe. */
  ghost predicate IsShard(r: Record, c: Code, data: seq<Sym>, n: nat, x: int)
    requires Valid(c)
  {
    0 <= x < c.k + c.m && r == Record(Live, Shard(c, data, n, x))
  }

  /** The first disk from x on that has a record of shard i, or -1. */
  function Probe(disks: seq<map<int, Record>>, i: int, x: nat): (d: int)
    requires x <= |disks|
    ensures -1 <= d < |disks| && (0 <= d ==> i in disks[d])
    decreases |disks| - x
  {
    if x == |disks| then -1 else if i in disks[x] then x else Probe(disks, i, x + 1)
  }
}
