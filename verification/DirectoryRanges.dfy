/**
 Range partitioning of one directory: an ordered list of name ranges, each owned by a shard,
 that SplitRange refines and Lookup searches.
 */
module DirectoryRanges {
  import opened Bytes
  import opened Lex

  /** Names from `start` up to but not including `end`; "" is unbounded on either side. */
  datatype Range = Range(start: string, end: string, shard: nat)

  datatype DirectoryMap = DirectoryMap(version: nat, ranges: seq<Range>, partitioned: bool)

  predicate Owns(r: Range, name: string) {
    (r.start == "" || AtMost(r.start, name)) && (r.end == "" || Less(name, r.end))
  }

  /** How many entries of the list own a name. */
  function Owners(ranges: seq<Range>, name: string): nat {
    if ranges == [] then 0 else (if Owns(ranges[0], name) then 1 else 0) + Owners(ranges[1..], name)
  }

  ghost predicate Exact(ranges: seq<Range>) { forall name :: Owners(ranges, name) == 1 }

  /** Sorted, non-empty ranges that meet end to start and cover everything. */
  ghost predicate Partition(ranges: seq<Range>) {
    && ranges != [] && ranges[0].start == "" && ranges[|ranges| - 1].end == ""
    && (forall i :: 0 <= i < |ranges| - 1 ==>
          ranges[i].end == ranges[i + 1].start && Less(ranges[i].start, ranges[i].end))
  }

  lemma {:induction false} OwnersConcat(a: seq<Range>, b: seq<Range>, name: string)
    ensures Owners(a + b, name) == Owners(a, name) + Owners(b, name)
  {
    if a == [] {
      assert a + b == b;
    } else {
      assert (a + b)[1..] == a[1..] + b;
      OwnersConcat(a[1..], b, name);
    }
  }

  // ---------- a partition owns every name once ----------

  /** The ranges from position i on own exactly the names from their start on. */
  lemma {:induction false} TailOwners(ranges: seq<Range>, i: nat, name: string)
    requires Partition(ranges) && i < |ranges|
    ensures Owners(ranges[i..], name) == if ranges[i].start == "" || AtMost(ranges[i].start, name) then 1 else 0
    decreases |ranges| - i
  {
    var r := ranges[i];
    assert ranges[i..][0] == r && ranges[i..][1..] == ranges[i + 1..];
    if i + 1 < |ranges| {
      TailOwners(ranges, i + 1, name);
      assert r.end == ranges[i + 1].start && Less(r.start, r.end);
      NotLess(name, r.end);
      if AtMost(r.end, name) {
        AtMostAfter(r.start, r.end, name);
      }
    } else {
      assert ranges[i + 1..] == [];
    }
  }

  lemma AtMostAfter(a: string, b: string, c: string)
    requires Less(a, b) && AtMost(b, c)
    ensures AtMost(a, c) && Less(a, c)
  {
    if b != c {
      Transitive(a, b, c);
    }
  }

  lemma PartitionExact(ranges: seq<Range>)
    requires Partition(ranges)
    ensures Exact(ranges)
  {
    forall name ensures Owners(ranges, name) == 1 {
      TailOwners(ranges, 0, name);
      assert ranges[0..] == ranges;
    }
  }

  // ---------- splitting ----------

  /** sort.Slice by start, as a stable insertion sort. */
  function Sort(ranges: seq<Range>): seq<Range> {
    if ranges == [] then [] else Insert(ranges[0], Sort(ranges[1..]))
  }

  function Insert(r: Range, sorted: seq<Range>): seq<Range> {
    if sorted == [] || !Less(sorted[0].start, r.start) then [r] + sorted else [sorted[0]] + Insert(r, sorted[1..])
  }

  lemma {:induction false} InsertOwners(r: Range, sorted: seq<Range>, name: string)
    ensures Owners(Insert(r, sorted), name) == (if Owns(r, name) then 1 else 0) + Owners(sorted, name)
  {
    if sorted == [] || !Less(sorted[0].start, r.start) {
      assert ([r] + sorted)[1..] == sorted;
    } else {
      InsertOwners(r, sorted[1..], name);
      assert ([sorted[0]] + Insert(r, sorted[1..]))[1..] == Insert(r, sorted[1..]);
    }
  }

  lemma {:induction false} SortOwners(ranges: seq<Range>, name: string)
    ensures Owners(Sort(ranges), name) == Owners(ranges, name)
  {
    if ranges != [] {
      SortOwners(ranges[1..], name);
      InsertOwners(ranges[0], Sort(ranges[1..]), name);
    }
  }

  lemma {:induction false} SortedStays(ranges: seq<Range>)
    requires forall i :: 0 <= i < |ranges| - 1 ==> Less(ranges[i].start, ranges[i + 1].start)
    ensures Sort(ranges) == ranges
  {
    if ranges != [] {
      SortedStays(ranges[1..]);
      if |ranges| > 1 {
        assert Less(ranges[0].start, ranges[1].start);
        NotLess(ranges[1].start, ranges[0].start);
      }
      assert ranges == [ranges[0]] + ranges[1..];
    }
  }

  function Left(r: Range, split: string): Range { Range(r.start, split, r.shard) }

  function Right(r: Range, split: string, shard: nat): Range { Range(split, r.end, shard) }

  /** The list with range i replaced by its two halves, before sorting. */
  function Spliced(ranges: seq<Range>, i: nat, split: string, shard: nat): (r: seq<Range>)
    requires i < |ranges|
    ensures |r| == |ranges| + 1 && r[i] == Left(ranges[i], split) && r[i + 1] == Right(ranges[i], split, shard)
    ensures forall j :: 0 <= j < i ==> r[j] == ranges[j]
    ensures forall j :: i + 1 < j < |r| ==> r[j] == ranges[j - 1]
  {
    ranges[..i] + [Left(ranges[i], split), Right(ranges[i], split, shard)] + ranges[i + 1..]
  }

  /** The split point is strictly inside the range. */
  predicate Inside(r: Range, split: string) { Less(r.start, split) && (r.end == "" || Less(split, r.end)) }

  /** Strictly inside, or on one of the range's own bounds. */
  predicate Within(r: Range, split: string) {
    split != "" && AtMost(r.start, split) && (r.end == "" || AtMost(split, r.end))
  }

  /** Splitting strictly inside a range keeps the partition, already in order. */
  lemma SplitPartition(ranges: seq<Range>, i: nat, split: string, shard: nat)
    requires Partition(ranges) && i < |ranges| && Inside(ranges[i], split)
    ensures Partition(Spliced(ranges, i, split, shard))
    ensures Sort(Spliced(ranges, i, split, shard)) == Spliced(ranges, i, split, shard)
  {
    var after := Spliced(ranges, i, split, shard);
    forall j | 0 <= j < |after| - 1 ensures after[j].end == after[j + 1].start && Less(after[j].start, after[j].end) {
      if j < i {
        assert ranges[j].end == ranges[j + 1].start;
      } else if j > i {
        assert j == i + 1 ==> ranges[i].end == ranges[i + 1].start;
        assert ranges[j - 1].end == ranges[j].start;
      }
    }
    SortedStays(after);
  }

  lemma SplicedOwners(ranges: seq<Range>, i: nat, split: string, shard: nat, name: string)
    requires i < |ranges|
    ensures Owners(Sort(Spliced(ranges, i, split, shard)), name) + Owners([ranges[i]], name) ==
            Owners(ranges, name) + Owners([Left(ranges[i], split)], name) + Owners([Right(ranges[i], split, shard)], name)
  {
    hide Owners, Sort, Owns;
    var l, r := Left(ranges[i], split), Right(ranges[i], split, shard);
    SortOwners(Spliced(ranges, i, split, shard), name);
    assert ranges == ranges[..i] + ([ranges[i]] + ranges[i + 1..]);
    assert Spliced(ranges, i, split, shard) == ranges[..i] + ([l] + ([r] + ranges[i + 1..]));
    OwnersConcat(ranges[..i], [ranges[i]] + ranges[i + 1..], name);
    OwnersConcat([ranges[i]], ranges[i + 1..], name);
    OwnersConcat(ranges[..i], [l] + ([r] + ranges[i + 1..]), name);
    OwnersConcat([l], [r] + ranges[i + 1..], name);
    OwnersConcat([r], ranges[i + 1..], name);
  }

  predicate Holds(r: Range) { r.end == "" || Less(r.start, r.end) }

  function One(r: Range, name: string): nat { if Owns(r, name) then 1 else 0 }

  lemma OneOwner(r: Range, name: string)
    ensures Owners([r], name) == One(r, name)
  {
    assert [r][1..] == [];
  }

  /** A split on or between the bounds shares the range's names out exactly. */
  lemma WithinShares(r: Range, split: string, shard: nat, name: string)
    requires Holds(r) && Within(r, split)
    ensures One(Left(r, split), name) + One(Right(r, split, shard), name) == One(r, name)
    ensures Owns(r, name) ==> (Owns(Right(r, split, shard), name) <==> AtMost(split, name))
  {
    NotLess(name, split);
    NotLess(name, r.start);
    if r.end != "" {
      NotLess(name, r.end);
    }
    if Less(name, r.start) && r.start != split {
      Transitive(name, r.start, split);
    }
    if AtMost(split, name) && r.start != split {
      AtMostAfter(r.start, split, name);
    }
    if r.end != "" && AtMost(r.end, name) {
      UpTo(split, r.end, name);
      UpTo(r.start, r.end, name);
    }
    Total(name, split);
  }

  lemma UpTo(a: string, b: string, c: string)
    requires AtMost(a, b) && AtMost(b, c)
    ensures AtMost(a, c)
  {
    if a != b && b != c {
      Transitive(a, b, c);
    }
  }

  /** Any other split gives some name two owners or takes its only one away. */
  lemma OutsideLoses(r: Range, split: string, shard: nat) returns (name: string)
    requires Holds(r) && !Within(r, split)
    ensures One(Left(r, split), name) + One(Right(r, split, shard), name) != One(r, name)
  {
    Irreflexive(r.start);
    Irreflexive(r.end);
    NotLess(split, r.start);
    NotLess(r.end, split);
    if split == "" {
      name := r.start;
    } else if !AtMost(r.start, split) {
      name := split;
      if r.end != "" {
        Transitive(split, r.start, r.end);
      }
      Total(split, r.start);
    } else {
      name := r.end;
    }
  }

  /** After a split every name has exactly one owner if and only if the split point is non-empty
      and lies on or between the bounds of the range. */
  lemma SplitExactIff(ranges: seq<Range>, i: nat, split: string, shard: nat)
    requires Partition(ranges) && i < |ranges|
    ensures Exact(Sort(Spliced(ranges, i, split, shard))) <==> Within(ranges[i], split)
  {
    var r, after := ranges[i], Sort(Spliced(ranges, i, split, shard));
    PartitionExact(ranges);
    assert Holds(r) by {
      assert i < |ranges| - 1 ==> Less(ranges[i].start, ranges[i].end);
    }
    forall name
      ensures Owners(after, name) + One(r, name) == 1 + One(Left(r, split), name) + One(Right(r, split, shard), name)
    {
      SplicedOwners(ranges, i, split, shard, name);
      OneOwner(r, name);
      OneOwner(Left(r, split), name);
      OneOwner(Right(r, split, shard), name);
    }
    if Within(r, split) {
      forall name ensures Owners(after, name) == 1 {
        WithinShares(r, split, shard, name);
      }
    } else {
      var name := OutsideLoses(r, split, shard);
    }
  }

  /** Splitting the whole namespace at the empty name gives every name two owners. */
  lemma EmptySplitShares(name: string)
    ensures Owners(Sort(Spliced([Range("", "", 0)], 0, "", 1)), name) == 2
  {
    var whole := Range("", "", 0);
    SplicedOwners([whole], 0, "", 1, name);
    OneOwner(whole, name);
    OneOwner(Left(whole, ""), name);
    OneOwner(Right(whole, "", 1), name);
  }

  // ---------- lookup ----------

  /** The first range that owns the name, as Lookup searches. */
  function Owner(ranges: seq<Range>, name: string): Option<Range> {
    if ranges == [] then None
    else if Owns(ranges[0], name) then Some(ranges[0])
    else Owner(ranges[1..], name)
  }

  lemma {:induction false} OwnerFound(ranges: seq<Range>, name: string, i: nat)
    requires Owners(ranges, name) == 1 && i < |ranges| && Owns(ranges[i], name)
    ensures Owner(ranges, name) == Some(ranges[i])
  {
    if i > 0 {
      if Owns(ranges[0], name) {
        NoOwner(ranges[1..], name, i - 1);
      } else {
        OwnerFound(ranges[1..], name, i - 1);
      }
    }
  }

  lemma {:induction false} NoOwner(ranges: seq<Range>, name: string, i: nat)
    requires Owners(ranges, name) == 0 && i < |ranges|
    ensures !Owns(ranges[i], name)
  {
    if i > 0 {
      NoOwner(ranges[1..], name, i - 1);
    }
  }

  lemma {:induction false} OwnerExists(ranges: seq<Range>, name: string) returns (i: nat)
    requires Owners(ranges, name) == 1
    ensures i < |ranges| && Owns(ranges[i], name) && Owner(ranges, name) == Some(ranges[i])
  {
    if Owns(ranges[0], name) {
      i := 0;
    } else {
      i := OwnerExists(ranges[1..], name);
      i := i + 1;
    }
  }

  lemma OwnedOnce(ranges: seq<Range>, name: string)
    requires Partition(ranges)
    ensures Owners(ranges, name) == 1 && forall i :: 0 <= i < |ranges| ==> Holds(ranges[i])
  {
    PartitionExact(ranges);
  }

  /** A split moves only the names of the right half to a new owner. */
  lemma SplitMovesRightHalf(ranges: seq<Range>, i: nat, split: string, shard: nat, name: string)
    requires Partition(ranges) && i < |ranges| && Inside(ranges[i], split)
    ensures var before, after := Owner(ranges, name), Owner(Spliced(ranges, i, split, shard), name);
            && before.Some? && after.Some?
            && (if Owns(ranges[i], name) && AtMost(split, name) then after.value == Right(ranges[i], split, shard)
                else after.value.shard == before.value.shard)
  {
    hide Partition, Owners, Owner, Owns, Less, Holds;
    var after := Spliced(ranges, i, split, shard);
    SplitPartition(ranges, i, split, shard);
    OwnedOnce(ranges, name);
    OwnedOnce(after, name);
    var k := OwnerExists(ranges, name);
    if k == i {
      assert Within(ranges[i], split) by { InsideWithin(ranges[i], split); }
      HalfOwns(ranges[i], split, shard, name);
      OwnerFound(after, name, if AtMost(split, name) then i + 1 else i);
    } else {
      OwnerFound(after, name, if k < i then k else k + 1);
      if Owns(ranges[i], name) {
        SameOwner(ranges, name, i, k);
      }
    }
  }

  lemma InsideWithin(r: Range, split: string)
    requires Inside(r, split)
    ensures Within(r, split)
  {
  }

  lemma HalfOwns(r: Range, split: string, shard: nat, name: string)
    requires Holds(r) && Within(r, split) && Owns(r, name)
    ensures if AtMost(split, name) then Owns(Right(r, split, shard), name) else Owns(Left(r, split), name)
  {
    WithinShares(r, split, shard, name);
  }

  /** With one owner, two positions that own a name are the same. */
  lemma {:induction false} SameOwner(ranges: seq<Range>, name: string, i: nat, k: nat)
    requires Owners(ranges, name) == 1 && i < |ranges| && k < |ranges| && Owns(ranges[i], name) && Owns(ranges[k], name)
    ensures i == k
  {
    if Owns(ranges[0], name) {
      if i > 0 {
        NoOwner(ranges[1..], name, i - 1);
      }
      if k > 0 {
        NoOwner(ranges[1..], name, k - 1);
      }
    } else {
      SameOwner(ranges[1..], name, i - 1, k - 1);
    }
  }

  // ---------- whole runs of splits ----------

  datatype Split = Split(at: nat, point: string, shard: nat)

  /** The ranges after a run of splits; one that names no range is refused. */
  function AfterSplits(ranges: seq<Range>, splits: seq<Split>): seq<Range> {
    if splits == [] then ranges
    else
      var before, s := AfterSplits(ranges, splits[..|splits| - 1]), splits[|splits| - 1];
      if s.at < |before| then Sort(Spliced(before, s.at, s.point, s.shard)) else before
  }

  predicate AllInside(ranges: seq<Range>, splits: seq<Split>) {
    splits != [] ==>
      var before, s := AfterSplits(ranges, splits[..|splits| - 1]), splits[|splits| - 1];
      AllInside(ranges, splits[..|splits| - 1]) && (s.at < |before| ==> Inside(before[s.at], s.point))
  }

  /** After any run of splits strictly inside their ranges the list is still a sorted partition. */
  lemma {:induction false} SplitsPartition(ranges: seq<Range>, splits: seq<Split>)
    requires Partition(ranges) && AllInside(ranges, splits)
    ensures Partition(AfterSplits(ranges, splits)) && Exact(AfterSplits(ranges, splits))
  {
    hide Partition, Exact, Sort, Spliced, Inside;
    if splits != [] {
      var n := |splits| - 1;
      var before, s := AfterSplits(ranges, splits[..n]), splits[n];
      SplitsPartition(ranges, splits[..n]);
      if s.at < |before| {
        SplitPartition(before, s.at, s.point, s.shard);
      }
    }
    PartitionExact(AfterSplits(ranges, splits));
  }

  /** The name's shard is the old one, or that of a split at or before the name. */
  ghost predicate Kept(ranges: seq<Range>, splits: seq<Split>, shard: nat, name: string) {
    || Owner(ranges, name) == None
    || shard == Owner(ranges, name).value.shard
    || exists s :: s in splits && s.shard == shard && AtMost(s.point, name)
  }

  /** In a whole run a name changes owner only by falling into the right half of some split. */
  lemma {:induction false} SplitsMove(ranges: seq<Range>, splits: seq<Split>, name: string)
    requires Partition(ranges) && AllInside(ranges, splits)
    ensures var after := Owner(AfterSplits(ranges, splits), name);
            Owner(ranges, name).Some? && after.Some? && Kept(ranges, splits, after.value.shard, name)
  {
    hide Partition, Sort, Spliced, Inside, Owner, Owns, Less;
    Found(ranges, name);
    if splits != [] {
      var n := |splits| - 1;
      var before, s := AfterSplits(ranges, splits[..n]), splits[n];
      SplitsPartition(ranges, splits[..n]);
      SplitsMove(ranges, splits[..n], name);
      assert s in splits && forall t :: t in splits[..n] ==> t in splits;
      if s.at < |before| {
        SplitPartition(before, s.at, s.point, s.shard);
        SplitMovesRightHalf(before, s.at, s.point, s.shard, name);
      }
    }
  }

  lemma Found(ranges: seq<Range>, name: string)
    requires Partition(ranges)
    ensures Owner(ranges, name).Some?
  {
    PartitionExact(ranges);
    var i := OwnerExists(ranges, name);
  }

  class DirectoryPartitionStore {
    var dm: Option<DirectoryMap>

    ghost predicate Valid()
      reads this
    {
      dm.Some? ==> Partition(dm.value.ranges) && dm.value.partitioned
    }

    constructor ()
      ensures Valid() && dm == None
    {
      dm := None;
    }

    /** Splits one range, starting from the whole namespace if there is no map yet; an index out
        of bounds is refused.  Every name keeps exactly one owner if and only if the split point
        is on or between the range's bounds, and strictly inside them it keeps the partition. */
    method SplitRange(i: int, split: string, shards: seq<nat>) returns (ok: bool)
      requires Valid() && shards != []
      modifies this
      ensures ok == (0 <= i < |old(Current(shards))|) && (!ok ==> dm == old(dm))
      ensures ok ==>
                var r := old(Current(shards))[i];
                && dm.Some? && dm.value.version == (if old(dm).None? then 1 else old(dm).value.version) + 1
                && dm.value.ranges == Sort(Spliced(old(Current(shards)), i, split, shards[1 % |shards|]))
                && (Exact(dm.value.ranges) <==> Within(r, split))
                && (Inside(r, split) ==>
                      Valid() && dm.value.ranges == Spliced(old(Current(shards)), i, split, shards[1 % |shards|]))
    {
      var ranges, version := Current(shards), if dm.None? then 1 else dm.value.version;
      if i < 0 || i >= |ranges| {
        return false;
      }
      var shard := shards[1 % |shards|];
      assert Partition(ranges);
      SplitExactIff(ranges, i, split, shard);
      if Inside(ranges[i], split) {
        SplitPartition(ranges, i, split, shard);
      }
      dm := Some(DirectoryMap(version + 1, Sort(Spliced(ranges, i, split, shard)), true));
      ok := true;
    }

    function Current(shards: seq<nat>): seq<Range>
      requires shards != []
      reads this
    {
      if dm.None? then [Range("", "", shards[0])] else dm.value.ranges
    }

    /** The shard that owns a name: the home shard 0 of an unpartitioned directory, else the one
        range that holds the name. */
    method Lookup(name: string) returns (shard: nat, partitioned: bool, found: bool)
      requires Valid()
      ensures dm.None? ==> shard == 0 && !partitioned && found
      ensures dm.Some? ==>
                && partitioned && found
                && var ranges := dm.value.ranges;
                   exists i :: 0 <= i < |ranges| && Owns(ranges[i], name) && shard == ranges[i].shard &&
                     forall k :: 0 <= k < |ranges| && Owns(ranges[k], name) ==> k == i
    {
      if dm.None? {
        return 0, false, true;
      }
      var ranges := dm.value.ranges;
      PartitionExact(ranges);
      ghost var one := OwnerExists(ranges, name);
      shard, partitioned, found := 0, true, false;
      for i := 0 to |ranges|
        invariant forall j :: 0 <= j < i ==> !Owns(ranges[j], name)
      {
        if Owns(ranges[i], name) {
          forall k | 0 <= k < |ranges| && Owns(ranges[k], name) ensures k == i {
            SameOwner(ranges, name, i, k);
          }
          shard, found := ranges[i].shard, true;
          return;
        }
      }
    }
  }
}
