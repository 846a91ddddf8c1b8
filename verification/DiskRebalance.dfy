/**
 RebalanceBalanced on one data node, run on its own: extents move from the fullest to the
 least used healthy disk while they fit strictly inside the gap between the two.
 */
module DiskRebalance {
  import opened Bytes

  const FAILED: nat := 5

  datatype Key = Key(id: int, gen: int)

  datatype Loc = Loc(disk: nat, gen: int)

  /** One live extent as a store lists it: the highest generation of a chunk. */
  datatype Entry = Entry(id: int, gen: int, len: nat)

  type Store = map<Key, seq<Byte>>

  function Sum(s: seq<int>): int {
    if s == [] then 0 else Sum(s[..|s| - 1]) + s[|s| - 1]
  }

  function SumSquares(s: seq<int>): int {
    if s == [] then 0 else SumSquares(s[..|s| - 1]) + s[|s| - 1] * s[|s| - 1]
  }

  lemma {:induction false} SumUpdate(s: seq<int>, i: nat, x: int)
    requires i < |s|
    ensures Sum(s[i := x]) == Sum(s) - s[i] + x
    ensures SumSquares(s[i := x]) == SumSquares(s) - s[i] * s[i] + x * x
  {
    var n := |s| - 1;
    if i == n {
      assert s[i := x][..n] == s[..n];
    } else {
      assert s[i := x][..n] == s[..n][i := x];
      SumUpdate(s[..n], i, x);
    }
  }

  /** Usage after `n` bytes move from disk i to disk j. */
  function Shifted(used: seq<int>, i: nat, j: nat, n: int): seq<int>
    requires i < |used| && j < |used|
  {
    used[i := used[i] - n][j := used[i := used[i] - n][j] + n]
  }

  /** Moving n bytes inside the gap keeps the total, stays inside the old range, and lowers the
      sum of squares unless n is zero. */
  lemma ShiftedIs(used: seq<int>, i: nat, j: nat, n: nat)
    requires i < |used| && j < |used| && i != j && n < used[i] - used[j]
    ensures var after := Shifted(used, i, j, n);
            && |after| == |used| && after[i] == used[i] - n && after[j] == used[j] + n
            && (forall d :: 0 <= d < |used| && d != i && d != j ==> after[d] == used[d])
            && Sum(after) == Sum(used)
            && used[j] < after[i] <= used[i] && used[j] <= after[j] < used[i]
            && SumSquares(after) <= SumSquares(used)
            && (0 < n ==> SumSquares(after) < SumSquares(used))
  {
    var mid := used[i := used[i] - n];
    SumUpdate(used, i, used[i] - n);
    SumUpdate(mid, j, mid[j] + n);
    SquaresDrop(used[i], used[j], n);
  }

  lemma SquaresDrop(s: int, d: int, n: nat)
    requires n < s - d
    ensures (s - n) * (s - n) + (d + n) * (d + n) <= s * s + d * d
    ensures 0 < n ==> (s - n) * (s - n) + (d + n) * (d + n) < s * s + d * d
  {
    assert (s - n) * (s - n) + (d + n) * (d + n) == s * s + d * d - 2 * n * (s - d - n);
    if 0 < n {
      assert n * (s - d - n) >= 1;
    }
  }

  /** e is the live extent of its chunk: the highest generation the store holds. */
  ghost predicate LiveIn(store: Store, e: Entry) {
    && Key(e.id, e.gen) in store && e.len == |store[Key(e.id, e.gen)]|
    && forall k :: k in store && k.id == e.id ==> k.gen <= e.gen
  }

  /** The live extents, one per chunk. */
  ghost predicate Lists(entries: seq<Entry>, store: Store) {
    && (forall e :: e in entries <==> LiveIn(store, e))
    && (forall i, j :: 0 <= i < j < |entries| ==> entries[i].id != entries[j].id)
  }

  ghost function IdsIn(store: Store): set<int> { set k | k in store :: k.id }

  lemma HasKey(s: set<Key>)
    ensures s == {} || exists k :: k in s
  {
    if forall k :: k !in s {
      assert s == {};
    }
  }

  /** The live extents of a store. */
  method ListExtents(store: Store) returns (entries: seq<Entry>)
    ensures Lists(entries, store) && |entries| == |IdsIn(store)|
  {
    entries := [];
    var rest := store.Keys;
    while rest != {}
      invariant rest <= store.Keys
      invariant forall e :: e in entries <==> LiveIn(store, e) && Key(e.id, e.gen) !in rest
      invariant forall i, j :: 0 <= i < j < |entries| ==> entries[i].id != entries[j].id
      decreases |rest|
    {
      HasKey(rest);
      var key: Key :| key in rest;
      if forall k :: k in store && k.id == key.id ==> k.gen <= key.gen {
        var entry := Entry(key.id, key.gen, |store[key]|);
        assert LiveIn(store, entry);
        forall i | 0 <= i < |entries| ensures entries[i].id != key.id {
          assert LiveIn(store, entries[i]);
        }
        entries := entries + [entry];
      }
      rest := rest - {key};
    }
    ListedIds(entries, store);
  }

  /** Every chunk of a store has a live extent in it. */
  lemma NewestOf(store: Store, key: Key) returns (e: Entry)
    requires key in store
    ensures LiveIn(store, e) && e.id == key.id
  {
    var top, rest := key, store.Keys;
    while rest != {}
      invariant rest <= store.Keys && top in store && top.id == key.id
      invariant forall k :: k in store && k !in rest && k.id == key.id ==> k.gen <= top.gen
      decreases |rest|
    {
      HasKey(rest);
      var k: Key :| k in rest;
      if k.id == key.id && k.gen > top.gen {
        top := k;
      }
      rest := rest - {k};
    }
    e := Entry(top.id, top.gen, |store[top]|);
  }

  lemma {:induction false} DistinctIds(entries: seq<Entry>)
    requires forall i, j :: 0 <= i < j < |entries| ==> entries[i].id != entries[j].id
    ensures |set e | e in entries :: e.id| == |entries|
  {
    if entries != [] {
      var init, last := entries[..|entries| - 1], entries[|entries| - 1];
      DistinctIds(init);
      forall e | e in init ensures e.id != last.id {
        var i :| 0 <= i < |init| && init[i] == e;
      }
      assert (set e | e in entries :: e.id) == (set e | e in init :: e.id) + {last.id};
    }
  }

  lemma ListedIds(entries: seq<Entry>, store: Store)
    requires Lists(entries, store)
    ensures |entries| == |IdsIn(store)|
  {
    DistinctIds(entries);
    forall id | id in IdsIn(store) ensures id in set e | e in entries :: e.id {
      var k :| k in store && k.id == id;
      var e := NewestOf(store, k);
      assert e in entries;
    }
    forall e | e in entries ensures e.id in IdsIn(store) {
      assert Key(e.id, e.gen) in store;
    }
    assert (set e | e in entries :: e.id) == IdsIn(store);
  }

  /** A live extent that may still be moved and fits strictly inside a gap. */
  ghost predicate Fits(store: Store, e: Entry, excluded: set<int>, gap: int) {
    LiveIn(store, e) && e.gen != 0 && e.id !in excluded && e.len < gap
  }

  ghost predicate NothingFits(store: Store, excluded: set<int>, gap: int) {
    forall e :: !Fits(store, e, excluded, gap)
  }

  lemma LessFits(store: Store, excluded: set<int>, more: set<int>, gap: int)
    requires NothingFits(store, excluded, gap) && excluded <= more
    ensures NothingFits(store, more, gap)
  {
    hide LiveIn;
    forall e ensures !Fits(store, e, more, gap) {
      assert !Fits(store, e, excluded, gap);
    }
  }

  /** Two disks hold a copy of the chunk, so one of the copies is not the located one. */
  ghost predicate OnTwo(stores: seq<Store>, id: int) {
    exists d, e :: 0 <= d < e < |stores| && id in IdsIn(stores[d]) && id in IdsIn(stores[e])
  }

  ghost function Doubled(stores: seq<Store>): set<int> {
    set d, k | 0 <= d < |stores| && k in stores[d] && OnTwo(stores, k.id) :: k.id
  }

  lemma DoubledIs(stores: seq<Store>, id: int)
    requires OnTwo(stores, id)
    ensures id in Doubled(stores)
  {
    var d, e :| 0 <= d < e < |stores| && id in IdsIn(stores[d]) && id in IdsIn(stores[e]);
    var k :| k in stores[d] && k.id == id;
    assert 0 <= d < |stores| && k in stores[d] && OnTwo(stores, k.id);
  }

  /** No disk lost an extent. */
  ghost predicate Keeps(before: seq<Store>, after: seq<Store>) {
    |before| == |after| && forall d :: 0 <= d < |before| ==> before[d].Keys <= after[d].Keys
  }

  lemma OnTwoKept(before: seq<Store>, after: seq<Store>, id: int)
    requires Keeps(before, after) && OnTwo(before, id)
    ensures OnTwo(after, id)
  {
    var d, e :| 0 <= d < e < |before| && id in IdsIn(before[d]) && id in IdsIn(before[e]);
    var k :| k in before[d] && k.id == id;
    var l :| l in before[e] && l.id == id;
    assert k in before[d].Keys && l in before[e].Keys;
    assert k in after[d] && l in after[e];
    assert id in IdsIn(after[d]) && id in IdsIn(after[e]);
  }

  /** The number of live extents on all disks. */
  ghost function Extents(stores: seq<Store>): nat {
    if stores == [] then 0 else Extents(stores[..|stores| - 1]) + |IdsIn(stores[|stores| - 1])|
  }

  /** Every located extent is stored, no store holds a later generation of it, and copies of one
      generation agree. */
  ghost predicate Placed(stores: seq<Store>, locOf: map<int, Loc>) {
    && (forall id :: id in locOf ==> locOf[id].disk < |stores| && Key(id, locOf[id].gen) in stores[locOf[id].disk])
    && (forall d, k :: 0 <= d < |stores| && k in stores[d] ==> k.id in locOf && k.gen <= locOf[k.id].gen)
    && (forall d, e, k :: 0 <= d < |stores| && 0 <= e < |stores| && k in stores[d] && k in stores[e] ==>
          stores[d][k] == stores[e][k])
  }

  ghost function PayloadIn(stores: seq<Store>, locOf: map<int, Loc>, id: int): seq<Byte>
    requires Placed(stores, locOf) && id in locOf
  {
    stores[locOf[id].disk][Key(id, locOf[id].gen)]
  }

  lemma PlacedAt(stores: seq<Store>, locOf: map<int, Loc>, id: int)
    requires Placed(stores, locOf)
    ensures id in locOf ==>
              && locOf[id].disk < |stores| && Key(id, locOf[id].gen) in stores[locOf[id].disk]
              && PayloadIn(stores, locOf, id) == stores[locOf[id].disk][Key(id, locOf[id].gen)]
              && (forall d, k :: 0 <= d < |stores| && k in stores[d] && k.id == id ==> k.gen <= locOf[id].gen)
              && forall d :: 0 <= d < |stores| && Key(id, locOf[id].gen) in stores[d] ==>
                   stores[d][Key(id, locOf[id].gen)] == PayloadIn(stores, locOf, id)
  {
  }

  /** A copy of a located extent on another disk, and the location re-pointed to it. */
  lemma MovePlaced(stores: seq<Store>, locOf: map<int, Loc>, id: int, to: nat, stores': seq<Store>,
                   locOf': map<int, Loc>)
    requires Placed(stores, locOf) && id in locOf && to < |stores|
    requires var key := Key(id, locOf[id].gen);
             && stores' == stores[to := stores[to][key := PayloadIn(stores, locOf, id)]]
             && locOf' == locOf[id := Loc(to, key.gen)]
    ensures Placed(stores', locOf')
    ensures forall x :: x in locOf ==> PayloadIn(stores', locOf', x) == PayloadIn(stores, locOf, x)
    ensures Keeps(stores, stores')
  {
    hide Copied;
    var key, data := Key(id, locOf[id].gen), PayloadIn(stores, locOf, id);
    CopyIs(stores, locOf, id, to, stores');
    CopyAgrees(stores, locOf, to, key, data, stores');
    CopyLocated(stores, locOf, id, to, data, stores', locOf');
  }

  /** One more copy of an extent, with the payload every other copy has. */
  ghost predicate Copied(stores: seq<Store>, to: nat, key: Key, data: seq<Byte>, stores': seq<Store>) {
    |stores'| == |stores| && forall d, k :: 0 <= d < |stores| ==>
      && (k in stores'[d] <==> k in stores[d] || (d == to && k == key))
      && (k in stores'[d] ==> stores'[d][k] == if k == key then data else stores[d][k])
  }

  lemma CopyIs(stores: seq<Store>, locOf: map<int, Loc>, id: int, to: nat, stores': seq<Store>)
    requires Placed(stores, locOf) && id in locOf && to < |stores|
    requires stores' == stores[to := stores[to][Key(id, locOf[id].gen) := PayloadIn(stores, locOf, id)]]
    ensures Copied(stores, to, Key(id, locOf[id].gen), PayloadIn(stores, locOf, id), stores')
    ensures Keeps(stores, stores')
  {
  }

  ghost predicate Agree(stores: seq<Store>) {
    forall d, e, k :: 0 <= d < |stores| && 0 <= e < |stores| && k in stores[d] && k in stores[e] ==>
      stores[d][k] == stores[e][k]
  }

  lemma CopyAgrees(stores: seq<Store>, locOf: map<int, Loc>, to: nat, key: Key, data: seq<Byte>, stores': seq<Store>)
    requires Placed(stores, locOf) && Copied(stores, to, key, data, stores')
    ensures Agree(stores')
  {
    forall d, e, k | 0 <= d < |stores'| && 0 <= e < |stores'| && k in stores'[d] && k in stores'[e]
      ensures stores'[d][k] == stores'[e][k]
    {
      if k != key {
        assert k in stores[d] && k in stores[e];
      }
    }
  }

  /** Where a chunk is located after the copy, its payload is the one it had. */
  lemma CopyAt(stores: seq<Store>, locOf: map<int, Loc>, id: int, to: nat, data: seq<Byte>, stores': seq<Store>, x: int)
    requires Placed(stores, locOf) && id in locOf && to < |stores| && data == PayloadIn(stores, locOf, id)
    requires Copied(stores, to, Key(id, locOf[id].gen), data, stores') && x in locOf
    ensures var at := if x == id then to else locOf[x].disk;
            && at < |stores'| && Key(x, locOf[x].gen) in stores'[at]
            && stores'[at][Key(x, locOf[x].gen)] == PayloadIn(stores, locOf, x)
  {
  }

  lemma CopyKnown(stores: seq<Store>, locOf: map<int, Loc>, id: int, to: nat, data: seq<Byte>, stores': seq<Store>, d: nat,
                  k: Key)
    requires Placed(stores, locOf) && id in locOf && Copied(stores, to, Key(id, locOf[id].gen), data, stores')
    requires d < |stores'| && k in stores'[d]
    ensures k.id in locOf && k.gen <= locOf[k.id].gen
  {
  }

  lemma CopyLocated(stores: seq<Store>, locOf: map<int, Loc>, id: int, to: nat, data: seq<Byte>, stores': seq<Store>,
                    locOf': map<int, Loc>)
    requires Placed(stores, locOf) && id in locOf && to < |stores| && data == PayloadIn(stores, locOf, id)
    requires Copied(stores, to, Key(id, locOf[id].gen), data, stores') && locOf' == locOf[id := Loc(to, locOf[id].gen)]
    requires Agree(stores')
    ensures Placed(stores', locOf')
    ensures forall x :: x in locOf ==> PayloadIn(stores', locOf', x) == PayloadIn(stores, locOf, x)
  {
    hide Placed, Copied, Agree;
    forall x | x in locOf'
      ensures locOf'[x].disk < |stores'| && Key(x, locOf'[x].gen) in stores'[locOf'[x].disk]
      ensures stores'[locOf'[x].disk][Key(x, locOf'[x].gen)] == PayloadIn(stores, locOf, x)
    {
      CopyAt(stores, locOf, id, to, data, stores', x);
    }
    forall d, k | 0 <= d < |stores'| && k in stores'[d] ensures k.id in locOf' && k.gen <= locOf'[k.id].gen {
      CopyKnown(stores, locOf, id, to, data, stores', d, k);
    }
    PlacedBy(stores', locOf');
  }

  lemma PlacedBy(stores: seq<Store>, locOf: map<int, Loc>)
    requires forall id :: id in locOf ==> locOf[id].disk < |stores| && Key(id, locOf[id].gen) in stores[locOf[id].disk]
    requires forall d, k :: 0 <= d < |stores| && k in stores[d] ==> k.id in locOf && k.gen <= locOf[k.id].gen
    requires Agree(stores)
    ensures Placed(stores, locOf)
  {
  }

  /** A new generation on the chunk's own disk, or the first generation of a new chunk. */
  lemma WritePlaced(stores: seq<Store>, locOf: map<int, Loc>, id: int, at: Loc, data: seq<Byte>, stores': seq<Store>,
                    locOf': map<int, Loc>)
    requires Placed(stores, locOf) && at.disk < |stores|
    requires id in locOf ==> at == Loc(locOf[id].disk, locOf[id].gen + 1)
    requires stores' == stores[at.disk := stores[at.disk][Key(id, at.gen) := data]] && locOf' == locOf[id := at]
    ensures Placed(stores', locOf') && PayloadIn(stores', locOf', id) == data
    ensures forall x :: x in locOf && x != id ==> PayloadIn(stores', locOf', x) == PayloadIn(stores, locOf, x)
  {
  }

  class V2Store {
    var stores: seq<Store>
    var used: seq<int>
    var fails: seq<nat>
    var locOf: map<int, Loc>

    ghost predicate Valid()
      reads this
    {
      |used| == |stores| == |fails| && Placed(stores, locOf)
    }

    constructor (disks: nat)
      ensures Valid() && |stores| == disks && locOf == map[] && used == seq(disks, _ => 0)
    {
      stores, used, fails := seq(disks, _ => map[]), seq(disks, _ => 0), seq(disks, _ => 0);
      locOf := map[];
    }

    ghost function Payload(id: int): seq<Byte>
      requires Valid() && id in locOf
      reads this
    {
      PayloadIn(stores, locOf, id)
    }

    predicate Healthy(d: nat)
      requires d < |fails|
      reads this
    {
      fails[d] < FAILED
    }

    /** The healthy disk with the fewest used bytes, or -1. */
    method LeastUsedDisk() returns (best: int)
      requires Valid()
      ensures -1 <= best < |used|
      ensures best == -1 <==> forall d: nat :: d < |used| ==> !Healthy(d)
      ensures 0 <= best ==> Healthy(best) && forall d: nat :: d < |used| && Healthy(d) ==> used[best] <= used[d]
    {
      best := -1;
      for d := 0 to |used|
        invariant -1 <= best < d
        invariant best == -1 <==> forall x: nat :: x < d ==> !Healthy(x)
        invariant 0 <= best ==> Healthy(best) && forall x: nat :: x < d && Healthy(x) ==> used[best] <= used[x]
      {
        if Healthy(d) && (best < 0 || used[d] < used[best]) {
          best := d;
        }
      }
    }

    /** A healthy disk with the fewest used bytes. */
    ghost predicate IsLeastUsed(best: nat)
      requires |used| == |stores| == |fails|
      reads this
    {
      best < |used| && Healthy(best) && forall d: nat :: d < |used| && Healthy(d) ==> used[best] <= used[d]
    }

    /** The disk a Write of this chunk goes to: its own, or a least used one for a new chunk. */
    ghost predicate GoesTo(id: int, d: nat)
      requires Valid()
      reads this
    {
      if id in locOf then d == locOf[id].disk && Healthy(d) else IsLeastUsed(d)
    }

    /** Write on its own: the current disk at the next generation, or the least used healthy disk
        at generation 1.  Usage follows the live size.  It succeeds exactly when that disk is
        healthy and the write goes through; a failure counts against the disk, a success
        clears its count. */
    method Write(id: int, data: seq<Byte>, io: bool) returns (ok: bool)
      requires Valid() && 0 < |stores|
      modifies this
      ensures Valid() && (!ok ==> locOf == old(locOf) && stores == old(stores) && used == old(used))
      ensures ok <==> io && exists d: nat :: old(GoesTo(id, d))
      ensures ok ==>
                && id in locOf
                && var d := locOf[id].disk; old(GoesTo(id, d)) && d < |old(fails)| && fails == old(fails)[d := 0]
      ensures !ok && (forall d: nat :: !old(GoesTo(id, d))) ==> fails == old(fails)
      ensures !ok && (exists d: nat :: old(GoesTo(id, d))) ==>
                exists d: nat :: old(GoesTo(id, d)) && d < |old(fails)| && fails == old(fails)[d := old(fails)[d] + 1]
      ensures ok ==>
                && id in locOf && Payload(id) == data && locOf.Keys == old(locOf).Keys + {id}
                && locOf[id].gen == (if id in old(locOf) then old(locOf)[id].gen + 1 else 1)
                && (forall x :: x in old(locOf) && x != id ==> locOf[x] == old(locOf)[x] && Payload(x) == old(Payload(x)))
                && locOf[id].disk < |old(used)|
                && used == old(used)[locOf[id].disk := old(used)[locOf[id].disk] + |data| -
                             (if id in old(locOf) then |old(Payload(id))| else 0)]
    {
      hide Placed;
      PlacedAt(stores, locOf, id);
      var best := LeastUsedDisk();
      var disk, gen := if best < 0 then 0 else best, 1;
      if id in locOf {
        disk, gen := locOf[id].disk, locOf[id].gen + 1;
      }
      if !Healthy(disk) {
        forall d: nat ensures !old(GoesTo(id, d)) {
          assert GoesTo(id, d) == old(GoesTo(id, d));
        }
        return false;
      }
      assert GoesTo(id, disk);
      if !io {
        fails := fails[disk := fails[disk] + 1];
        return false;
      }
      var replaced := if id in locOf then |stores[disk][Key(id, gen - 1)]| else 0;
      var stores', locOf' := stores[disk := stores[disk][Key(id, gen) := data]], locOf[id := Loc(disk, gen)];
      WritePlaced(stores, locOf, id, Loc(disk, gen), data, stores', locOf');
      stores, locOf := stores', locOf';
      fails := fails[disk := 0];
      used := used[disk := used[disk] - replaced + |data|];
      ok := true;
    }

    /** The fullest healthy disk other than dst whose gap to it is above the threshold, or -1. */
    method FullestDisk(dst: nat, threshold: int) returns (src: int)
      requires Valid() && dst < |used|
      ensures -1 <= src < |used|
      ensures 0 <= src ==>
                && src != dst && Healthy(src) && used[src] - used[dst] > threshold
                && forall d: nat :: d < |used| && d != dst && Healthy(d) ==> used[d] <= used[src]
      ensures src == -1 ==> forall d: nat :: d < |used| && d != dst && Healthy(d) ==> used[d] - used[dst] <= threshold
    {
      src := -1;
      var bestGap := threshold;
      for d := 0 to |used|
        invariant -1 <= src < d
        invariant 0 <= src ==> src != dst && Healthy(src) && bestGap == used[src] - used[dst] > threshold
        invariant src == -1 ==> bestGap == threshold
        invariant forall x: nat :: x < d && x != dst && Healthy(x) ==> used[x] - used[dst] <= bestGap
      {
        if d != dst && Healthy(d) && used[d] - used[dst] > bestGap {
          bestGap, src := used[d] - used[dst], d;
        }
      }
    }

    /** dst is a least used and src a fullest of the healthy disks. */
    ghost predicate Extremes(src: nat, dst: nat)
      requires |used| == |stores| == |fails|
      reads this
    {
      && src < |used| && dst < |used| && src != dst && Healthy(src) && Healthy(dst)
      && forall d: nat :: d < |used| && Healthy(d) ==> used[dst] <= used[d] <= used[src]
    }

    /** No two healthy disks are further apart than the threshold. */
    ghost predicate GapWithin(threshold: int)
      requires |used| == |stores| == |fails|
      reads this
    {
      forall d: nat, e: nat :: d < |used| && e < |used| && d != e && Healthy(d) && Healthy(e) ==>
        used[d] - used[e] <= threshold
    }

    /** The gap is within the threshold, or nothing on a fullest disk fits it. */
    ghost predicate Settled(threshold: int, excluded: set<int>)
      requires |used| == |stores| == |fails|
      reads this
    {
      || GapWithin(threshold)
      || exists src: nat, dst: nat :: Stuck(src, dst, excluded)
    }

    ghost predicate Stuck(src: nat, dst: nat, excluded: set<int>)
      requires |used| == |stores| == |fails|
      reads this
    {
      Extremes(src, dst) && NothingFits(stores[src], excluded, used[src] - used[dst])
    }

    /** The next chunk to move: a largest extent of the fullest disk that fits strictly within its
        gap to the least used one.  None means that the gap is within the threshold or that
        nothing fits. */
    method PickRebalanceChunk(threshold: int, excluded: set<int>) returns (r: Option<(nat, Entry)>)
      requires Valid()
      ensures r.None? ==> Settled(threshold, excluded)
      ensures r.Some? ==>
                var (src, e) := r.value;
                exists dst: nat :: Extremes(src, dst) && used[src] - used[dst] > threshold &&
                  Fits(stores[src], e, excluded, used[src] - used[dst]) &&
                  forall f :: Fits(stores[src], f, excluded, used[src] - used[dst]) ==> f.len <= e.len
    {
      hide Placed, LiveIn;
      var dst := LeastUsedDisk();
      if dst < 0 {
        return None;
      }
      var src := FullestDisk(dst, threshold);
      if src < 0 {
        return None;
      }
      r := LargestFitting(src, excluded, used[src] - used[dst]);
      assert Extremes(src, dst);
      assert r.None? ==> Stuck(src, dst, excluded);
    }

    /** The largest listed extent of one disk that fits a gap. */
    method LargestFitting(src: nat, excluded: set<int>, gap: int) returns (r: Option<(nat, Entry)>)
      requires src < |stores|
      ensures r.None? ==> NothingFits(stores[src], excluded, gap)
      ensures r.Some? ==> r.value.0 == src && Fits(stores[src], r.value.1, excluded, gap) &&
                          forall f :: Fits(stores[src], f, excluded, gap) ==> f.len <= r.value.1.len
    {
      hide LiveIn;
      var entries := ListExtents(stores[src]);
      var best: Option<Entry> := None;
      for i := 0 to |entries|
        invariant best.Some? ==> best.value in entries && Fits(stores[src], best.value, excluded, gap)
        invariant forall j :: 0 <= j < i && Fits(stores[src], entries[j], excluded, gap) ==>
                    best.Some? && entries[j].len <= best.value.len
      {
        var e := entries[i];
        assert e in entries;
        if e.gen != 0 && e.id !in excluded && e.len < gap && (best.None? || best.value.len < e.len) {
          best := Some(e);
        }
      }
      forall f | Fits(stores[src], f, excluded, gap) ensures best.Some? && f.len <= best.value.len {
        assert f in entries;
        var j :| 0 <= j < |entries| && entries[j] == f;
      }
      r := if best.None? then None else Some((src, best.value));
    }

    /** Moves one chunk between disks at its generation, keeping the source copy: read, write to
        the target, re-point, account. */
    method RebalanceOne(id: int, from: nat, to: nat, io: bool) returns (ok: bool)
      requires Valid() && from < |used| && to < |used|
      modifies this
      ensures Valid() && |used| == |old(used)| && locOf.Keys == old(locOf).Keys
      ensures forall x :: x in locOf ==> Payload(x) == old(Payload(x)) && locOf[x].gen == old(locOf)[x].gen
      ensures !ok ==> locOf == old(locOf) && used == old(used) && stores == old(stores)
      ensures ok <==> io && from != to && old(Healthy(to)) && id in old(locOf) && old(locOf)[id].disk == from
      ensures Keeps(old(stores), stores)
      ensures ok ==> fails == old(fails)[to := 0]
      ensures !ok ==> fails == if from != to && old(Healthy(to)) && id in old(locOf) && old(locOf)[id].disk == from
                               then old(fails)[to := old(fails)[to] + 1] else old(fails)
      ensures ok ==>
                && from != to && old(Healthy(to)) && id in locOf && old(locOf)[id].disk == from
                && locOf == old(locOf)[id := Loc(to, old(locOf)[id].gen)]
                && used == Shifted(old(used), from, to, |old(Payload(id))|)
      ensures forall d: nat :: d < |used| && Healthy(d) ==> old(Healthy(d))
    {
      hide Placed;
      if from == to || !Healthy(to) || id !in locOf || locOf[id].disk != from {
        return false;
      }
      PlacedAt(stores, locOf, id);
      var key := Key(id, locOf[id].gen);
      var data := stores[from][key];
      if !io || (key in stores[to] && stores[to][key] != data) {
        fails := fails[to := fails[to] + 1];
        return false;
      }
      var stores', locOf' := stores[to := stores[to][key := data]], locOf[id := Loc(to, key.gen)];
      MovePlaced(stores, locOf, id, to, stores', locOf');
      stores, locOf := stores', locOf';
      fails := fails[to := 0];
      used := Shifted(used, from, to, |data|);
      ok := true;
    }

    ghost function HealthyDisks(): set<int>
      requires Valid()
      reads this
    {
      set d: nat | d < |fails| && Healthy(d) :: d as int
    }

    /** What every chunk reads, and at which generation, is as before; only healthy disks were
        moved onto. */
    twostate predicate SameChunks(healthy: set<int>)
      requires old(Valid()) && Valid()
      reads this
    {
      && locOf.Keys == old(locOf).Keys
      && forall id :: id in locOf ==>
           && Payload(id) == old(Payload(id)) && locOf[id].gen == old(locOf)[id].gen
           && (locOf[id] == old(locOf)[id] || locOf[id].disk in healthy)
    }

    /** One turn of the loop: pick, re-read the target, move; a chunk that will not move is
        excluded from the rest of the pass, and unless the disk failed it has a second copy. */
    method RebalanceStep(threshold: int, excluded: set<int>, io: bool) returns (more: bool, moved: bool, skip: set<int>)
      requires Valid()
      modifies this
      ensures Valid() && SameChunks(old(HealthyDisks())) && HealthyDisks() <= old(HealthyDisks())
      ensures Better(old(used), used, old(HealthyDisks())) && Keeps(old(stores), stores)
      ensures used == old(used) || SumSquares(used) < SumSquares(old(used))
      ensures !more ==> !moved && Settled(threshold, excluded)
      ensures old(GapWithin(threshold)) ==> !more
      ensures moved ==> skip == excluded
      ensures !moved ==> used == old(used) && locOf == old(locOf) && stores == old(stores)
      ensures more && !moved ==> |skip| == |excluded| + 1 && excluded <= skip &&
                                 (io ==> forall id :: id in skip && id !in excluded ==> OnTwo(stores, id))
    {
      hide Placed, LiveIn, OnTwo, Keeps, Better, Stuck, Sum, SumSquares, Shifted;
      skip, moved := excluded, false;
      KeepsAll(stores);
      BetterSame(used, HealthyDisks());
      var pick := PickRebalanceChunk(threshold, excluded);
      if pick.None? {
        return false, false, excluded;
      }
      more := true;
      var (src, e) := pick.value;
      var dst := LeastUsedDisk();
      assert 0 <= dst by {
        assert Healthy(src);
      }
      assert Extremes(src, dst) && e.len < used[src] - used[dst];
      assert src in HealthyDisks() && dst in HealthyDisks();
      LocatedOrDoubled(stores, locOf, src, e);
      var ok := RebalanceOne(e.id, src, dst, io);
      if ok {
        ShiftedBetter(old(used), src, dst, e.len, old(HealthyDisks()));
        moved := true;
      } else {
        skip := excluded + {e.id};
      }
    }

    /** How many turns a pass may take: one per live extent, or 64 on an empty node. */
    method MoveCap() returns (cap: nat)
      ensures cap == if Extents(stores) == 0 then 64 else Extents(stores)
    {
      cap := 0;
      for d := 0 to |stores|
        invariant cap == Extents(stores[..d])
      {
        var entries := ListExtents(stores[d]);
        assert stores[..d + 1][..d] == stores[..d];
        cap := cap + |entries|;
      }
      assert stores[..|stores|] == stores;
      if cap == 0 {
        cap := 64;
      }
    }

    /** Drains the fullest disk onto the least used one, at most one turn per live extent.
        The total is conserved, no disk leaves the range the healthy disks spanned, failed disks
        are left alone, every chunk reads as before, and a change of the usages lowers the sum
        of their squares.  A balanced node is left as it is.  When no write fails, the pass ends
        balanced within the threshold or with nothing left that fits, chunks with a second
        copy aside, unless it used up its turns. */
    method RebalanceBalanced(threshold: int, io: nat -> bool) returns (moved: nat)
      requires Valid()
      modifies this
      ensures Valid() && SameChunks(old(HealthyDisks()))
      ensures Better(old(used), used, old(HealthyDisks()))
      ensures used == old(used) || SumSquares(used) < SumSquares(old(used))
      ensures moved == 0 ==> used == old(used) && locOf == old(locOf)
      ensures old(GapWithin(threshold)) ==> moved == 0
      ensures (forall i :: io(i)) ==>
                || Settled(threshold, Doubled(stores))
                || (if old(Extents(stores)) == 0 then 64 else old(Extents(stores))) <= moved + |Doubled(stores)|
    {
      hide LiveIn, OnTwo, Doubled, Settled, Placed, Extents;
      moved := 0;
      var cap := MoveCap();
      var excluded: set<int> := {};
      var i := 0;
      while i < cap
        invariant Valid() && SameChunks(old(HealthyDisks())) && HealthyDisks() <= old(HealthyDisks())
        invariant Better(old(used), used, old(HealthyDisks()))
        invariant used == old(used) || SumSquares(used) < SumSquares(old(used))
        invariant moved == 0 ==> used == old(used) && locOf == old(locOf) && stores == old(stores)
        invariant i == 0 ==> fails == old(fails)
        invariant old(GapWithin(threshold)) ==> i == 0
        invariant i == moved + |excluded| <= cap
        invariant (forall j :: io(j)) ==> forall id :: id in excluded ==> OnTwo(stores, id)
      {
        ghost var before, healthy, had := used, HealthyDisks(), stores;
        var more, step, skip := RebalanceStep(threshold, excluded, io(i));
        BetterMore(old(used), before, used, old(HealthyDisks()), healthy);
        if !more {
          SettledMore(threshold, excluded);
          return;
        }
        forall id | OnTwo(had, id) ensures OnTwo(stores, id) {
          OnTwoKept(had, stores, id);
        }
        excluded := skip;
        if step {
          moved := moved + 1;
        }
        i := i + 1;
      }
      if forall j :: io(j) {
        ExcludedDoubled(stores, excluded);
      }
    }

    lemma StuckMore(src: nat, dst: nat, excluded: set<int>, more: set<int>)
      requires |used| == |stores| == |fails| && Stuck(src, dst, excluded) && excluded <= more
      ensures Stuck(src, dst, more)
    {
      LessFits(stores[src], excluded, more, used[src] - used[dst]);
    }

    lemma SettledMore(threshold: int, excluded: set<int>)
      requires Valid() && Settled(threshold, excluded)
      ensures (forall id :: id in excluded ==> OnTwo(stores, id)) ==> Settled(threshold, Doubled(stores))
    {
      hide Doubled, OnTwo, Placed, Stuck, GapWithin;
      if forall id :: id in excluded ==> OnTwo(stores, id) {
        ExcludedDoubled(stores, excluded);
        if !GapWithin(threshold) {
          var src: nat, dst: nat :| Stuck(src, dst, excluded);
          StuckMore(src, dst, excluded, Doubled(stores));
        }
      }
    }
  }

  /** n failed writes in a row to a chunk's disk, and then one that could go through: it is refused
      exactly when n is five or more. */
  method FailureStreak(store: V2Store, id: int, data: seq<Byte>, n: nat) returns (ok: bool)
    requires store.Valid() && id in store.locOf && store.fails[store.locOf[id].disk] == 0
    modifies store
    ensures ok <==> n < 5
    ensures store.Valid() && id in store.locOf && store.locOf[id].disk == old(store.locOf)[id].disk
    ensures store.fails[store.locOf[id].disk] == if ok then 0 else 5
  {
    hide Placed, PayloadIn;
    PlacedAt(store.stores, store.locOf, id);
    ghost var disk := store.locOf[id].disk;
    for i := 0 to n
      invariant store.Valid() && id in store.locOf && store.locOf[id].disk == disk < |store.fails|
      invariant store.fails[disk] == (if i < 5 then i else 5)
    {
      assert store.GoesTo(id, disk) <==> store.Healthy(disk);
      ok := store.Write(id, data, false);
    }
    assert store.GoesTo(id, disk) <==> store.Healthy(disk);
    ok := store.Write(id, data, true);
  }

  lemma KeepsAll(stores: seq<Store>)
    ensures Keeps(stores, stores)
  {
  }

  lemma ExcludedDoubled(stores: seq<Store>, excluded: set<int>)
    requires forall id :: id in excluded ==> OnTwo(stores, id)
    ensures excluded <= Doubled(stores) && |excluded| <= |Doubled(stores)|
  {
    hide Doubled, OnTwo;
    forall id | id in excluded ensures id in Doubled(stores) {
      DoubledIs(stores, id);
    }
    assert Doubled(stores) == excluded + (Doubled(stores) - excluded);
  }

  /** A live extent of a disk is the located one, of the length the location reads, or its chunk
      is on another disk as well. */
  lemma LocatedOrDoubled(stores: seq<Store>, locOf: map<int, Loc>, src: nat, e: Entry)
    requires Placed(stores, locOf) && src < |stores| && LiveIn(stores[src], e)
    ensures e.id in locOf
    ensures locOf[e.id].disk == src ==> |PayloadIn(stores, locOf, e.id)| == e.len
    ensures locOf[e.id].disk != src ==> OnTwo(stores, e.id)
  {
    var at := locOf[e.id];
    assert Key(e.id, e.gen) in stores[src] && Key(e.id, at.gen) in stores[at.disk];
    assert e.id in IdsIn(stores[src]) && e.id in IdsIn(stores[at.disk]);
  }

  ghost predicate Between(used: seq<int>, disks: set<int>, lo: int, hi: int) {
    forall d :: d in disks && 0 <= d < |used| ==> lo <= used[d] <= hi
  }

  /** Same total, no larger sum of squares, healthy disks inside the range they spanned, other
      disks untouched. */
  ghost predicate Better(before: seq<int>, after: seq<int>, healthy: set<int>) {
    && |after| == |before|
    && Sum(after) == Sum(before) && SumSquares(after) <= SumSquares(before)
    && (forall lo, hi :: Between(before, healthy, lo, hi) ==> Between(after, healthy, lo, hi))
    && (forall d :: 0 <= d < |before| && d !in healthy ==> after[d] == before[d])
  }

  lemma BetterSame(used: seq<int>, healthy: set<int>)
    ensures Better(used, used, healthy)
  {
  }

  lemma ShiftedNone(used: seq<int>, i: nat, j: nat)
    requires i < |used| && j < |used|
    ensures Shifted(used, i, j, 0) == used
  {
  }

  lemma ShiftedBetter(used: seq<int>, i: nat, j: nat, n: nat, healthy: set<int>)
    requires i < |used| && j < |used| && i != j && n < used[i] - used[j] && i in healthy && j in healthy
    ensures Better(used, Shifted(used, i, j, n), healthy)
    ensures Shifted(used, i, j, n) == used || SumSquares(Shifted(used, i, j, n)) < SumSquares(used)
  {
    hide Sum, SumSquares, Shifted;
    ShiftedIs(used, i, j, n);
    ShiftedNone(used, i, j);
    var after := Shifted(used, i, j, n);
    forall lo, hi | Between(used, healthy, lo, hi) ensures Between(after, healthy, lo, hi) {
      assert lo <= used[i] <= hi && lo <= used[j] <= hi;
    }
  }

  /** Improvements compose, also when disks failed in between. */
  lemma BetterMore(first: seq<int>, mid: seq<int>, last: seq<int>, healthy: set<int>, still: set<int>)
    requires Better(first, mid, healthy) && Better(mid, last, still) && still <= healthy
    ensures Better(first, last, healthy)
  {
    forall lo, hi | Between(first, healthy, lo, hi) ensures Between(last, healthy, lo, hi) {
      assert Between(mid, healthy, lo, hi) && Between(mid, still, lo, hi) && Between(last, still, lo, hi);
      forall d | d in healthy && 0 <= d < |last| ensures lo <= last[d] <= hi {
        assert d !in still ==> last[d] == mid[d];
      }
    }
  }
}
