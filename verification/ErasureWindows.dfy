/**
 Window reads of an erasure-coded chunk: only the data shards that own the bytes are fetched,
 and a missing owner's window is rebuilt from the same window of any k other shards.  The
 windows are computed from a recorded size, which may be larger than the data; N is the
 shard size it implies and n the true one.
 */
module ErasureWindows {
  import opened Bytes
  import opened ErasureCode
  import opened ErasureStripe
  import opened ErasureChunks

  /** The part [start, end) of data shard `shard`. */
  datatype Win = Win(shard: nat, start: nat, end: nat)

  /** Where a window starts and ends in the file. */
  function Lo(w: Win, n: nat): int { w.shard * n + w.start }

  function Hi(w: Win, n: nat): int { w.shard * n + w.end }

  /** The windows tile [offset, end) in order, each inside one of the k data shards. */
  ghost predicate Tiles(wins: seq<Win>, k: nat, n: nat, offset: int, end: int) {
    && (forall w :: w in wins ==> w.shard < k && w.start < w.end <= n)
    && (wins == [] ==> offset == end)
    && (wins != [] ==> Lo(wins[0], n) == offset && Hi(wins[|wins| - 1], n) == end)
    && (forall j :: 0 < j < |wins| ==> Hi(wins[j - 1], n) == Lo(wins[j], n))
  }

  lemma TilesMore(wins: seq<Win>, w: Win, k: nat, n: nat, offset: int, mid: int, end: int)
    requires Tiles(wins, k, n, offset, mid) && w.shard < k && w.start < w.end <= n
    requires Lo(w, n) == mid && Hi(w, n) == end
    ensures Tiles(wins + [w], k, n, offset, end)
  {
  }

  /** The window of shard i that overlaps [offset, end), if it does. */
  method ShardWindow(i: nat, n: nat, offset: int, end: int) returns (w: Option<Win>)
    requires 0 <= offset < end
    ensures w.None? <==> i * n + n <= offset || end <= i * n
    ensures w.Some? ==>
              && w.value.shard == i && w.value.start < w.value.end <= n
              && Lo(w.value, n) == Max(i * n, offset) && Hi(w.value, n) == Min(i * n + n, end)
  {
    NextShard(i, n);
    var shardStart := i * n;
    var shardEnd := shardStart + n;
    if shardEnd <= offset || shardStart >= end {
      return None;
    }
    var ws, we := Max(offset - shardStart, 0), Min(end - shardStart, n);
    w := Some(Win(i, ws, we));
  }

  /** The windows of the data shards that own [offset, end). */
  method Windows(k: nat, n: nat, offset: int, end: int) returns (wins: seq<Win>)
    requires 0 <= offset < end <= k * n
    ensures Tiles(wins, k, n, offset, end)
  {
    hide Tiles;
    wins := [];
    TilesNone(k, n, offset);
    for i := 0 to k
      invariant Tiles(wins, k, n, offset, Max(offset, Min(i * n, end)))
    {
      NextShard(i, n);
      var w := ShardWindow(i, n, offset, end);
      if w.Some? {
        TilesMore(wins, w.value, k, n, offset, Max(i * n, offset), Min(i * n + n, end));
        wins := wins + [w.value];
      }
    }
  }

  lemma TilesNone(k: nat, n: nat, offset: int)
    ensures Tiles([], k, n, offset, offset)
  {
  }

  // ---------- where a position is looked for ----------

  /** The position whose byte a window read returns for p: that of shard p / N at p % N. */
  function Place(p: nat, n: nat, N: nat): nat
    requires 0 < N
  {
    NextShard(p / N, n);
    p / N * n + p % N
  }

  lemma Distribute(a: int, b: int, N: int)
    ensures (a - b) * N == a * N - b * N
  {
  }

  lemma AtLeast(a: int, N: nat)
    requires 1 <= a
    ensures N <= a * N
  {
    assert a * N == (a - 1) * N + N;
  }

  /** Quotient and remainder are determined by their equation. */
  lemma DivIs(p: nat, N: nat, q: nat, r: nat)
    requires r < N && p == q * N + r
    ensures p / N == q && p % N == r
  {
    var d := p / N;
    assert p == d * N + p % N;
    Distribute(q, d, N);
    Distribute(d, q, N);
    if q > d {
      AtLeast(q - d, N);
    } else if d > q {
      AtLeast(d - q, N);
    }
  }

  /** Inside one shard the places follow each other. */
  lemma PlaceMore(p: nat, j: nat, n: nat, N: nat)
    requires 0 < N && p % N + j < N
    ensures (p + j) / N == p / N && (p + j) % N == p % N + j && Place(p + j, n, N) == Place(p, n, N) + j
  {
    assert p == p / N * N + p % N;
    DivIs(p + j, N, p / N, p % N + j);
  }

  /** At the true shard size every position is looked for where it is. */
  lemma PlaceTrue(p: nat, N: nat)
    requires 0 < N
    ensures Place(p, N, N) == p
  {
  }

  /** The bytes a window read returns for [offset, end). */
  ghost function Relocated(data: seq<Sym>, n: nat, N: nat, offset: nat, end: int): (r: seq<Sym>)
    requires 0 < N && offset <= end
    ensures |r| == end - offset
    ensures forall j :: 0 <= j < end - offset ==> r[j] == At(data, Place(offset + j, n, N))
  {
    seq(end - offset, j requires 0 <= j => At(data, Place(offset + j, n, N)))
  }

  /** Every position of [offset, end) is looked for inside the true shards. */
  ghost predicate InShards(n: nat, N: nat, offset: nat, end: int)
    requires 0 < N
  {
    forall p: nat :: offset <= p < end ==> p % N < n
  }

  lemma RelocatedTrue(data: seq<Sym>, N: nat, offset: nat, end: int)
    requires 0 < N && offset <= end <= |data|
    ensures InShards(N, N, offset, end) && Relocated(data, N, N, offset, end) == data[offset..end]
  {
    var r := Relocated(data, N, N, offset, end);
    forall j | 0 <= j < end - offset ensures r[j] == data[offset..end][j] {
      PlaceTrue(offset + j, N);
    }
  }

  /** A window of a data shard holds the bytes its positions are looked for. */
  lemma PieceIs(c: Code, data: seq<Sym>, n: nat, N: nat, w: Win)
    requires Valid(c) && w.shard < c.k && w.start <= w.end <= n && w.end <= N && 0 < N
    ensures 0 <= Lo(w, N) <= Hi(w, N) && InShards(n, N, Lo(w, N), Hi(w, N))
    ensures Shard(c, data, n, w.shard)[w.start..w.end] == Relocated(data, n, N, Lo(w, N), Hi(w, N))
  {
    hide Valid;
    NextShard(w.shard, N);
    var piece, r := Shard(c, data, n, w.shard)[w.start..w.end], Relocated(data, n, N, Lo(w, N), Hi(w, N));
    forall j | 0 <= j < w.end - w.start ensures piece[j] == r[j] {
      assert piece[j] == At(data, w.shard * n + (w.start + j));
      DivIs(Lo(w, N) + j, N, w.shard, w.start + j);
    }
    forall p: nat | Lo(w, N) <= p < Hi(w, N) ensures p % N < n {
      DivIs(p, N, w.shard, p - w.shard * N);
    }
  }

  /** `piece` is the window's own bytes. */
  ghost predicate PieceOf(c: Code, data: seq<Sym>, n: nat, w: Win, piece: seq<Sym>)
    requires Valid(c)
  {
    w.shard < c.k && w.start < w.end <= n && piece == Shard(c, data, n, w.shard)[w.start..w.end]
  }

  ghost predicate Fetched(c: Code, data: seq<Sym>, n: nat, wins: seq<Win>, pieces: seq<seq<Sym>>)
    requires Valid(c)
  {
    |pieces| == |wins| && forall j :: 0 <= j < |wins| ==> PieceOf(c, data, n, wins[j], pieces[j])
  }

  lemma {:induction false} JoinTiles(c: Code, data: seq<Sym>, n: nat, N: nat, wins: seq<Win>, pieces: seq<seq<Sym>>,
                                     offset: nat, end: int)
    requires Valid(c) && 0 < N && offset <= end
    requires Tiles(wins, c.k, N, offset, end) && Fetched(c, data, n, wins, pieces)
    ensures InShards(n, N, offset, end) && Join(pieces) == Relocated(data, n, N, offset, end)
  {
    hide Valid, Place;
    if wins != [] {
      var i := |wins| - 1;
      var w := wins[i];
      assert w in wins && PieceOf(c, data, n, w, pieces[i]);
      PieceIs(c, data, n, N, w);
      TilesLess(c.k, N, wins, offset, end);
      JoinTiles(c, data, n, N, wins[..i], pieces[..i], offset, Lo(w, N));
      RelocatedMore(data, n, N, offset, Lo(w, N), end);
    }
  }

  lemma RelocatedMore(data: seq<Sym>, n: nat, N: nat, offset: nat, mid: nat, end: int)
    requires 0 < N && offset <= mid <= end
    ensures Relocated(data, n, N, offset, end) == Relocated(data, n, N, offset, mid) + Relocated(data, n, N, mid, end)
    ensures InShards(n, N, offset, mid) && InShards(n, N, mid, end) ==> InShards(n, N, offset, end)
  {
    hide Place;
    var whole, left, right :=
      Relocated(data, n, N, offset, end), Relocated(data, n, N, offset, mid), Relocated(data, n, N, mid, end);
    forall j | mid - offset <= j < end - offset ensures whole[j] == right[j - (mid - offset)] {
      assert mid + (j - (mid - offset)) == offset + j;
    }
  }

  /** All positions lie inside the true shards exactly when every tile does. */
  lemma TilesInShards(wins: seq<Win>, k: nat, n: nat, N: nat, offset: nat, end: int, w: Win)
    requires Tiles(wins, k, N, offset, end) && w in wins && InShards(n, N, offset, end) && 0 < N
    ensures w.end <= n
  {
    TileInside(wins, k, N, offset, end, w);
    NextShard(w.shard, N);
    var p := Hi(w, N) - 1;
    DivIs(p, N, w.shard, w.end - 1);
  }

  lemma {:induction false} TileInside(wins: seq<Win>, k: nat, N: nat, offset: int, end: int, w: Win)
    requires Tiles(wins, k, N, offset, end) && w in wins
    ensures offset <= Lo(w, N) && Hi(w, N) <= end
    decreases |wins|
  {
    TilesLess(k, N, wins, offset, end);
    var i := |wins| - 1;
    assert wins[i] in wins;
    if w != wins[i] {
      assert w in wins[..i];
      TileInside(wins[..i], k, N, offset, Lo(wins[i], N), w);
    }
  }

  lemma {:induction false} TilesLess(k: nat, n: nat, wins: seq<Win>, offset: int, end: int)
    requires Tiles(wins, k, n, offset, end) && wins != []
    ensures var i := |wins| - 1; Tiles(wins[..i], k, n, offset, Lo(wins[i], n)) && offset <= Lo(wins[i], n)
    decreases |wins|
  {
    var i := |wins| - 1;
    assert wins[i] in wins;
    if i > 0 {
      assert wins[i - 1] in wins;
      assert Tiles(wins[..i], k, n, offset, Lo(wins[i], n));
      TilesLess(k, n, wins[..i], offset, Lo(wins[i], n));
    }
  }

  // ---------- fetching ----------

  /** Round 0 asks the owners; round w + 1 asks the peers of window w.  `up(round, shard)` says
      whether that fetch is answered; an answer cut short by the end of the shard counts as
      missing. */
  function Fetch(shards: seq<seq<Sym>>, up: (nat, nat) -> bool, round: nat, i: nat, s: nat, e: nat): Option<seq<Sym>>
    requires i < |shards| && s <= e
  {
    if up(round, i) && e <= |shards[i]| then Some(shards[i][s..e]) else None
  }

  /** The windows of the other shards that answered. */
  function Peers(shards: seq<seq<Sym>>, up: (nat, nat) -> bool, round: nat, w: Win): (r: seq<Option<seq<Sym>>>)
    requires w.start <= w.end
    ensures |r| == |shards|
    ensures forall i :: 0 <= i < |r| ==>
              r[i] == if i != w.shard && up(round, i) && w.end <= |shards[i]| then Some(shards[i][w.start..w.end]) else None
  {
    seq(|shards|, i requires 0 <= i < |shards| =>
      if i != w.shard then Fetch(shards, up, round, i, w.start, w.end) else None)
  }

  /** At least k shards other than `shard` answer in that round. */
  ghost predicate Enough(c: Code, up: (nat, nat) -> bool, round: nat, shard: nat) {
    |PeersUp(c, up, round, shard)| >= c.k
  }

  ghost function PeersUp(c: Code, up: (nat, nat) -> bool, round: nat, shard: nat): set<int> {
    set i: nat | i < c.k + c.m && i != shard && up(round, i) :: i as int
  }

  lemma PeersCome(c: Code, data: seq<Sym>, n: nat, up: (nat, nat) -> bool, round: nat, w: Win,
                  slices: seq<Option<seq<Sym>>>)
    requires Valid(c) && w.shard < c.k && w.start < w.end <= n && |slices| == c.k + c.m
    requires forall i :: 0 <= i < |slices| ==>
               slices[i] == if i != w.shard && up(round, i) then Some(Shards(c, data, n)[i][w.start..w.end]) else None
    ensures Comes(c, data, n, slices, w.start, w.end)
    ensures Present(slices) == PeersUp(c, up, round, w.shard)
  {
    hide Valid;
  }

  /** Rebuilds one owner's window from its peers. */
  method RebuildWindow(c: Code, shards: seq<seq<Sym>>, up: (nat, nat) -> bool, round: nat, w: Win,
                       ghost data: seq<Sym>, ghost n: nat)
    returns (r: Result<seq<Sym>>)
    requires Valid(c) && shards == Shards(c, data, n)
    requires w.shard < c.k && w.start < w.end
    ensures r.Ok? <==> w.end <= n && Enough(c, up, round, w.shard)
    ensures r.Ok? ==> r.value == Shard(c, data, n, w.shard)[w.start..w.end]
  {
    hide Valid, Present, PeersUp, Comes, Shards;
    SomeData(c);
    assert forall s :: s in shards ==> |s| == n by { StripeConsistent(c, data, n); }
    var slices := Peers(shards, up, round, w);
    CountIs(slices);
    var valid := CountShards(slices);
    if w.end > n {
      NoneCome(slices);
    } else {
      PeersCome(c, data, n, up, round, w, slices);
    }
    if valid < c.k {
      return Err;
    }
    RebuildIs(c, data, n, slices, w.start, w.end);
    r := Ok(Rebuild(c, slices, w.end - w.start)[w.shard]);
  }

  lemma SomeData(c: Code)
    requires Valid(c)
    ensures 0 < c.k
  {
  }

  lemma NoneCome(slices: seq<Option<seq<Sym>>>)
    requires forall i :: 0 <= i < |slices| ==> slices[i].None?
    ensures |Present(slices)| == 0
  {
    assert Present(slices) == {};
  }

  /** What the owner of a window sends, if all of it is there. */
  ghost predicate Owned(shards: seq<seq<Sym>>, up: (nat, nat) -> bool, w: Win, got: Option<seq<Sym>>)
    requires w.shard < |shards| && w.start <= w.end
  {
    got == if up(0, w.shard) && w.end <= |shards[w.shard]| then Some(shards[w.shard][w.start..w.end]) else None
  }

  /** Phase 1: every owner is asked for its window. */
  method FetchOwners(shards: seq<seq<Sym>>, up: (nat, nat) -> bool, wins: seq<Win>) returns (got: seq<Option<seq<Sym>>>)
    requires forall w :: w in wins ==> w.shard < |shards| && w.start <= w.end
    ensures |got| == |wins|
    ensures forall j :: 0 <= j < |wins| ==> wins[j] in wins && Owned(shards, up, wins[j], got[j])
  {
    got := [];
    for j := 0 to |wins|
      invariant |got| == j
      invariant forall x :: 0 <= x < j ==> wins[x] in wins && Owned(shards, up, wins[x], got[x])
    {
      assert wins[j] in wins;
      got := got + [Fetch(shards, up, 0, wins[j].shard, wins[j].start, wins[j].end)];
    }
  }

  /** The owner of window j answers, or k of its peers do. */
  ghost predicate Reachable(c: Code, up: (nat, nat) -> bool, w: Win, j: nat) {
    up(0, w.shard) || Enough(c, up, j + 1, w.shard)
  }

  /** Phase 2: every window still missing is rebuilt from peers. */
  method FillMissing(c: Code, shards: seq<seq<Sym>>, up: (nat, nat) -> bool, wins: seq<Win>, got: seq<Option<seq<Sym>>>,
                     ghost data: seq<Sym>, ghost n: nat)
    returns (r: Result<seq<seq<Sym>>>)
    requires Valid(c) && shards == Shards(c, data, n) && |got| == |wins|
    requires forall w :: w in wins ==> w.shard < c.k && w.start < w.end
    requires forall j :: 0 <= j < |wins| ==> wins[j] in wins && Owned(shards, up, wins[j], got[j])
    ensures r.Ok? ==> Fetched(c, data, n, wins, r.value)
    ensures r.Ok? <==> forall j: nat :: j < |wins| ==> wins[j].end <= n && Reachable(c, up, wins[j], j)
  {
    hide Valid, Enough;
    var pieces := [];
    for j := 0 to |wins|
      invariant |pieces| == j
      invariant forall x :: 0 <= x < j ==> PieceOf(c, data, n, wins[x], pieces[x])
      invariant forall x: nat :: x < j ==> wins[x].end <= n && Reachable(c, up, wins[x], x)
    {
      assert wins[j] in wins && Owned(shards, up, wins[j], got[j]);
      if got[j].Some? {
        pieces := pieces + [got[j].value];
      } else {
        var rebuilt := RebuildWindow(c, shards, up, j + 1, wins[j], data, n);
        if rebuilt.Err? {
          return Err;
        }
        pieces := pieces + [rebuilt.value];
      }
    }
    r := Ok(pieces);
  }

  /** readECWindow at any size that covers the data.  A successful read found every position
      inside the true shards and returns the bytes of the places where it looked; with the true
      size, whichever owners are missing, that is exactly the requested slice.  It succeeds
      whenever all positions are inside and every owner that does not answer has k peers that
      do. */
  method ReadWindow(c: Code, shards: seq<seq<Sym>>, up: (nat, nat) -> bool, offset: nat, length: int, size: nat,
                    ghost data: seq<Sym>)
    returns (r: Result<seq<Sym>>)
    requires Valid(c) && 0 < size && shards == Shards(c, data, ShardSize(|data|, c.k))
    ensures var n, N, end := ShardSize(|data|, c.k), ShardSize(size, c.k), Min(offset + length, size);
            && (end <= offset ==> r == Ok([]))
            && (offset < end && r.Ok? ==> InShards(n, N, offset, end) && r.value == Relocated(data, n, N, offset, end))
            && (offset < end && InShards(n, N, offset, end) && AlwaysEnough(c, up) ==> r.Ok?)
            && (size == |data| && r.Ok? ==> r.value == if end <= offset then [] else data[offset..end])
            && (size == |data| && AlwaysEnough(c, up) ==> r.Ok?)
  {
    hide Valid, Tiles, InShards, Place, Enough, Fetched;
    SomeData(c);
    ghost var n := ShardSize(|data|, c.k);
    var N := ShardSize(size, c.k);
    var end := Min(offset + length, size);
    if end <= offset {
      return Ok([]);
    }
    if size == |data| {
      RelocatedTrue(data, N, offset, end);
    }
    var wins := Windows(c.k, N, offset, end);
    TilesShape(c.k, N, wins, offset, end);
    var got := FetchOwners(shards, up, wins);
    var pieces := FillMissing(c, shards, up, wins, got, data, n);
    if InShards(n, N, offset, end) {
      forall w | w in wins ensures w.end <= n {
        TilesInShards(wins, c.k, n, N, offset, end, w);
      }
    }
    if pieces.Err? {
      return Err;
    }
    JoinTiles(c, data, n, N, wins, pieces.value, offset, end);
    var out := JoinShards(pieces.value, |pieces.value|);
    assert pieces.value[..|pieces.value|] == pieces.value;
    r := Ok(out);
  }

  /** Every data shard that does not answer has k peers that do, in every round. */
  ghost predicate AlwaysEnough(c: Code, up: (nat, nat) -> bool) {
    forall i: nat, round: nat :: i < c.k && !up(0, i) ==> Enough(c, up, round, i)
  }

  lemma TilesShape(k: nat, N: nat, wins: seq<Win>, offset: int, end: int)
    requires Tiles(wins, k, N, offset, end)
    ensures forall w :: w in wins ==> w.shard < k && w.start < w.end <= N
  {
  }
}
