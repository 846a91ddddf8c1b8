/**
 readECChunk: the window read first, the full read when it fails.  The recorded size may be the
 allocation cap of a chunk that holds less data; then the windows are computed for shards
 larger than the real ones.
 */
module ErasureReads {
  import opened Bytes
  import opened ErasureCode
  import opened ErasureStripe
  import opened ErasureChunks
  import opened ErasureWindows

  /** metadata.MaxChunkSize, the allocation cap. */
  const MAX_CHUNK: nat := 67108864

  /** The window path is tried for a record with a stripe and a plausible size. */
  predicate Attempted(k: nat, striped: bool, recorded: int, offset: int, length: int)
    requires 0 < k
  {
    var dataLen := k * ShardSize(MAX_CHUNK, k);
    striped && 0 < length && 0 <= offset < dataLen && 0 < recorded <= dataLen
  }

  /** The window path finds all its bytes, in a shard after the first, and before their place:
      N is the shard size of the recorded size, n the real one. */
  predicate Misread(n: nat, N: nat, offset: nat, length: nat) {
    0 < n < N <= offset && offset % N + length <= n
  }

  /** The window path is tried and misreads the range. */
  predicate Misled(k: nat, striped: bool, len: nat, recorded: int, offset: int, length: int)
    requires 0 < k
  {
    Attempted(k, striped, recorded, offset, length) && Misread(ShardSize(len, k), ShardSize(recorded, k), offset, length)
  }

  lemma ShardSizeMonotone(a: nat, b: nat, k: nat)
    requires 0 < k && a <= b
    ensures ShardSize(a, k) <= ShardSize(b, k)
  {
    var x, y := a + k - 1, b + k - 1;
    assert x == k * (x / k) + x % k && y == k * (y / k) + y % k;
    if x / k > y / k {
      AtLeast(x / k - y / k, k);
      Distribute(x / k, y / k, k);
    }
  }

  /** With larger windows than shards, a range is found exactly when it lies inside one shard. */
  lemma InShardsIff(n: nat, N: nat, offset: nat, length: nat)
    requires n < N && 0 < length
    ensures InShards(n, N, offset, offset + length) <==> offset % N + length <= n
  {
    if offset % N + length <= n {
      forall p: nat | offset <= p < offset + length ensures p % N < n {
        PlaceMore(offset, p - offset, n, N);
      }
    } else if n <= offset % N {
      assert !InShards(n, N, offset, offset + length);
    } else {
      PlaceMore(offset, n - offset % N, n, N);
      assert (offset + (n - offset % N)) % N == n;
    }
  }

  /** Where it looks then: a multiple of the difference in shard size too early. */
  lemma PlaceIs(n: nat, N: nat, offset: nat)
    requires n <= N && 0 < N
    ensures Place(offset, n, N) == offset - offset / N * (N - n) && Place(offset, n, N) <= offset
    ensures n < N ==> (Place(offset, n, N) == offset <==> offset < N)
  {
    var i := offset / N;
    assert offset == i * N + offset % N;
    assert i * (N - n) == i * N - i * n;
    if n < N <= offset {
      DivPositive(offset, N);
      AtLeast(i, N - n);
    }
    if offset < N {
      DivIs(offset, N, 0, offset);
    }
  }

  lemma DivPositive(offset: nat, N: nat)
    requires 0 < N <= offset
    ensures 1 <= offset / N
  {
    assert offset == offset / N * N + offset % N;
  }

  lemma RelocatedSlice(data: seq<Sym>, n: nat, N: nat, offset: nat, length: nat)
    requires n <= N && 0 < N && offset + length <= |data| && offset % N + length <= N
    ensures Place(offset, n, N) <= offset
    ensures Relocated(data, n, N, offset, offset + length) == data[Place(offset, n, N)..Place(offset, n, N) + length]
  {
    PlaceIs(n, N, offset);
    var at, r := Place(offset, n, N), Relocated(data, n, N, offset, offset + length);
    forall j | 0 <= j < length ensures r[j] == data[at..at + length][j] {
      PlaceMore(offset, j, n, N);
    }
  }

  /** Inside the data, what the window path returns is right unless the range is misread. */
  lemma RelocatedExact(data: seq<Sym>, n: nat, N: nat, offset: nat, length: nat)
    requires 0 < n <= N && 0 < length && offset + length <= |data|
    requires InShards(n, N, offset, offset + length) && !Misread(n, N, offset, length)
    ensures Relocated(data, n, N, offset, offset + length) == data[offset..offset + length]
  {
    if n == N {
      RelocatedTrue(data, N, offset, offset + length);
    } else {
      InShardsIff(n, N, offset, length);
      PlaceIs(n, N, offset);
      RelocatedSlice(data, n, N, offset, length);
    }
  }

  /** A chunk of len bytes whose only non-zero one is at p. */
  function OneAt(len: nat, p: nat): (data: seq<Sym>)
    ensures |data| == len && forall i :: 0 <= i < len ==> data[i] == if i == p then 1 else 0
  {
    seq(len, i => if i == p then 1 else 0)
  }

  /** For every range inside the data: whatever the window path returns is right for all data of
      that length if and only if the range is not misread. */
  lemma {:induction false} WindowExactIff(len: nat, n: nat, N: nat, offset: nat, length: nat)
    requires 0 < n <= N && 0 < length && offset + length <= len
    ensures (forall data: seq<Sym> :: |data| == len && InShards(n, N, offset, offset + length) ==>
               Relocated(data, n, N, offset, offset + length) == data[offset..offset + length])
            <==> !Misread(n, N, offset, length)
  {
    if Misread(n, N, offset, length) {
      var data := OneAt(len, offset);
      InShardsIff(n, N, offset, length);
      PlaceIs(n, N, offset);
      RelocatedSlice(data, n, N, offset, length);
      assert Relocated(data, n, N, offset, offset + length)[0] == 0;
      assert data[offset..offset + length][0] == 1;
    } else {
      forall data: seq<Sym> | |data| == len && InShards(n, N, offset, offset + length)
        ensures Relocated(data, n, N, offset, offset + length) == data[offset..offset + length]
      {
        RelocatedExact(data, n, N, offset, length);
      }
    }
  }

  /** Reads a range of a chunk.  With a recorded size that is unknown or covers the data, a
      successful read inside the data is exact unless the window path misreads it, which it does
      by returning the bytes of an earlier place; `up` says which window fetches are answered and `partial`
      which whole shards are. */
  method ReadChunk(c: Code, shards: seq<seq<Sym>>, up: (nat, nat) -> bool, partial: seq<Option<seq<Sym>>>,
                   striped: bool, recorded: int, offset: int, length: int, ghost data: seq<Sym>)
    returns (r: Result<seq<Sym>>)
    requires Valid(c) && data != []
    requires shards == Shards(c, data, ShardSize(|data|, c.k))
    requires Comes(c, data, ShardSize(|data|, c.k), partial, 0, ShardSize(|data|, c.k))
    ensures |Present(partial)| >= c.k ==> r.Ok?
    ensures 0 <= offset && 0 < length && offset + length <= |data| && (recorded <= 0 || |data| <= recorded) && r.Ok? ==>
              (!Misled(c.k, striped, |data|, recorded, offset, length) ==> r.value == data[offset..offset + length])
    ensures offset + length <= |data| <= recorded && AlwaysEnough(c, up) &&
            Misled(c.k, striped, |data|, recorded, offset, length) ==>
              var at := Place(offset, ShardSize(|data|, c.k), ShardSize(recorded, c.k));
              at < offset && r == Ok(data[at..at + length])
  {
    hide Valid, Comes, Present, Place, InShards, Relocated, AlwaysEnough;
    SomeData(c);
    var dataLen := c.k * ShardSize(MAX_CHUNK, c.k);
    if striped && 0 < length && 0 <= offset < dataLen && 0 < recorded <= dataLen {
      var out := ReadWindow(c, shards, up, offset, length, recorded, data);
      if offset + length <= |data| <= recorded {
        ShardSizeMonotone(|data|, recorded, c.k);
        WindowAnswer(data, ShardSize(|data|, c.k), ShardSize(recorded, c.k), offset, length, out);
      }
      if out.Ok? {
        return out;
      }
    }
    r := ReadFull(c, partial, recorded, offset, length, data);
  }

  lemma WindowAnswer(data: seq<Sym>, n: nat, N: nat, offset: nat, length: nat, out: Result<seq<Sym>>)
    requires 0 < n <= N && 0 < length && offset + length <= |data|
    requires out.Ok? ==>
               InShards(n, N, offset, offset + length) && out.value == Relocated(data, n, N, offset, offset + length)
    ensures out.Ok? && !Misread(n, N, offset, length) ==> out.value == data[offset..offset + length]
    ensures Misread(n, N, offset, length) ==>
              && InShards(n, N, offset, offset + length) && Place(offset, n, N) < offset
              && (out.Ok? ==> out.value == data[Place(offset, n, N)..Place(offset, n, N) + length])
  {
    if Misread(n, N, offset, length) {
      InShardsIff(n, N, offset, length);
      PlaceIs(n, N, offset);
      RelocatedSlice(data, n, N, offset, length);
    } else if out.Ok? {
      RelocatedExact(data, n, N, offset, length);
    }
  }

  /** Six bytes over two data shards, recorded as eight: a read of byte 4 returns byte 3. */
  method CapSizedMisread() returns (r: Result<seq<Sym>>)
    ensures r == Ok([13])
  {
    XorCodeValid(2);
    var c, data: seq<Sym> := XorCode(2), [10, 11, 12, 13, 14, 15];
    var encoded := Encode(c, data);
    var shards := encoded.value;
    var partial := seq(3, i requires 0 <= i < 3 => Some(shards[i]));
    assert Comes(c, data, 3, partial, 0, 3) by {
      hide Valid;
      assert forall i :: 0 <= i < 3 ==> shards[i][0..3] == shards[i];
    }
    assert ShardSize(|data|, 2) == 3 && ShardSize(8, 2) == 4 && Place(4, 3, 4) == 3;
    assert Misled(2, true, |data|, 8, 4, 1);
    r := ReadChunk(c, shards, (round, i) => true, partial, true, 8, 4, 1, data);
    assert data[3..4] == [13];
  }
}
