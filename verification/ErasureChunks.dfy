/**
 Whole erasure-coded chunks: the encoder, the decoder, the quorum write and the full read.
 */
module ErasureChunks {
  import opened Bytes
  import opened ErasureCode
  import opened ErasureStripe

  /** ceil(len / k): the encoder's shard size. */
  function ShardSize(len: nat, k: nat): (n: nat)
    requires 0 < k
    ensures len <= k * n
    ensures 0 < len ==> 0 < n
    ensures len == 0 ==> n == 0
  {
    CeilCovers(len, k);
    (len + k - 1) / k
  }

  lemma CeilCovers(len: nat, k: nat)
    requires 0 < k
    ensures var n := (len + k - 1) / k; 0 <= n && len <= k * n && (0 < len ==> 0 < n) && (len == 0 ==> n == 0)
  {
    var n, r := (len + k - 1) / k, (len + k - 1) % k;
    assert len + k - 1 == k * n + r;
  }

  lemma NextShard(i: nat, n: nat)
    ensures (i + 1) * n == i * n + n && 0 <= i * n
  {
  }

  lemma ShardsFit(i: nat, k: nat, n: nat)
    requires i < k
    ensures i * n + n <= k * n
  {
    assert k * n == (i + 1) * n + (k - i - 1) * n;
  }

  // ---------- encode ----------

  function Padded(data: seq<Sym>, len: nat): (r: seq<Sym>)
    requires |data| <= len
    ensures |r| == len && forall p :: 0 <= p < len ==> r[p] == At(data, p)
  {
    data + seq(len - |data|, _ => 0)
  }

  /** Splits the padded data into k shards and appends m parity shards.  The primitive refuses
      empty shards, so empty data is an error. */
  method Encode(c: Code, data: seq<Sym>) returns (r: Result<seq<seq<Sym>>>)
    requires Valid(c)
    ensures r.Err? <==> data == []
    ensures r.Ok? ==> r.value == Shards(c, data, ShardSize(|data|, c.k))
  {
    var n := ShardSize(|data|, c.k);
    if n == 0 {
      return Err;
    }
    var shards := SplitShards(c, data, n);
    for i := 0 to c.m
      invariant |shards| == c.k + i
      invariant forall x :: 0 <= x < |shards| ==> shards[x] == Shard(c, data, n, x)
    {
      var parity := seq(n, j requires 0 <= j < n => c.parity(Col(data, c.k, n, j))[i]);
      assert parity == Shard(c, data, n, c.k + i);
      shards := shards + [parity];
    }
    assert shards == Shards(c, data, n);
    r := Ok(shards);
  }

  method SplitShards(c: Code, data: seq<Sym>, n: nat) returns (shards: seq<seq<Sym>>)
    requires Valid(c) && |data| <= c.k * n
    ensures |shards| == c.k && forall x :: 0 <= x < c.k ==> shards[x] == Shard(c, data, n, x)
  {
    var padded := Padded(data, c.k * n);
    shards := [];
    for i := 0 to c.k
      invariant |shards| == i
      invariant forall x :: 0 <= x < i ==> shards[x] == Shard(c, data, n, x)
    {
      NextShard(i, n);
      ShardsFit(i, c.k, n);
      assert padded[i * n..(i + 1) * n] == Shard(c, data, n, i);
      shards := shards + [padded[i * n..(i + 1) * n]];
    }
  }

  // ---------- decode ----------

  /** How many shards are there. */
  function Count(partial: seq<Option<seq<Sym>>>): nat {
    if partial == [] then 0
    else Count(partial[..|partial| - 1]) + (if partial[|partial| - 1].Some? then 1 else 0)
  }

  lemma {:induction false} CountIs(partial: seq<Option<seq<Sym>>>)
    ensures Count(partial) == |Present(partial)|
  {
    if partial != [] {
      var n := |partial| - 1;
      CountIs(partial[..n]);
      assert Present(partial) == Present(partial[..n]) + (if partial[n].Some? then {n} else {});
    } else {
      assert Present(partial) == {};
    }
  }

  /** Every column of the stripe is a column of the code. */
  predicate Consistent(c: Code, shards: seq<seq<Sym>>, n: nat)
    requires c.k <= |shards| && forall s :: s in shards ==> |s| == n
  {
    forall j :: 0 <= j < n ==> ColumnAt(shards, |shards|, j) == Word(c, ColumnAt(shards, c.k, j))
  }

  function ColumnAt(shards: seq<seq<Sym>>, k: nat, j: nat): (r: seq<Sym>)
    requires k <= |shards| && forall s :: s in shards ==> j < |s|
    ensures |r| == k && forall i :: 0 <= i < k ==> r[i] == shards[i][j]
  {
    seq(k, i requires 0 <= i < k => shards[i][j])
  }

  /** The primitive takes a shard of no bytes as missing. */
  function Usable(partial: seq<Option<seq<Sym>>>): (r: seq<Option<seq<Sym>>>)
    ensures |r| == |partial|
    ensures forall i :: 0 <= i < |r| ==> r[i] == if partial[i] == Some([]) then None else partial[i]
  {
    seq(|partial|, i requires 0 <= i < |partial| => if partial[i] == Some([]) then None else partial[i])
  }

  /** The length of the first shard that is there. */
  function SliceLen(partial: seq<Option<seq<Sym>>>): nat {
    if partial == [] then 0
    else if partial[0].Some? then |partial[0].value|
    else SliceLen(partial[1..])
  }

  predicate SameLen(partial: seq<Option<seq<Sym>>>, n: nat) {
    forall x :: x in partial && x.Some? ==> |x.value| == n
  }

  lemma RebuildLen(c: Code, partial: seq<Option<seq<Sym>>>, n: nat)
    requires SameLen(partial, n)
    ensures forall s :: s in Rebuild(c, partial, n) ==> |s| == n
  {
    var shards := Rebuild(c, partial, n);
    forall s | s in shards ensures |s| == n {
      var i :| 0 <= i < |shards| && shards[i] == s;
      assert partial[i] in partial;
    }
  }

  function Join(shards: seq<seq<Sym>>): seq<Sym> {
    if shards == [] then [] else Join(shards[..|shards| - 1]) + shards[|shards| - 1]
  }

  /** What Decode returns for any shards: it counts them, reconstructs, verifies the parity,
      joins the data shards and trims.  The primitive refuses shards of different lengths and
      fewer than k usable ones. */
  ghost function DecodeOf(c: Code, partial: seq<Option<seq<Sym>>>, len: nat): Result<seq<Sym>> {
    var usable := Usable(partial);
    var n := SliceLen(usable);
    if |partial| != c.k + c.m || Count(partial) < c.k || Count(usable) < c.k || !SameLen(usable, n) then Err
    else
      var shards := Rebuild(c, usable, n);
      RebuildLen(c, usable, n);
      if !Consistent(c, shards, n) || |Join(shards[..c.k])| < len then Err
      else Ok(Join(shards[..c.k])[..len])
  }

  method CountShards(partial: seq<Option<seq<Sym>>>) returns (available: nat)
    ensures available == Count(partial)
  {
    available := 0;
    for i := 0 to |partial|
      invariant available == Count(partial[..i])
    {
      assert partial[..i + 1][..i] == partial[..i];
      if partial[i].Some? {
        available := available + 1;
      }
    }
    assert partial[..|partial|] == partial;
  }

  method JoinShards(shards: seq<seq<Sym>>, k: nat) returns (result: seq<Sym>)
    requires k <= |shards|
    ensures result == Join(shards[..k])
  {
    result := [];
    for i := 0 to k
      invariant result == Join(shards[..i])
    {
      assert shards[..i + 1][..i] == shards[..i];
      result := result + shards[i];
    }
  }

  method Decode(c: Code, partial: seq<Option<seq<Sym>>>, originalLen: nat) returns (r: Result<seq<Sym>>)
    ensures r == DecodeOf(c, partial, originalLen)
  {
    hide Join, Count, Consistent;
    if |partial| != c.k + c.m {
      return Err;
    }
    var available := CountShards(partial);
    if available < c.k {
      return Err;
    }
    var rsShards := Usable(partial);
    var usable := CountShards(rsShards);
    var n := SliceLen(rsShards);
    if usable < c.k || !SameLen(rsShards, n) {
      return Err;
    }
    var shards := Rebuild(c, rsShards, n);
    RebuildLen(c, rsShards, n);
    if !Consistent(c, shards, n) {
      return Err;
    }
    var result := JoinShards(shards, c.k);
    if |result| < originalLen {
      return Err;
    }
    r := Ok(result[..originalLen]);
  }

  /** The first `len` bytes of the zero-padded data. */
  function Prefix(data: seq<Sym>, len: nat): (r: seq<Sym>)
    ensures |r| == len && forall p :: 0 <= p < len ==> r[p] == At(data, p)
  {
    seq(len, p => At(data, p))
  }

  lemma {:induction false} JoinIs(c: Code, data: seq<Sym>, n: nat, shards: seq<seq<Sym>>)
    requires Valid(c) && |shards| <= c.k
    requires forall i :: 0 <= i < |shards| ==> shards[i] == Shard(c, data, n, i)
    ensures Join(shards) == Prefix(data, |shards| * n)
  {
    hide Valid;
    if shards != [] {
      var i := |shards| - 1;
      NextShard(i, n);
      JoinIs(c, data, n, shards[..i]);
      PrefixMore(data, i * n, shards[i]);
    }
  }

  lemma PrefixMore(data: seq<Sym>, at: nat, shard: seq<Sym>)
    requires forall j :: 0 <= j < |shard| ==> shard[j] == At(data, at + j)
    ensures Prefix(data, at) + shard == Prefix(data, at + |shard|)
  {
    var whole := Prefix(data, at + |shard|);
    forall p | at <= p < at + |shard| ensures shard[p - at] == whole[p] {
      assert shard[p - at] == At(data, at + (p - at));
    }
  }

  lemma StripeConsistent(c: Code, data: seq<Sym>, n: nat)
    requires Valid(c)
    ensures forall s :: s in Shards(c, data, n) ==> |s| == n
    ensures Consistent(c, Shards(c, data, n), n)
  {
    var shards := Shards(c, data, n);
    forall j | 0 <= j < n ensures ColumnAt(shards, |shards|, j) == Word(c, ColumnAt(shards, c.k, j)) {
      assert ColumnAt(shards, c.k, j) == Col(data, c.k, n, j);
      assert ColumnAt(shards, |shards|, j) == Word(c, Col(data, c.k, n, j));
    }
  }

  lemma {:induction false} SliceLenIs(partial: seq<Option<seq<Sym>>>, n: nat)
    requires SameLen(partial, n) && Count(partial) > 0
    ensures SliceLen(partial) == n
  {
    CountIs(partial);
    if partial[0].None? {
      assert Present(partial) != {};
      var i :| i in Present(partial);
      assert partial[1..][i - 1] == partial[i];
      CountIs(partial[1..]);
      assert i - 1 in Present(partial[1..]);
      SliceLenIs(partial[1..], n);
    } else {
      assert partial[0] in partial;
    }
  }

  lemma RebuildStripe(c: Code, data: seq<Sym>, n: nat, partial: seq<Option<seq<Sym>>>)
    requires Valid(c) && Comes(c, data, n, partial, 0, n) && |Present(partial)| >= c.k
    ensures SameLen(partial, n) && SliceLen(partial) == n && Rebuild(c, partial, n) == Shards(c, data, n)
  {
    CountIs(partial);
    forall x | x in partial && x.Some? ensures |x.value| == n {
      var i :| 0 <= i < |partial| && partial[i] == x;
    }
    SliceLenIs(partial, n);
    RebuildIs(c, data, n, partial, 0, n);
    var shards := Rebuild(c, partial, n);
    forall i | 0 <= i < c.k + c.m ensures shards[i] == Shard(c, data, n, i) {
      assert Shard(c, data, n, i)[0..n] == Shard(c, data, n, i);
    }
  }

  /** Any k shards of a stripe decode to its data, zero-padded to the requested length, as far
      as the stripe reaches; fewer shards or a longer request are refused. */
  lemma DecodeIs(c: Code, data: seq<Sym>, n: nat, partial: seq<Option<seq<Sym>>>, len: nat)
    requires Valid(c) && 0 < n && Comes(c, data, n, partial, 0, n)
    ensures DecodeOf(c, partial, len) ==
            if |Present(partial)| < c.k || c.k * n < len then Err else Ok(Prefix(data, len))
  {
    hide Consistent, Join, Count, Comes, Present;
    ComesUsable(c, data, n, partial);
    CountIs(partial);
    if |Present(partial)| >= c.k {
      RebuildStripe(c, data, n, partial);
      StripeConsistent(c, data, n);
      JoinIs(c, data, n, Shards(c, data, n)[..c.k]);
      if len <= c.k * n {
        assert Prefix(data, c.k * n)[..len] == Prefix(data, len);
      }
    }
  }

  lemma ComesUsable(c: Code, data: seq<Sym>, n: nat, partial: seq<Option<seq<Sym>>>)
    requires Valid(c) && 0 < n && Comes(c, data, n, partial, 0, n)
    ensures |partial| == c.k + c.m && Usable(partial) == partial
  {
  }

  // ---------- quorum write ----------

  /** Which nodes the write of one shard reached, and which of those said so. */
  datatype Landing = Landing(landed: bool, acked: bool)

  /** Pushes shard i to replica i and acknowledges once k shards said they landed and the stripe
      is recorded.  Without a plan nothing is pushed. */
  method WriteDirect(c: Code, data: seq<Sym>, planned: bool, recorded: bool, nodes: seq<Landing>)
    returns (ok: bool, stored: seq<Option<seq<Sym>>>)
    requires Valid(c) && |nodes| == c.k + c.m && forall x :: x in nodes && x.acked ==> x.landed
    ensures |stored| == c.k + c.m
    ensures forall i :: 0 <= i < |stored| ==>
              stored[i] == if data != [] && planned && nodes[i].landed
                           then Some(Shard(c, data, ShardSize(|data|, c.k), i)) else None
    ensures ok <==> data != [] && planned && recorded && |Acked(nodes, |nodes|)| >= c.k
    ensures ok ==> |Present(stored)| >= c.k
  {
    hide Count, Present, Acked, Shard;
    ok, stored := false, seq(c.k + c.m, _ => None);
    NoneAcked(nodes);
    CountNone();
    var result := Encode(c, data);
    if result.Err? || !planned {
      return;
    }
    stored := [];
    var successes := 0;
    for i := 0 to |nodes|
      invariant |stored| == i && successes <= Count(stored)
      invariant successes == |Acked(nodes, i)|
      invariant forall x :: 0 <= x < i ==> stored[x] == if nodes[x].landed then Some(result.value[x]) else None
    {
      var shard := if nodes[i].landed then Some(result.value[i]) else None;
      assert nodes[i] in nodes;
      CountMore(stored, shard);
      stored := stored + [shard];
      AckedMore(nodes, i);
      if nodes[i].acked {
        successes := successes + 1;
      }
    }
    CountIs(stored);
    ok := successes >= c.k && recorded;
  }

  /** The nodes among the first n that acknowledged their shard. */
  ghost function Acked(nodes: seq<Landing>, n: nat): (r: set<int>)
    requires n <= |nodes|
    ensures n == 0 ==> r == {}
  {
    set i | 0 <= i < n && nodes[i].acked
  }

  lemma NoneAcked(nodes: seq<Landing>)
    ensures Acked(nodes, 0) == {}
  {
  }

  lemma CountNone()
    ensures Count([]) == 0
  {
  }

  lemma CountMore(partial: seq<Option<seq<Sym>>>, x: Option<seq<Sym>>)
    ensures Count(partial + [x]) == Count(partial) + (if x.Some? then 1 else 0)
  {
    assert (partial + [x])[..|partial|] == partial;
  }

  lemma AckedMore(nodes: seq<Landing>, i: nat)
    requires i < |nodes|
    ensures |Acked(nodes, i + 1)| == |Acked(nodes, i)| + (if nodes[i].acked then 1 else 0)
  {
    assert Acked(nodes, i + 1) == if nodes[i].acked then Acked(nodes, i) + {i} else Acked(nodes, i);
  }

  // ---------- full read ----------

  function MaxLen(partial: seq<Option<seq<Sym>>>): nat {
    if partial == [] then 0
    else
      var rest, last := MaxLen(partial[..|partial| - 1]), partial[|partial| - 1];
      if last.Some? && |last.value| > rest then |last.value| else rest
  }

  lemma {:induction false} MaxLenIs(partial: seq<Option<seq<Sym>>>, n: nat)
    requires SameLen(partial, n)
    ensures MaxLen(partial) == if Count(partial) == 0 then 0 else n
  {
    if partial != [] {
      var i := |partial| - 1;
      assert partial[i] in partial;
      forall x | x in partial[..i] ensures x in partial {
      }
      MaxLenIs(partial[..i], n);
    }
  }

  /** The range slicing of the full read. */
  function Cut(full: seq<Sym>, offset: int, length: int): seq<Sym> {
    var from := Max(offset, 0);
    var end := if 0 < length then Min(from + length, |full|) else |full|;
    if from >= |full| then [] else full[from..end]
  }

  /** The length to decode: what the shards imply, trimmed to a smaller recorded size. */
  function DecodeLen(padded: nat, recorded: int): nat { if 0 < recorded < padded then recorded else padded }

  lemma CutIs(data: seq<Sym>, padded: nat, recorded: int, offset: int, length: int)
    requires data != [] && |data| <= padded && (recorded <= 0 || |data| <= recorded)
    ensures var full := Prefix(data, DecodeLen(padded, recorded));
            && (0 <= offset && 0 < length && offset + length <= |data| ==>
                  Cut(full, offset, length) == data[offset..offset + length])
            && (offset <= 0 && length <= 0 && recorded == |data| ==> Cut(full, offset, length) == data)
  {
    var full := Prefix(data, DecodeLen(padded, recorded));
    assert full[..|data|] == data;
    if 0 <= offset && 0 < length && offset + length <= |data| {
      assert full[offset..offset + length] == data[offset..offset + length];
    }
  }

  /** Decodes whatever shards answered and cuts out the requested range.  Any k shards of the
      stripe give the written bytes of every range inside the data, whether the recorded size
      is the true length, unknown, or the larger allocation cap. */
  method ReadFull(c: Code, partial: seq<Option<seq<Sym>>>, recorded: int, offset: int, length: int,
                  ghost data: seq<Sym>)
    returns (r: Result<seq<Sym>>)
    requires Valid(c) && data != []
    requires var n := ShardSize(|data|, c.k); Comes(c, data, n, partial, 0, n)
    ensures r.Ok? <==> |Present(partial)| >= c.k
    ensures r.Ok? && 0 <= offset && 0 < length && offset + length <= |data| && (recorded <= 0 || |data| <= recorded) ==>
              r.value == data[offset..offset + length]
    ensures r.Ok? && offset <= 0 && length <= 0 && recorded == |data| ==> r.value == data
  {
    hide Comes, Present, DecodeOf, MaxLen, Cut, Prefix, Valid;
    ghost var n := ShardSize(|data|, c.k);
    var longest := LongestShard(partial);
    PartialLens(c, data, n, partial);
    var padded := longest * c.k;
    var decodeLen := DecodeLen(padded, recorded);
    var full := Decode(c, partial, decodeLen);
    DecodeIs(c, data, n, partial, decodeLen);
    if full.Err? {
      return Err;
    }
    r := Ok(Cut(full.value, offset, length));
    if recorded <= 0 || |data| <= recorded {
      CutIs(data, padded, recorded, offset, length);
    }
  }

  method LongestShard(partial: seq<Option<seq<Sym>>>) returns (longest: nat)
    ensures longest == MaxLen(partial)
  {
    longest := 0;
    for i := 0 to |partial|
      invariant longest == MaxLen(partial[..i])
    {
      assert partial[..i + 1][..i] == partial[..i];
      if partial[i].Some? && |partial[i].value| > longest {
        longest := |partial[i].value|;
      }
    }
    assert partial[..|partial|] == partial;
  }

  lemma PartialLens(c: Code, data: seq<Sym>, n: nat, partial: seq<Option<seq<Sym>>>)
    requires Valid(c) && Comes(c, data, n, partial, 0, n)
    ensures |Present(partial)| >= c.k ==> MaxLen(partial) == n
  {
    if |Present(partial)| >= c.k {
      CountIs(partial);
      RebuildStripe(c, data, n, partial);
      MaxLenIs(partial, n);
    }
  }

  /** The shards that answer a read. */
  function Answering(stored: seq<Option<seq<Sym>>>, up: set<int>): (r: seq<Option<seq<Sym>>>)
    ensures |r| == |stored| && forall i :: 0 <= i < |r| ==> r[i] == if i in up then stored[i] else None
  {
    seq(|stored|, i requires 0 <= i < |stored| => if i in up then stored[i] else None)
  }

  /** An acknowledged write: every later full read that reaches at least k of the landed shards
      returns the written bytes, for every range inside the data. */
  method WriteThenRead(c: Code, data: seq<Sym>, planned: bool, recorded: bool, nodes: seq<Landing>,
                       up: set<int>, size: int, offset: int, length: int)
    returns (ok: bool, r: Result<seq<Sym>>)
    requires Valid(c) && |nodes| == c.k + c.m && forall x :: x in nodes && x.acked ==> x.landed
    requires size <= 0 || |data| <= size
    ensures ok <==> data != [] && planned && recorded && |Acked(nodes, |nodes|)| >= c.k
    ensures ok && |set i | i in up && 0 <= i < |nodes| && nodes[i].landed| >= c.k ==>
              r.Ok? && (0 <= offset && 0 < length && offset + length <= |data| ==> r.value == data[offset..offset + length])
    ensures ok ==> |set i | 0 <= i < |nodes| && nodes[i].landed| >= c.k
  {
    hide AnyKDetermine, Solves;
    var stored;
    ok, stored := WriteDirect(c, data, planned, recorded, nodes);
    r := Err;
    if ok {
      assert Present(stored) == set i | 0 <= i < |nodes| && nodes[i].landed;
      var partial := Answering(stored, up);
      AnsweringComes(c, data, ShardSize(|data|, c.k), stored, up);
      assert Present(partial) == set i | i in up && 0 <= i < |nodes| && nodes[i].landed;
      r := ReadFull(c, partial, size, offset, length, data);
    }
  }

  lemma AnsweringComes(c: Code, data: seq<Sym>, n: nat, stored: seq<Option<seq<Sym>>>, up: set<int>)
    requires Valid(c) && |stored| == c.k + c.m
    requires forall i :: 0 <= i < |stored| ==> stored[i] == None || stored[i] == Some(Shard(c, data, n, i))
    ensures Comes(c, data, n, Answering(stored, up), 0, n)
  {
    forall i | 0 <= i < c.k + c.m ensures Shard(c, data, n, i)[0..n] == Shard(c, data, n, i) {
    }
  }
}
