/**
 Stripes: data split into k contiguous shards, padded with zeros, plus m parity shards, and
 the reconstruction of missing shards, all column by column.
 */
module ErasureStripe {
  import opened Bytes
  import opened ErasureCode

  /** The byte of the zero-padded data at position p. */
  function At(data: seq<Sym>, p: int): Sym { if 0 <= p < |data| then data[p] else 0 }

  /** Column j of the data: one byte from each of the k shards of size n. */
  function Col(data: seq<Sym>, k: nat, n: nat, j: int): (r: seq<Sym>)
    ensures |r| == k && forall i :: 0 <= i < k ==> r[i] == At(data, i * n + j)
  {
    seq(k, i requires 0 <= i < k => At(data, i * n + j))
  }

  /** Shard i of the stripe of `data` with shard size n. */
  ghost function Shard(c: Code, data: seq<Sym>, n: nat, i: nat): (r: seq<Sym>)
    requires Valid(c) && i < c.k + c.m
    ensures |r| == n && forall j :: 0 <= j < n ==> r[j] == Word(c, Col(data, c.k, n, j))[i]
    ensures i < c.k ==> forall j :: 0 <= j < n ==> r[j] == At(data, i * n + j)
  {
    seq(n, j requires 0 <= j < n => Word(c, Col(data, c.k, n, j))[i])
  }

  ghost function Shards(c: Code, data: seq<Sym>, n: nat): (r: seq<seq<Sym>>)
    requires Valid(c)
    ensures |r| == c.k + c.m && forall i :: 0 <= i < c.k + c.m ==> r[i] == Shard(c, data, n, i)
  {
    seq(c.k + c.m, i requires 0 <= i < c.k + c.m => Shard(c, data, n, i))
  }

  // ---------- reconstruction ----------

  /** The bytes at position j of the shards that are there. */
  function ColumnOf(partial: seq<Option<seq<Sym>>>, j: nat): (r: seq<Option<Sym>>)
    ensures |r| == |partial|
    ensures forall i :: 0 <= i < |r| ==>
              r[i] == if partial[i].Some? && j < |partial[i].value| then Some(partial[i].value[j]) else None
  {
    seq(|partial|, i requires 0 <= i < |partial| =>
      if partial[i].Some? && j < |partial[i].value| then Some(partial[i].value[j]) else None)
  }

  /** The library's Reconstruct: missing shards are filled in from the solved columns, shards
      that are there stay as they are. */
  function Rebuild(c: Code, partial: seq<Option<seq<Sym>>>, n: nat): (r: seq<seq<Sym>>)
    ensures |r| == |partial|
    ensures forall i :: 0 <= i < |r| ==>
              r[i] == if partial[i].Some? then partial[i].value else Solved(c, partial, n, i)
  {
    seq(|partial|, i requires 0 <= i < |partial| =>
      if partial[i].Some? then partial[i].value else Solved(c, partial, n, i))
  }

  function Solved(c: Code, partial: seq<Option<seq<Sym>>>, n: nat, i: nat): (r: seq<Sym>)
    ensures |r| == n
    ensures forall j :: 0 <= j < n ==>
              r[j] == var w := c.solve(ColumnOf(partial, j)); if i < |w| then w[i] else 0
  {
    seq(n, j requires 0 <= j < n => var w := c.solve(ColumnOf(partial, j)); if i < |w| then w[i] else 0)
  }

  /** The window [s, e) of every shard that is there. */
  function Window(partial: seq<Option<seq<Sym>>>, s: nat, e: nat): (r: seq<Option<seq<Sym>>>)
    requires s <= e && forall x :: x in partial && x.Some? ==> e <= |x.value|
    ensures |r| == |partial|
    ensures forall i :: 0 <= i < |r| ==> r[i] == if partial[i].Some? then Some(partial[i].value[s..e]) else None
  {
    seq(|partial|, i requires 0 <= i < |partial| => if partial[i].Some? then Some(partial[i].value[s..e]) else None)
  }

  /** Reconstructing only a window gives the window of the full reconstruction, whatever the
      shards hold. */
  lemma WindowedRebuild(c: Code, partial: seq<Option<seq<Sym>>>, n: nat, s: nat, e: nat, i: nat)
    requires s <= e <= n && i < |partial| && forall x :: x in partial && x.Some? ==> |x.value| == n
    ensures Rebuild(c, Window(partial, s, e), e - s)[i] == Rebuild(c, partial, n)[i][s..e]
  {
    var small := Window(partial, s, e);
    if partial[i].None? {
      forall j | 0 <= j < e - s ensures Solved(c, small, e - s, i)[j] == Solved(c, partial, n, i)[s..e][j] {
        forall x | 0 <= x < |partial| ensures ColumnOf(small, j)[x] == ColumnOf(partial, s + j)[x] {
          assert partial[x] in partial;
        }
        assert ColumnOf(small, j) == ColumnOf(partial, s + j);
        assert Solved(c, partial, n, i)[s..e][j] == Solved(c, partial, n, i)[s + j];
      }
      assert Solved(c, small, e - s, i) == Solved(c, partial, n, i)[s..e];
    }
  }

  /** `partial` holds the window [s, e) of some shards of the stripe. */
  ghost predicate Comes(c: Code, data: seq<Sym>, n: nat, partial: seq<Option<seq<Sym>>>, s: nat, e: nat)
    requires Valid(c) && s <= e <= n
  {
    && |partial| == c.k + c.m
    && forall i :: 0 <= i < |partial| && partial[i].Some? ==> partial[i].value == Shard(c, data, n, i)[s..e]
  }

  lemma ColumnComes(c: Code, data: seq<Sym>, n: nat, partial: seq<Option<seq<Sym>>>, s: nat, e: nat, j: nat)
    requires Valid(c) && s <= e <= n && Comes(c, data, n, partial, s, e) && j < e - s
    requires |Present(partial)| >= c.k
    ensures c.solve(ColumnOf(partial, j)) == Word(c, Col(data, c.k, n, s + j))
  {
    var column, d := ColumnOf(partial, j), Col(data, c.k, n, s + j);
    assert Present(column) == Present(partial) by {
      forall i | 0 <= i < |partial| ensures column[i].Some? == partial[i].Some? {
      }
    }
    forall i | 0 <= i < |column| && column[i].Some? ensures column[i].value == Word(c, d)[i] {
      assert Shard(c, data, n, i)[s..e][j] == Shard(c, data, n, i)[s + j];
    }
    SolveIs(c, column, d);
  }

  /** Any k shards rebuild every shard, on any window. */
  lemma {:induction false} RebuildIs(c: Code, data: seq<Sym>, n: nat, partial: seq<Option<seq<Sym>>>, s: nat, e: nat)
    requires Valid(c) && s <= e <= n && Comes(c, data, n, partial, s, e)
    requires |Present(partial)| >= c.k
    ensures forall i :: 0 <= i < c.k + c.m ==> Rebuild(c, partial, e - s)[i] == Shard(c, data, n, i)[s..e]
  {
    forall i | 0 <= i < c.k + c.m ensures Rebuild(c, partial, e - s)[i] == Shard(c, data, n, i)[s..e] {
      if partial[i].None? {
        forall j | 0 <= j < e - s ensures Solved(c, partial, e - s, i)[j] == Shard(c, data, n, i)[s..e][j] {
          ColumnComes(c, data, n, partial, s, e, j);
          assert Shard(c, data, n, i)[s..e][j] == Shard(c, data, n, i)[s + j];
        }
        assert Solved(c, partial, e - s, i) == Shard(c, data, n, i)[s..e];
      }
    }
  }
}
