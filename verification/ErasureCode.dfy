/**
 The Reed-Solomon primitive as a per-column code: k data bytes determine m parity bytes, and
 any k bytes of a column determine the rest.  Everything the chunk store and the data nodes
 do with it works column by column.
 */
module ErasureCode {
  import opened Bytes

  type Sym = bv8

  datatype Code = Code(
    k: nat,
    m: nat,
    parity: seq<Sym> -> seq<Sym>,
    solve: seq<Option<Sym>> -> seq<Sym>)

  /** One column of a stripe: the data bytes followed by the parity bytes. */
  function Word(c: Code, data: seq<Sym>): seq<Sym> { data + c.parity(data) }

  /** The positions at which a partial column has a byte. */
  function Present<T>(partial: seq<Option<T>>): set<int> {
    set i | 0 <= i < |partial| && partial[i].Some?
  }

  ghost predicate Agrees(partial: seq<Option<Sym>>, word: seq<Sym>) {
    |partial| == |word| && forall i :: 0 <= i < |word| && partial[i].Some? ==> partial[i].value == word[i]
  }

  /** Two columns with at least k bytes in common are the same column. */
  ghost predicate AnyKDetermine(c: Code) {
    forall d, e, S: set<int> :: |d| == c.k && |e| == c.k && |S| >= c.k && Common(Word(c, d), Word(c, e), S) ==> d == e
  }

  ghost predicate Common(x: seq<Sym>, y: seq<Sym>, S: set<int>) {
    |x| == |y| && forall i :: i in S ==> 0 <= i < |x| && x[i] == y[i]
  }

  /** The solver completes any partial column with at least k bytes of some column. */
  ghost predicate Solves(c: Code) {
    forall partial, d ::
      |d| == c.k && |Present(partial)| >= c.k && Agrees(partial, Word(c, d)) ==>
      exists e :: |e| == c.k && c.solve(partial) == Word(c, e) && Agrees(partial, Word(c, e))
  }

  ghost predicate Valid(c: Code) {
    && 0 < c.k
    && (forall d :: |d| == c.k ==> |c.parity(d)| == c.m)
    && AnyKDetermine(c)
    && Solves(c)
  }

  /** Solving a partial column gives back the column it came from. */
  lemma {:induction false} SolveIs(c: Code, partial: seq<Option<Sym>>, d: seq<Sym>)
    requires Valid(c) && |d| == c.k && |Present(partial)| >= c.k && Agrees(partial, Word(c, d))
    ensures c.solve(partial) == Word(c, d)
  {
    var e :| |e| == c.k && c.solve(partial) == Word(c, e) && Agrees(partial, Word(c, e));
    assert Common(Word(c, d), Word(c, e), Present(partial));
  }

  // ---------- one instance: a single exclusive-or parity byte ----------

  function Xor(s: seq<Sym>): Sym {
    if s == [] then 0 else Xor(s[..|s| - 1]) ^ s[|s| - 1]
  }

  lemma {:induction false} XorUpdate(s: seq<Sym>, i: nat, x: Sym)
    requires i < |s|
    ensures Xor(s[i := x]) == Xor(s) ^ s[i] ^ x
  {
    var n := |s| - 1;
    if i == n {
      assert s[i := x][..n] == s[..n];
    } else {
      assert s[i := x][..n] == s[..n][i := x];
      XorUpdate(s[..n], i, x);
      XorMoves(Xor(s[..n]), s[i], x, s[n]);
    }
  }

  lemma XorMoves(a: Sym, b: Sym, c: Sym, d: Sym)
    ensures a ^ b ^ c ^ d == a ^ d ^ b ^ c
  {
  }

  lemma XorCancels(a: Sym, b: Sym, c: Sym)
    requires a ^ b ^ c == a
    ensures b == c
  {
  }

  function XorParity(s: seq<Sym>): seq<Sym> { [Xor(s)] }

  /** The data bytes of a partial column, unknown ones as zero. */
  function Zeroed(partial: seq<Option<Sym>>, n: nat): (z: seq<Sym>)
    requires n <= |partial|
    ensures |z| == n && forall i :: 0 <= i < n ==> z[i] == if partial[i].Some? then partial[i].value else 0
  {
    seq(n, i requires 0 <= i < n => if partial[i].Some? then partial[i].value else 0)
  }

  /** Fill the one unknown data byte, if there is one, from the parity byte. */
  function XorSolve(partial: seq<Option<Sym>>): seq<Sym> {
    if |partial| == 0 then []
    else
      var n := |partial| - 1;
      var zeroed, hole := Zeroed(partial, n), Hole(partial, n);
      var filled := if hole < n && partial[n].Some? then zeroed[hole := Xor(zeroed) ^ partial[n].value] else zeroed;
      filled + XorParity(filled)
  }

  /** The first position without a byte. */
  function Hole(partial: seq<Option<Sym>>, n: nat): (h: nat)
    requires n <= |partial|
    ensures h <= n && (h < n ==> partial[h].None?)
    ensures forall i :: 0 <= i < h ==> partial[i].Some?
  {
    if n == 0 then 0
    else
      var h := Hole(partial, n - 1);
      if h < n - 1 || partial[n - 1].None? then h else n
  }

  function XorCode(k: nat): Code { Code(k, 1, XorParity, XorSolve) }

  function Upto(n: nat): (s: set<int>)
    ensures forall i :: i in s <==> 0 <= i < n
    ensures |s| == n
  {
    if n == 0 then {} else Upto(n - 1) + {n - 1}
  }

  /** k positions out of k + 1 that leave one out contain all the others. */
  lemma AllButOne(S: set<int>, k: nat, i: int)
    requires S <= Upto(k + 1) && |S| >= k && i in Upto(k + 1) && i !in S
    ensures S == Upto(k + 1) - {i}
  {
    var rest := Upto(k + 1) - {i} - S;
    assert Upto(k + 1) - {i} == S + rest;
    assert |rest| == 0;
  }

  lemma XorDetermines(k: nat, d: seq<Sym>, e: seq<Sym>, S: set<int>)
    requires |d| == k && |e| == k && |S| >= k && Common(Word(XorCode(k), d), Word(XorCode(k), e), S)
    ensures d == e
  {
    var x, y := Word(XorCode(k), d), Word(XorCode(k), e);
    forall i | 0 <= i < k ensures d[i] == e[i] {
      if i !in S {
        assert S <= Upto(k + 1);
        AllButOne(S, k, i);
        assert k in S && x[k] == y[k];
        forall j | 0 <= j < k && j != i ensures d[j] == e[j] {
          assert j in S && x[j] == y[j];
        }
        assert e == d[i := e[i]];
        XorUpdate(d, i, e[i]);
        XorCancels(Xor(d), d[i], e[i]);
      } else {
        assert x[i] == y[i];
      }
    }
  }

  lemma XorSolves(k: nat, partial: seq<Option<Sym>>, d: seq<Sym>)
    requires |d| == k && |Present(partial)| >= k && Agrees(partial, Word(XorCode(k), d))
    ensures XorSolve(partial) == Word(XorCode(k), d)
  {
    var zeroed, h := Zeroed(partial, k), Hole(partial, k);
    if h == k {
      assert zeroed == d;
    } else {
      OnlyHole(k, partial, h);
      assert zeroed == d[h := 0];
      XorUpdate(d, h, 0);
      XorFills(Xor(d), d[h]);
      assert zeroed[h := d[h]] == d;
    }
  }

  lemma OnlyHole(k: nat, partial: seq<Option<Sym>>, h: nat)
    requires |partial| == k + 1 && |Present(partial)| >= k && h < k && partial[h].None?
    ensures forall j :: 0 <= j <= k && j != h ==> partial[j].Some?
  {
    assert Present(partial) <= Upto(k + 1);
    AllButOne(Present(partial), k, h);
    forall j | 0 <= j <= k && j != h ensures partial[j].Some? {
      assert j in Present(partial);
    }
  }

  lemma XorFills(x: Sym, b: Sym)
    ensures x ^ b ^ 0 ^ x == b
  {
  }

  /** The instance meets the contract of the primitive, for any number of data shards. */
  lemma XorCodeValid(k: nat)
    requires 0 < k
    ensures Valid(XorCode(k))
  {
    var c := XorCode(k);
    forall d, e, S: set<int> | |d| == c.k && |e| == c.k && |S| >= c.k && Common(Word(c, d), Word(c, e), S)
      ensures d == e
    {
      XorDetermines(k, d, e, S);
    }
    forall partial, d | |d| == c.k && |Present(partial)| >= c.k && Agrees(partial, Word(c, d))
      ensures exists e :: |e| == c.k && c.solve(partial) == Word(c, e) && Agrees(partial, Word(c, e))
    {
      XorSolves(k, partial, d);
    }
  }
}
