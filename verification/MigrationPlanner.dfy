/**
 The cluster migration planner: overloaded nodes give chunks to underloaded ones, down to and
 up to the average, within a cap on the number of moves.  The floating-point imbalance
 verdict is a parameter.
 */
module MigrationPlanner {
  import opened Bytes

  datatype Load = Load(id: nat, count: nat)

  datatype Move = Move(source: nat, target: nat)

  datatype Assigned = Assigned(source: nat, target: nat, chunk: nat)

  function Total(loads: seq<Load>): nat {
    if loads == [] then 0 else Total(loads[..|loads| - 1]) + loads[|loads| - 1].count
  }

  /** Chunks per node, rounded down. */
  function Average(loads: seq<Load>): nat
    requires loads != []
  {
    Total(loads) / |loads|
  }

  function MaxMoves(loads: seq<Load>): nat { Max(Total(loads) / 10, 1) }

  predicate Overloaded(l: Load, avg: nat) { l.count > avg * 110 / 100 }

  predicate Underloaded(l: Load, avg: nat) { l.count < avg * 90 / 100 }

  /** What the overloaded nodes hold above the average between them. */
  function Excess(loads: seq<Load>, avg: nat): int {
    if loads == [] then 0
    else
      var l := loads[|loads| - 1];
      Excess(loads[..|loads| - 1], avg) + (if Overloaded(l, avg) then l.count - avg else 0)
  }

  /** What the underloaded nodes lack to the average between them. */
  function Space(loads: seq<Load>, avg: nat): int {
    if loads == [] then 0
    else
      var l := loads[|loads| - 1];
      Space(loads[..|loads| - 1], avg) + (if Underloaded(l, avg) then avg - l.count else 0)
  }

  function Outgoing(plans: seq<Move>, id: nat): nat {
    if plans == [] then 0
    else Outgoing(plans[..|plans| - 1], id) + (if plans[|plans| - 1].source == id then 1 else 0)
  }

  function Incoming(plans: seq<Move>, id: nat): nat {
    if plans == [] then 0
    else Incoming(plans[..|plans| - 1], id) + (if plans[|plans| - 1].target == id then 1 else 0)
  }

  function Repeat(m: Move, n: nat): (r: seq<Move>)
    ensures |r| == n && forall i :: 0 <= i < n ==> r[i] == m
  {
    seq(n, _ => m)
  }

  lemma {:induction false} RepeatCounts(plans: seq<Move>, m: Move, n: nat, id: nat)
    ensures Outgoing(plans + Repeat(m, n), id) == Outgoing(plans, id) + (if m.source == id then n else 0)
    ensures Incoming(plans + Repeat(m, n), id) == Incoming(plans, id) + (if m.target == id then n else 0)
  {
    if n == 0 {
      assert plans + Repeat(m, 0) == plans;
    } else {
      RepeatCounts(plans, m, n - 1, id);
      assert (plans + Repeat(m, n))[..|plans| + n - 1] == plans + Repeat(m, n - 1);
    }
  }

  /** Applying the moves takes no source below the average, lifts no target above it, and no
      node is both. */
  ghost predicate Sound(loads: seq<Load>, avg: nat, plans: seq<Move>) {
    forall i :: 0 <= i < |loads| ==>
      var out, inc := Outgoing(plans, loads[i].id), Incoming(plans, loads[i].id);
      && (0 < out ==> inc == 0 && Overloaded(loads[i], avg) && avg <= loads[i].count - out)
      && (0 < inc ==> out == 0 && Underloaded(loads[i], avg) && loads[i].count + inc <= avg)
  }

  ghost predicate DistinctIds(loads: seq<Load>) {
    forall i, j :: 0 <= i < j < |loads| ==> loads[i].id != loads[j].id
  }

  /** The moves of one source follow each other. */
  ghost predicate Runs(plans: seq<Move>) {
    forall i, j, k :: 0 <= i < j < k < |plans| && plans[i].source == plans[k].source ==> plans[j].source == plans[i].source
  }

  lemma ThresholdsBracket(avg: nat)
    ensures avg * 90 / 100 <= avg <= avg * 110 / 100
  {
  }

  lemma NoSums(avg: nat)
    ensures Excess([], avg) == 0 && Space([], avg) == 0
  {
  }

  lemma SumsMore(loads: seq<Load>, l: Load, avg: nat)
    ensures Excess(loads + [l], avg) == Excess(loads, avg) + (if Overloaded(l, avg) then l.count - avg else 0)
    ensures Space(loads + [l], avg) == Space(loads, avg) + (if Underloaded(l, avg) then avg - l.count else 0)
  {
    assert (loads + [l])[..|loads|] == loads;
  }

  /** The overloaded and the underloaded nodes, in the given order. */
  method Classify(loads: seq<Load>, avg: nat) returns (over: seq<Load>, under: seq<Load>)
    requires DistinctIds(loads)
    ensures DistinctIds(over) && DistinctIds(under)
    ensures forall l :: l in over <==> l in loads && Overloaded(l, avg)
    ensures forall l :: l in under <==> l in loads && Underloaded(l, avg)
    ensures Excess(over, avg) == Excess(loads, avg) && Space(under, avg) == Space(loads, avg)
  {
    hide Excess, Space;
    ThresholdsBracket(avg);
    NoSums(avg);
    assert loads[..0] == [];
    over, under := [], [];
    for i := 0 to |loads|
      invariant DistinctIds(over) && DistinctIds(under)
      invariant forall l :: l in over <==> l in loads[..i] && Overloaded(l, avg)
      invariant forall l :: l in under <==> l in loads[..i] && Underloaded(l, avg)
      invariant Excess(over, avg) == Excess(loads[..i], avg) && Space(under, avg) == Space(loads[..i], avg)
    {
      var l := loads[i];
      assert loads[..i + 1] == loads[..i] + [l];
      SumsMore(loads[..i], l, avg);
      SumsMore(over, l, avg);
      SumsMore(under, l, avg);
      assert forall x :: x in loads[..i] ==> x.id != l.id;
      assert forall j :: 0 <= j < |over| ==> over[j] in over;
      assert forall j :: 0 <= j < |under| ==> under[j] in under;
      if l.count > avg * 110 / 100 {
        over := over + [l];
      } else if l.count < avg * 90 / 100 {
        under := under + [l];
      }
    }
    assert loads[..|loads|] == loads;
  }

  ghost predicate HasId(loads: seq<Load>, id: nat) { exists i :: 0 <= i < |loads| && loads[i].id == id }

  /** The running target counts: what each target had plus what the moves so far bring, at most
      the average; nothing else receives. */
  ghost predicate Targets(under: seq<Load>, counts: seq<nat>, plans: seq<Move>, avg: nat) {
    && |counts| == |under|
    && (forall t :: 0 <= t < |under| ==> counts[t] == under[t].count + Incoming(plans, under[t].id) && counts[t] <= avg)
    && (forall x :: 0 < Incoming(plans, x) ==> HasId(under, x))
  }

  /** `after` adds moves out of `source` only. */
  ghost predicate Adds(plans: seq<Move>, after: seq<Move>, source: nat) {
    |plans| <= |after| && after[..|plans|] == plans && forall i :: |plans| <= i < |after| ==> after[i].source == source
  }

  lemma {:induction false} AddsCounts(plans: seq<Move>, after: seq<Move>, source: nat, id: nat)
    requires Adds(plans, after, source)
    ensures Outgoing(after, id) == Outgoing(plans, id) + (if source == id then |after| - |plans| else 0)
  {
    if |after| == |plans| {
      assert after == plans;
    } else {
      var init := after[..|after| - 1];
      assert init[..|plans|] == plans;
      AddsCounts(plans, init, source, id);
    }
  }

  lemma TargetsMore(under: seq<Load>, counts: seq<nat>, plans: seq<Move>, avg: nat, t: nat, source: nat, n: nat)
    requires DistinctIds(under) && Targets(under, counts, plans, avg) && t < |under| && counts[t] + n <= avg
    ensures Targets(under, counts[t := counts[t] + n], plans + Repeat(Move(source, under[t].id), n), avg)
  {
    var m := Move(source, under[t].id);
    forall x ensures Incoming(plans + Repeat(m, n), x) == Incoming(plans, x) + (if m.target == x then n else 0) {
      RepeatCounts(plans, m, n, x);
    }
    assert HasId(under, under[t].id);
  }

  /** How much the targets can still take. */
  function Remaining(counts: seq<nat>, avg: nat): int {
    if counts == [] then 0 else Remaining(counts[..|counts| - 1], avg) + avg - counts[|counts| - 1]
  }

  lemma {:induction false} RemainingLess(counts: seq<nat>, avg: nat, t: nat, n: nat)
    requires t < |counts|
    ensures Remaining(counts[t := counts[t] + n], avg) == Remaining(counts, avg) - n
  {
    var init, after := counts[..|counts| - 1], counts[t := counts[t] + n];
    if t == |counts| - 1 {
      assert after[..|counts| - 1] == init;
    } else {
      RemainingLess(init, avg, t, n);
      assert after[..|counts| - 1] == init[t := init[t] + n];
    }
  }

  lemma {:induction false} RemainingBound(counts: seq<nat>, avg: nat)
    requires forall t :: 0 <= t < |counts| ==> counts[t] <= avg
    ensures 0 <= Remaining(counts, avg)
    ensures (forall t :: 0 <= t < |counts| ==> counts[t] == avg) ==> Remaining(counts, avg) == 0
  {
    if counts != [] {
      RemainingBound(counts[..|counts| - 1], avg);
    }
  }

  /** The targets before `n` are full. */
  predicate Filled(counts: seq<nat>, n: nat, avg: nat) {
    n <= |counts| && forall t :: 0 <= t < n ==> counts[t] == avg
  }

  /** Drains one overloaded node into the targets from underIdx on: by its excess, by what the
      targets can still take or by what the cap leaves, whichever is least. */
  method Drain(over: Load, under: seq<Load>, counts: seq<nat>, underIdx: nat, plans: seq<Move>, avg: nat, cap: nat)
    returns (counts': seq<nat>, underIdx': nat, plans': seq<Move>)
    requires DistinctIds(under) && Targets(under, counts, plans, avg)
    requires avg < over.count && Filled(counts, underIdx, avg) && |plans| <= cap
    ensures Targets(under, counts', plans', avg) && Filled(counts', underIdx', avg)
    ensures Adds(plans, plans', over.id)
    ensures |plans'| - |plans| == Min(over.count - avg, Min(Remaining(counts, avg), cap - |plans|))
    ensures Remaining(counts', avg) == Remaining(counts, avg) - (|plans'| - |plans|)
  {
    hide Targets, Remaining;
    counts', underIdx', plans' := counts, underIdx, plans;
    var excess := over.count - avg;
    TargetsShape(under, counts', plans', avg);
    while excess > 0 && underIdx' < |under| && |plans'| < cap
      invariant Targets(under, counts', plans', avg) && |counts'| == |under|
      invariant Filled(counts', underIdx', avg) && |plans'| <= cap
      invariant Remaining(counts', avg) == Remaining(counts, avg) - (|plans'| - |plans|)
      invariant Adds(plans, plans', over.id) && 0 <= excess && |plans'| - |plans| == over.count - avg - excess
      decreases |under| - underIdx', excess
    {
      var space := avg - counts'[underIdx'];
      TargetsShape(under, counts', plans', avg);
      if space <= 0 {
        underIdx' := underIdx' + 1;
      } else {
        var move := Min(Min(excess, space), cap - |plans'|);
        TargetsMore(under, counts', plans', avg, underIdx', over.id, move);
        RemainingLess(counts', avg, underIdx', move);
        plans' := plans' + Repeat(Move(over.id, under[underIdx'].id), move);
        excess := excess - move;
        counts' := counts'[underIdx' := counts'[underIdx'] + move];
      }
    }
    TargetsShape(under, counts', plans', avg);
  }

  lemma TargetsShape(under: seq<Load>, counts: seq<nat>, plans: seq<Move>, avg: nat)
    requires Targets(under, counts, plans, avg)
    ensures |counts| == |under| && forall t :: 0 <= t < |counts| ==> counts[t] <= avg
    ensures 0 <= Remaining(counts, avg)
    ensures Filled(counts, |counts|, avg) ==> Remaining(counts, avg) == 0
  {
    RemainingBound(counts, avg);
  }

  /** One of the first n overloaded nodes. */
  ghost predicate Drained(over: seq<Load>, n: nat, id: nat)
    requires n <= |over|
  {
    exists j :: 0 <= j < n && over[j].id == id
  }

  /** The first n overloaded nodes gave no more than their excess, and only they gave. */
  ghost predicate Sources(over: seq<Load>, n: nat, plans: seq<Move>, avg: nat)
    requires n <= |over|
  {
    && (forall j :: 0 <= j < n ==> Outgoing(plans, over[j].id) + avg <= over[j].count)
    && (forall i :: 0 <= i < |plans| ==> Drained(over, n, plans[i].source))
    && Runs(plans)
  }

  lemma {:induction false} OutgoingSource(plans: seq<Move>, id: nat)
    ensures 0 < Outgoing(plans, id) <==> exists i :: 0 <= i < |plans| && plans[i].source == id
  {
    if plans != [] {
      var init := plans[..|plans| - 1];
      OutgoingSource(init, id);
      if i :| 0 <= i < |plans| && plans[i].source == id {
        assert i < |init| ==> init[i].source == id;
      }
    }
  }

  lemma SourcesMore(over: seq<Load>, n: nat, plans: seq<Move>, after: seq<Move>, avg: nat)
    requires n < |over| && DistinctIds(over) && Sources(over, n, plans, avg)
    requires Adds(plans, after, over[n].id) && |after| - |plans| <= over[n].count - avg
    ensures Sources(over, n + 1, after, avg)
  {
    forall i | 0 <= i < |plans| ensures plans[i].source != over[n].id {
      assert Drained(over, n, plans[i].source);
    }
    OutgoingSource(plans, over[n].id);
    forall j | 0 <= j < n + 1 ensures Outgoing(after, over[j].id) + avg <= over[j].count {
      AddsCounts(plans, after, over[n].id, over[j].id);
    }
    forall i | 0 <= i < |after| ensures Drained(over, n + 1, after[i].source) {
      if i < |plans| {
        assert after[i] == plans[i];
        assert Drained(over, n, plans[i].source);
      } else {
        assert over[n].id == after[i].source;
      }
    }
    assert forall i :: 0 <= i < |plans| ==> after[i] == plans[i];
  }

  lemma PlansSound(loads: seq<Load>, over: seq<Load>, under: seq<Load>, counts: seq<nat>, plans: seq<Move>, avg: nat)
    requires DistinctIds(loads)
    requires forall l :: l in over <==> l in loads && Overloaded(l, avg)
    requires forall l :: l in under <==> l in loads && Underloaded(l, avg)
    requires Targets(under, counts, plans, avg) && Sources(over, |over|, plans, avg)
    ensures Sound(loads, avg, plans)
  {
    ThresholdsBracket(avg);
    forall i | 0 <= i < |loads|
      ensures var out, inc := Outgoing(plans, loads[i].id), Incoming(plans, loads[i].id);
              && (0 < out ==> Overloaded(loads[i], avg) && out + avg <= loads[i].count)
              && (0 < inc ==> Underloaded(loads[i], avg) && loads[i].count + inc <= avg)
    {
      var id := loads[i].id;
      OutgoingSource(plans, id);
      if 0 < Outgoing(plans, id) {
        var k :| 0 <= k < |plans| && plans[k].source == id;
        assert Drained(over, |over|, id);
        var j :| 0 <= j < |over| && over[j].id == id;
        assert over[j] in over && over[j] == loads[i];
      }
      if 0 < Incoming(plans, id) {
        assert HasId(under, id);
        var t :| 0 <= t < |under| && under[t].id == id;
        assert under[t] in under && under[t] == loads[i];
      }
    }
  }

  /** Drains the overloaded nodes one after the other. */
  method DrainAll(over: seq<Load>, under: seq<Load>, avg: nat, cap: nat) returns (plans: seq<Move>, ghost counts: seq<nat>)
    requires DistinctIds(over) && DistinctIds(under)
    requires (forall l :: l in over ==> Overloaded(l, avg)) && (forall l :: l in under ==> Underloaded(l, avg))
    ensures Targets(under, counts, plans, avg) && Sources(over, |over|, plans, avg)
    ensures |plans| == Min(cap, Min(Excess(over, avg), Space(under, avg)))
  {
    hide Targets, Sources, Excess, Space, Remaining, Adds;
    ThresholdsBracket(avg);
    NoSums(avg);
    plans := [];
    var now: seq<nat> := seq(|under|, i requires 0 <= i < |under| => under[i].count);
    StartTargets(under, now, avg);
    StartSources(over, avg);
    StartRemaining(under, now, avg);
    assert over[..0] == [];
    var underIdx := 0;
    for o := 0 to |over|
      invariant Targets(under, now, plans, avg) && Sources(over, o, plans, avg)
      invariant Filled(now, underIdx, avg) && 0 <= Excess(over[..o], avg)
      invariant |plans| == Min(cap, Min(Excess(over[..o], avg), Space(under, avg)))
      invariant Remaining(now, avg) + |plans| == Space(under, avg)
    {
      assert over[o] in over;
      assert over[..o + 1] == over[..o] + [over[o]];
      SumsMore(over[..o], over[o], avg);
      ghost var before := plans;
      now, underIdx, plans := Drain(over[o], under, now, underIdx, plans, avg, cap);
      SourcesMore(over, o, before, plans, avg);
    }
    assert over[..|over|] == over;
    counts := now;
  }

  /** Plans the moves for the online nodes, in whatever order they are sorted; nothing is planned
      for a cluster that is balanced or has fewer than two nodes.  The number of moves is the
      least of the cap, the total excess and the total space. */
  method PlanRebalance(loads: seq<Load>, balanced: bool) returns (plans: seq<Move>)
    requires DistinctIds(loads)
    ensures |loads| < 2 || balanced ==> plans == []
    ensures loads != [] ==> Sound(loads, Average(loads), plans)
    ensures |plans| <= MaxMoves(loads) && 10 * |plans| <= Max(Total(loads), 10) && Runs(plans)
    ensures 2 <= |loads| && !balanced ==>
              |plans| == Min(MaxMoves(loads), Min(Excess(loads, Average(loads)), Space(loads, Average(loads))))
  {
    plans := [];
    if |loads| < 2 || balanced {
      return;
    }
    hide Targets, Sources, Sound, Excess, Space, Runs;
    var total := TotalChunks(loads);
    var avg, cap := total / |loads|, total / 10;
    if cap < 1 {
      cap := 1;
    }
    var over, under := Classify(loads, avg);
    ghost var counts;
    plans, counts := DrainAll(over, under, avg, cap);
    PlansSound(loads, over, under, counts, plans, avg);
    SourcesRun(over, plans, avg);
  }

  method TotalChunks(loads: seq<Load>) returns (total: nat)
    ensures total == Total(loads)
  {
    total := 0;
    for i := 0 to |loads|
      invariant total == Total(loads[..i])
    {
      assert loads[..i + 1][..i] == loads[..i];
      total := total + loads[i].count;
    }
    assert loads[..|loads|] == loads;
  }

  lemma StartTargets(under: seq<Load>, counts: seq<nat>, avg: nat)
    requires |counts| == |under| && forall i :: 0 <= i < |under| ==> counts[i] == under[i].count
    requires forall l :: l in under ==> Underloaded(l, avg)
    ensures Targets(under, counts, [], avg)
  {
    ThresholdsBracket(avg);
    assert forall t :: 0 <= t < |under| ==> under[t] in under;
  }

  lemma {:induction false} StartRemaining(under: seq<Load>, counts: seq<nat>, avg: nat)
    requires |counts| == |under| && forall i :: 0 <= i < |under| ==> counts[i] == under[i].count
    requires forall l :: l in under ==> Underloaded(l, avg)
    ensures Remaining(counts, avg) == Space(under, avg) && 0 <= Space(under, avg)
  {
    if under != [] {
      var n := |under| - 1;
      StartRemaining(under[..n], counts[..n], avg);
      ThresholdsBracket(avg);
    }
  }

  lemma StartSources(over: seq<Load>, avg: nat)
    ensures Sources(over, 0, [], avg)
  {
  }

  lemma SourcesRun(over: seq<Load>, plans: seq<Move>, avg: nat)
    requires Sources(over, |over|, plans, avg)
    ensures Runs(plans)
  {
  }

  // ---------- chunk IDs ----------

  /** Fills in chunk IDs round-robin from each source's list.  Two moves of one source get the
      same chunk exactly when their positions differ by a multiple of the list's length; so,
      where the moves of a source follow each other, none is planned twice if and only if the
      list is at least as long as the run. */
  method AssignChunks(plans: seq<Move>, chunks: map<nat, seq<nat>>) returns (r: seq<Assigned>)
    ensures |r| == |plans|
    ensures forall i :: 0 <= i < |r| ==> r[i].source == plans[i].source && r[i].target == plans[i].target
    ensures forall i :: 0 <= i < |r| ==>
              if Listed(chunks, r[i].source) then r[i].chunk in chunks[r[i].source] else r[i].chunk == 0
    ensures forall i, j :: 0 <= i < j < |r| && r[i].source == r[j].source && Listed(chunks, r[i].source) ==>
              (Distinct(chunks[r[i].source]) ==>
                 (r[i].chunk == r[j].chunk <==> (j - i) % |chunks[r[i].source]| == 0))
    ensures forall source :: Runs(plans) && Listed(chunks, source) && Distinct(chunks[source]) ==>
              (NoRepeat(r, source) <==> Outgoing(plans, source) <= |chunks[source]|)
  {
    r := [];
    for i := 0 to |plans|
      invariant |r| == i && forall j :: 0 <= j < i ==> r[j] == AssignOne(plans, chunks, j)
    {
      r := r + [AssignOne(plans, chunks, i)];
    }
    forall i, j | 0 <= i < j < |r| && r[i].source == r[j].source && Listed(chunks, r[i].source) &&
                  Distinct(chunks[r[i].source])
      ensures r[i].chunk == r[j].chunk <==> (j - i) % |chunks[r[i].source]| == 0
    {
      ModSame(i, j, |chunks[r[i].source]|);
    }
    forall source | Runs(plans) && Listed(chunks, source) && Distinct(chunks[source])
      ensures NoRepeat(r, source) <==> Outgoing(plans, source) <= |chunks[source]|
    {
      NoRepeatIff(plans, chunks, source, r);
    }
  }

  predicate Listed(chunks: map<nat, seq<nat>>, source: nat) { source in chunks && chunks[source] != [] }

  predicate Distinct(list: seq<nat>) { forall i, j :: 0 <= i < j < |list| ==> list[i] != list[j] }

  function AssignOne(plans: seq<Move>, chunks: map<nat, seq<nat>>, i: nat): Assigned
    requires i < |plans|
  {
    var m := plans[i];
    if m.source !in chunks || chunks[m.source] == [] then Assigned(m.source, m.target, 0)
    else Assigned(m.source, m.target, chunks[m.source][i % |chunks[m.source]|])
  }

  /** No chunk of `source` is planned twice. */
  ghost predicate NoRepeat(r: seq<Assigned>, source: nat) {
    forall i, j :: 0 <= i < j < |r| && r[i].source == source && r[j].source == source ==> r[i].chunk != r[j].chunk
  }

  lemma AtLeast(a: int, n: nat)
    requires 1 <= a
    ensures n <= a * n
  {
    assert a * n == (a - 1) * n + n;
  }

  lemma Distribute(a: int, b: int, n: int)
    ensures (a - b) * n == a * n - b * n
  {
  }

  /** Quotient and remainder are determined by their equation. */
  lemma ModIs(x: nat, n: nat, q: int, r: nat)
    requires r < n && x == q * n + r
    ensures x % n == r
  {
    var p, t := x / n, x % n;
    assert x == p * n + t;
    Distribute(q, p, n);
    Distribute(p, q, n);
    if q > p {
      AtLeast(q - p, n);
    } else if p > q {
      AtLeast(p - q, n);
    }
  }

  lemma ModDiffers(i: nat, j: nat, n: nat)
    requires i < j < i + n
    ensures i % n != j % n
  {
    var q, r := i / n, i % n;
    assert i == q * n + r;
    if r + (j - i) < n {
      ModIs(j, n, q, r + (j - i));
    } else {
      Distribute(q + 1, q, n);
      ModIs(j, n, q + 1, r + (j - i) - n);
    }
  }

  lemma ModRepeats(i: nat, n: nat)
    requires 0 < n
    ensures i % n == (i + n) % n
  {
    var q, r := i / n, i % n;
    assert i == q * n + r;
    Distribute(q + 1, q, n);
    ModIs(i + n, n, q + 1, r);
  }

  /** The moves of a source sit between its first and its last one. */
  lemma {:induction false} RunLength(plans: seq<Move>, source: nat, a: nat, b: nat)
    requires a <= b <= |plans| && (forall i :: a <= i < b ==> plans[i].source == source)
    requires forall i :: 0 <= i < |plans| && plans[i].source == source ==> a <= i < b
    ensures Outgoing(plans, source) == b - a
    decreases |plans|
  {
    if plans != [] {
      var n := |plans| - 1;
      RunLength(plans[..n], source, Min(a, n), if b == |plans| && a < b then b - 1 else Min(b, n));
    }
  }

  lemma FindRun(plans: seq<Move>, source: nat) returns (a: nat, b: nat)
    requires Runs(plans)
    ensures a <= b <= |plans| && (forall i :: a <= i < b ==> plans[i].source == source)
    ensures forall i :: 0 <= i < |plans| && plans[i].source == source ==> a <= i < b
  {
    a, b := 0, 0;
    if k :| 0 <= k < |plans| && plans[k].source == source {
      a, b := k, k + 1;
      while 0 < a && plans[a - 1].source == source
        invariant 0 <= a <= k && forall i :: a <= i <= k ==> plans[i].source == source
      {
        a := a - 1;
      }
      while b < |plans| && plans[b].source == source
        invariant k < b <= |plans| && forall i :: a <= i < b ==> plans[i].source == source
      {
        b := b + 1;
      }
    }
  }

  lemma ModSame(i: nat, j: nat, n: nat)
    requires i <= j && 0 < n
    ensures i % n == j % n <==> (j - i) % n == 0
  {
    var a, b, c := i / n, j / n, (j - i) / n;
    assert i == a * n + i % n && j == b * n + j % n && j - i == c * n + (j - i) % n;
    if i % n == j % n {
      Distribute(b, a, n);
      ModIs(j - i, n, b - a, 0);
    }
    if (j - i) % n == 0 {
      Distribute(a, -c, n);
      ModIs(j, n, a + c, i % n);
    }
  }

  /** With a duplicate-free, non-empty list, no chunk of a source is planned twice if and only if
      the list is at least as long as the source's run of moves. */
  lemma NoRepeatIff(plans: seq<Move>, chunks: map<nat, seq<nat>>, source: nat, r: seq<Assigned>)
    requires Runs(plans) && Listed(chunks, source) && Distinct(chunks[source])
    requires |r| == |plans| && forall i :: 0 <= i < |plans| ==> r[i] == AssignOne(plans, chunks, i)
    ensures NoRepeat(r, source) <==> Outgoing(plans, source) <= |chunks[source]|
  {
    var n := |chunks[source]|;
    var a, b := FindRun(plans, source);
    RunLength(plans, source, a, b);
    if b - a <= n {
      forall i, j | 0 <= i < j < |plans| && plans[i].source == source && plans[j].source == source
        ensures r[i].chunk != r[j].chunk
      {
        ModDiffers(i, j, n);
      }
    } else {
      ModRepeats(a, n);
      assert r[a].chunk == r[a + n].chunk;
    }
  }

  /** Two moves out of a node whose list has one entry plan the same chunk twice. */
  method OneEntryTwice() returns (r: seq<Assigned>)
    ensures r == [Assigned(1, 2, 5), Assigned(1, 2, 5)] && !NoRepeat(r, 1)
  {
    var plans := [Move(1, 2), Move(1, 2)];
    r := AssignChunks(plans, map[1 := [5]]);
    assert r[0].chunk == r[1].chunk == 5;
  }
}
