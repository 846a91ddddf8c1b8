/**
 The 6+3 placement planner: a round-robin over the nodes that skips a node once it has three
 shards or no disk left.  Its loop has no bound of its own, so when it stops is part of what
 is proved.
 */
module ShardPlanner {
  import opened Bytes

  const SHARDS: nat := 9
  const MIN_MACHINES: nat := 3
  const MAX_PER_MACHINE: nat := 3

  datatype Disk = Disk(id: nat, node: nat)

  datatype Shard = Shard(index: nat, disk: Disk)

  /** The disks of one node in disk order, and how many of them are used. */
  datatype Queue = Queue(node: nat, disks: seq<Disk>, used: nat)

  /** How many shards a node can take. */
  function Share(q: Queue): nat { Min(|q.disks|, MAX_PER_MACHINE) }

  // ---------- grouping ----------

  function InsertDisk(disks: seq<Disk>, d: Disk): (r: seq<Disk>)
    ensures |r| == |disks| + 1 && forall x :: x in r <==> x == d || x in disks
  {
    if disks == [] || d.id < disks[0].id then [d] + disks else [disks[0]] + InsertDisk(disks[1..], d)
  }

  /** Files a disk under its node; nodes stay in increasing order. */
  function Insert(queues: seq<Queue>, d: Disk): seq<Queue> {
    if queues == [] || d.node < queues[0].node then [Queue(d.node, [d], 0)] + queues
    else if queues[0].node == d.node then [queues[0].(disks := InsertDisk(queues[0].disks, d))] + queues[1..]
    else [queues[0]] + Insert(queues[1..], d)
  }

  function Group(disks: seq<Disk>): seq<Queue> {
    if disks == [] then [] else Insert(Group(disks[..|disks| - 1]), disks[|disks| - 1])
  }

  /** Distinct disks of the queue's own node, and no more used than it may give. */
  ghost predicate QueueOk(q: Queue) {
    && q.disks != [] && q.used <= Share(q)
    && (forall d :: d in q.disks ==> d.node == q.node)
    && (forall i, j :: 0 <= i < j < |q.disks| ==> q.disks[i] != q.disks[j])
  }

  ghost predicate Ordered(queues: seq<Queue>) {
    forall x, y :: 0 <= x < y < |queues| ==> queues[x].node < queues[y].node
  }

  /** One queue per node, in node order. */
  ghost predicate Grouped(queues: seq<Queue>) {
    Ordered(queues) && forall x :: 0 <= x < |queues| ==> QueueOk(queues[x])
  }

  ghost predicate Listed(queues: seq<Queue>, d: Disk) { exists x :: 0 <= x < |queues| && d in queues[x].disks }

  lemma {:induction false} InsertDistinct(disks: seq<Disk>, d: Disk)
    requires d !in disks && forall i, j :: 0 <= i < j < |disks| ==> disks[i] != disks[j]
    ensures forall i, j :: 0 <= i < j < |InsertDisk(disks, d)| ==> InsertDisk(disks, d)[i] != InsertDisk(disks, d)[j]
  {
    if disks != [] && d.id >= disks[0].id {
      InsertDistinct(disks[1..], d);
      var rest := InsertDisk(disks[1..], d);
      assert forall j :: 0 <= j < |rest| ==> rest[j] in rest;
      assert disks[0] !in rest;
    }
  }

  lemma {:induction false} InsertGrouped(queues: seq<Queue>, d: Disk)
    requires Grouped(queues) && !Listed(queues, d)
    ensures Grouped(Insert(queues, d))
    ensures Insert(queues, d) != []
    ensures queues == [] || Insert(queues, d)[0].node == queues[0].node || Insert(queues, d)[0].node == d.node
    ensures forall x :: Listed(Insert(queues, d), x) ==> x == d || Listed(queues, x)
  {
    if queues == [] || d.node < queues[0].node {
      ConsGrouped(Queue(d.node, [d], 0), queues);
      assert forall x :: 0 < x < |queues| + 1 ==> Insert(queues, d)[x] == queues[x - 1];
    } else if queues[0].node == d.node {
      assert d !in queues[0].disks;
      InsertDistinct(queues[0].disks, d);
    } else {
      var rest := queues[1..];
      assert forall x :: 0 <= x < |rest| ==> rest[x] == queues[x + 1];
      InsertGrouped(rest, d);
      InsertLater(queues, d);
    }
  }

  lemma InsertLater(queues: seq<Queue>, d: Disk)
    requires queues != [] && Grouped(queues) && queues[0].node < d.node
    requires Grouped(Insert(queues[1..], d))
    requires |queues| == 1 || Insert(queues[1..], d)[0].node == queues[1].node || Insert(queues[1..], d)[0].node == d.node
    requires forall x :: Listed(Insert(queues[1..], d), x) ==> x == d || Listed(queues[1..], x)
    ensures Grouped(Insert(queues, d))
    ensures forall x :: Listed(Insert(queues, d), x) ==> x == d || Listed(queues, x)
  {
    hide QueueOk;
    var rest, all := Insert(queues[1..], d), Insert(queues, d);
    assert all == [queues[0]] + rest;
    assert rest != [] ==> queues[0].node < rest[0].node;
    ConsGrouped(queues[0], rest);
    forall x | Listed(all, x) ensures x == d || Listed(queues, x) {
      var i :| 0 <= i < |all| && x in all[i].disks;
      if i > 0 {
        assert x in rest[i - 1].disks && Listed(rest, x);
        if x != d {
          var j :| 0 <= j < |queues[1..]| && x in queues[1..][j].disks;
          assert x in queues[j + 1].disks;
        }
      }
    }
  }

  lemma ConsGrouped(q: Queue, rest: seq<Queue>)
    requires QueueOk(q) && Grouped(rest) && (rest != [] ==> q.node < rest[0].node)
    ensures Grouped([q] + rest)
  {
    hide QueueOk;
    var all := [q] + rest;
    assert forall x :: 0 < x < |all| ==> all[x] == rest[x - 1];
  }

  lemma {:induction false} GroupIs(disks: seq<Disk>)
    requires forall i, j :: 0 <= i < j < |disks| ==> disks[i] != disks[j]
    ensures Grouped(Group(disks)) && UsedSum(Group(disks)) == 0
    ensures forall d :: Listed(Group(disks), d) ==> d in disks
  {
    if disks != [] {
      var n := |disks| - 1;
      GroupIs(disks[..n]);
      InsertGrouped(Group(disks[..n]), disks[n]);
      InsertUnused(Group(disks[..n]), disks[n]);
    }
  }

  lemma {:induction false} InsertUnused(queues: seq<Queue>, d: Disk)
    requires UsedSum(queues) == 0
    ensures UsedSum(Insert(queues, d)) == 0
  {
    if queues == [] || d.node < queues[0].node {
      UsedCons(Queue(d.node, [d], 0), queues);
    } else {
      assert queues == [queues[0]] + queues[1..];
      UsedCons(queues[0], queues[1..]);
      if queues[0].node == d.node {
        UsedCons(queues[0].(disks := InsertDisk(queues[0].disks, d)), queues[1..]);
      } else {
        InsertUnused(queues[1..], d);
        UsedCons(queues[0], Insert(queues[1..], d));
      }
    }
  }

  /** How many candidate disks a node has, and how many its queues hold. */
  function DisksOf(disks: seq<Disk>, node: nat): nat {
    if disks == [] then 0
    else DisksOf(disks[..|disks| - 1], node) + (if disks[|disks| - 1].node == node then 1 else 0)
  }

  function Queued(queues: seq<Queue>, node: nat): nat {
    if queues == [] then 0 else (if queues[0].node == node then |queues[0].disks| else 0) + Queued(queues[1..], node)
  }

  lemma {:induction false} InsertQueues(queues: seq<Queue>, d: Disk, node: nat)
    ensures Queued(Insert(queues, d), node) == Queued(queues, node) + (if d.node == node then 1 else 0)
  {
    var after := Insert(queues, d);
    if queues == [] || d.node < queues[0].node {
      assert after[1..] == queues;
    } else if queues[0].node == d.node {
      assert after[1..] == queues[1..];
    } else {
      assert after[1..] == Insert(queues[1..], d);
      InsertQueues(queues[1..], d, node);
    }
  }

  /** Grouping neither loses nor invents a disk: every node's queue holds all its disks. */
  lemma {:induction false} GroupKeepsDisks(disks: seq<Disk>, node: nat)
    ensures Queued(Group(disks), node) == DisksOf(disks, node)
  {
    if disks != [] {
      GroupKeepsDisks(disks[..|disks| - 1], node);
      InsertQueues(Group(disks[..|disks| - 1]), disks[|disks| - 1], node);
    }
  }

  // ---------- counting ----------

  function UsedSum(queues: seq<Queue>): nat {
    if queues == [] then 0 else UsedSum(queues[..|queues| - 1]) + queues[|queues| - 1].used
  }

  /** The sum over the nodes of min(disk count, 3). */
  function Capacity(queues: seq<Queue>): nat {
    if queues == [] then 0 else Capacity(queues[..|queues| - 1]) + Share(queues[|queues| - 1])
  }

  lemma {:induction false} UsedCons(q: Queue, rest: seq<Queue>)
    ensures UsedSum([q] + rest) == q.used + UsedSum(rest)
  {
    var all := [q] + rest;
    if rest == [] {
      assert all[..0] == [];
    } else {
      UsedCons(q, rest[..|rest| - 1]);
      assert all[..|all| - 1] == [q] + rest[..|rest| - 1];
    }
  }

  /** One more disk of one queue used. */
  lemma {:induction false} UsedUpdate(queues: seq<Queue>, x: nat)
    requires x < |queues|
    ensures var q := queues[x].(used := queues[x].used + 1);
            UsedSum(queues[x := q]) == UsedSum(queues) + 1 && Capacity(queues[x := q]) == Capacity(queues)
  {
    var q, n := queues[x].(used := queues[x].used + 1), |queues| - 1;
    if x < n {
      UsedUpdate(queues[..n], x);
      assert queues[x := q][..n] == queues[..n][x := q];
    } else {
      assert queues[x := q][..n] == queues[..n];
    }
  }

  ghost predicate Open(q: Queue) { q.used < Share(q) }

  /** Some node has room exactly while fewer shards are placed than there is capacity. */
  lemma {:induction false} RoomLeft(queues: seq<Queue>)
    requires forall x :: 0 <= x < |queues| ==> queues[x].used <= Share(queues[x])
    ensures UsedSum(queues) <= Capacity(queues)
    ensures UsedSum(queues) < Capacity(queues) <==> exists x :: 0 <= x < |queues| && Open(queues[x])
  {
    if queues != [] {
      var n := |queues| - 1;
      RoomLeft(queues[..n]);
      if x :| 0 <= x < |queues| && Open(queues[x]) {
        assert x < n ==> Open(queues[..n][x]);
      }
    }
  }

  function Count(shards: seq<Shard>, node: nat): nat {
    if shards == [] then 0
    else Count(shards[..|shards| - 1], node) + (if shards[|shards| - 1].disk.node == node then 1 else 0)
  }

  // ---------- the loop ----------

  /** The queue whose turn it is, and what is placed so far. */
  datatype Plan = Plan(queues: seq<Queue>, at: nat, shards: seq<Shard>)

  function Turn(s: Plan): nat { if s.at + 1 == |s.queues| then 0 else s.at + 1 }

  /** One turn of the loop: skip a node that is full or empty, else take its next disk. */
  function Step(s: Plan): Plan
    requires s.at < |s.queues|
  {
    var q := s.queues[s.at];
    if q.used >= MAX_PER_MACHINE || q.used >= |q.disks| then s.(at := Turn(s))
    else Plan(s.queues[s.at := q.(used := q.used + 1)], Turn(s), s.shards + [Shard(|s.shards|, q.disks[q.used])])
  }

  ghost predicate Taken(queues: seq<Queue>, d: Disk) {
    exists x, i :: 0 <= x < |queues| && 0 <= i < queues[x].used && i < |queues[x].disks| && queues[x].disks[i] == d
  }

  ghost predicate PlanOk(s: Plan) {
    && s.at < |s.queues| && Grouped(s.queues)
    && |s.shards| == UsedSum(s.queues)
    && (forall k :: 0 <= k < |s.shards| ==> s.shards[k].index == k && Taken(s.queues, s.shards[k].disk))
    && (forall j, k :: 0 <= j < k < |s.shards| ==> s.shards[j].disk != s.shards[k].disk)
    && (forall x :: 0 <= x < |s.queues| ==> Count(s.shards, s.queues[x].node) == s.queues[x].used)
  }

  lemma NotTaken(s: Plan)
    requires PlanOk(s) && Open(s.queues[s.at])
    ensures !Taken(s.queues, s.queues[s.at].disks[s.queues[s.at].used])
  {
    var q := s.queues[s.at];
    var d := q.disks[q.used];
    assert d in q.disks;
    forall x, i | 0 <= x < |s.queues| && 0 <= i < s.queues[x].used && i < |s.queues[x].disks|
      ensures s.queues[x].disks[i] != d
    {
      assert s.queues[x].disks[i] in s.queues[x].disks && QueueOk(s.queues[x]);
    }
  }

  lemma CountMore(shards: seq<Shard>, sh: Shard, node: nat)
    ensures Count(shards + [sh], node) == Count(shards, node) + (if sh.disk.node == node then 1 else 0)
  {
    assert (shards + [sh])[..|shards|] == shards;
  }

  lemma StepGrouped(s: Plan)
    requires PlanOk(s) && Open(s.queues[s.at])
    ensures Grouped(Step(s).queues) && |Step(s).shards| == UsedSum(Step(s).queues)
    ensures Capacity(Step(s).queues) == Capacity(s.queues)
  {
    hide Taken;
    UsedUpdate(s.queues, s.at);
    assert QueueOk(s.queues[s.at]);
  }

  lemma StepCounts(s: Plan, x: nat)
    requires PlanOk(s) && Open(s.queues[s.at]) && x < |s.queues|
    ensures Count(Step(s).shards, Step(s).queues[x].node) == Step(s).queues[x].used
  {
    hide Taken;
    var q := s.queues[s.at];
    CountMore(s.shards, Shard(|s.shards|, q.disks[q.used]), s.queues[x].node);
    assert QueueOk(q) && q.disks[q.used] in q.disks;
  }

  lemma StepKeeps(s: Plan)
    requires PlanOk(s)
    ensures PlanOk(Step(s))
    ensures Capacity(Step(s).queues) == Capacity(s.queues) && |Step(s).queues| == |s.queues|
  {
    hide QueueOk, Grouped, UsedSum, Capacity, Count;
    var q, s' := s.queues[s.at], Step(s);
    if Open(q) {
      StepGrouped(s);
      NotTaken(s);
      forall k | 0 <= k < |s'.shards| ensures s'.shards[k].index == k && Taken(s'.queues, s'.shards[k].disk) {
        StillTaken(s, k);
      }
      forall x | 0 <= x < |s'.queues| ensures Count(s'.shards, s'.queues[x].node) == s'.queues[x].used {
        StepCounts(s, x);
      }
    }
  }

  lemma StillTaken(s: Plan, k: nat)
    requires PlanOk(s) && Open(s.queues[s.at]) && k < |Step(s).shards|
    ensures Step(s).shards[k].index == k && Taken(Step(s).queues, Step(s).shards[k].disk)
  {
    var s' := Step(s);
    if k < |s.shards| {
      var x, i :| 0 <= x < |s.queues| && 0 <= i < s.queues[x].used && i < |s.queues[x].disks| &&
                  s.queues[x].disks[i] == s.shards[k].disk;
      assert s'.queues[x].disks[i] == s'.shards[k].disk;
    } else {
      assert s'.queues[s.at].disks[s.queues[s.at].used] == s'.shards[k].disk;
    }
  }

  // ---------- when the loop stops ----------

  function Begin(queues: seq<Queue>): Plan { Plan(queues, 0, []) }

  /** The state after n turns. */
  function Iterate(s: Plan, n: nat): (r: Plan)
    requires s.at < |s.queues|
    ensures r.at < |r.queues|
  {
    if n == 0 then s else Step(Iterate(s, n - 1))
  }

  /** The ninth shard is placed within n turns. */
  ghost predicate HaltsWithin(queues: seq<Queue>, n: nat)
    requires queues != []
  {
    |Iterate(Begin(queues), n).shards| >= SHARDS
  }

  ghost predicate Halts(queues: seq<Queue>)
    requires queues != []
  {
    exists n: nat :: HaltsWithin(queues, n)
  }

  lemma BeginOk(queues: seq<Queue>)
    requires queues != [] && Grouped(queues) && UsedSum(queues) == 0
    ensures PlanOk(Begin(queues))
  {
    forall x | 0 <= x < |queues| ensures queues[x].used == 0 {
      UsedPart(queues, x);
    }
  }

  lemma {:induction false} UsedPart(queues: seq<Queue>, x: nat)
    requires x < |queues|
    ensures queues[x].used <= UsedSum(queues)
  {
    if x < |queues| - 1 {
      UsedPart(queues[..|queues| - 1], x);
    }
  }

  lemma {:induction false} IterateKeeps(s: Plan, n: nat)
    requires PlanOk(s)
    ensures PlanOk(Iterate(s, n)) && Capacity(Iterate(s, n).queues) == Capacity(s.queues)
  {
    hide Grouped, Taken, Step, Capacity, Count, UsedSum;
    if n > 0 {
      IterateKeeps(s, n - 1);
      StepKeeps(Iterate(s, n - 1));
    }
  }

  lemma {:induction false} IterateShift(s: Plan, n: nat)
    requires s.at < |s.queues|
    ensures Iterate(Step(s), n) == Iterate(s, n + 1)
  {
    if n > 0 {
      IterateShift(s, n - 1);
    }
  }

  /** How many turns until queue o is up. */
  function Ahead(s: Plan, o: nat): nat
    requires s.at < |s.queues| && o < |s.queues|
  {
    if s.at <= o then o - s.at else o + |s.queues| - s.at
  }

  /** Whichever node has room next, every turn brings it closer or places a shard. */
  lemma Progress(s: Plan, o: nat)
    requires PlanOk(s) && o < |s.queues| && Open(s.queues[o])
    ensures |Step(s).queues| == |s.queues|
    ensures || |Step(s).shards| == |s.shards| + 1
            || (Step(s).queues == s.queues && Step(s).shards == s.shards && Ahead(Step(s), o) < Ahead(s, o))
  {
  }

  lemma SomeOpen(s: Plan) returns (o: nat)
    requires PlanOk(s) && |s.shards| < Capacity(s.queues)
    ensures o < |s.queues| && Open(s.queues[o])
  {
    forall x | 0 <= x < |s.queues| ensures s.queues[x].used <= Share(s.queues[x]) {
      assert QueueOk(s.queues[x]);
    }
    RoomLeft(s.queues);
    o :| 0 <= o < |s.queues| && Open(s.queues[o]);
  }

  /** At most one round per shard that is still to be placed. */
  lemma {:induction false} Reaches(s: Plan, o: nat) returns (n: nat)
    requires PlanOk(s) && SHARDS <= Capacity(s.queues) && |s.shards| < SHARDS && o < |s.queues| && Open(s.queues[o])
    ensures |Iterate(s, n).shards| >= SHARDS
    ensures n <= Ahead(s, o) + 1 + (SHARDS - 1 - |s.shards|) * |s.queues|
    decreases SHARDS - |s.shards|, Ahead(s, o)
  {
    hide PlanOk, Capacity, Open, Step, Iterate;
    StepInRange(s);
    var s' := Step(s);
    StepKeeps(s);
    StepInRange(s');
    Progress(s, o);
    n := 0;
    if |s'.shards| < SHARDS {
      var next := if |s'.shards| == |s.shards| then o else 0;
      if |s'.shards| != |s.shards| {
        next := SomeOpen(s');
        OneLess(SHARDS - 1 - |s.shards|, |s.queues|);
      }
      n := Reaches(s', next);
    }
    IterateNone(s');
    IterateShift(s, n);
    n := n + 1;
  }

  lemma OneLess(a: int, n: nat)
    ensures a * n == (a - 1) * n + n
  {
  }

  /** Shards stay placed. */
  lemma {:induction false} IterateMore(s: Plan, m: nat, n: nat)
    requires s.at < |s.queues| && m <= n
    ensures |Iterate(s, m).shards| <= |Iterate(s, n).shards|
  {
    if m < n {
      IterateMore(s, m, n - 1);
    }
  }

  lemma NeverPast(s: Plan, n: nat)
    requires PlanOk(s)
    ensures |Iterate(s, n).shards| <= Capacity(s.queues)
  {
    IterateKeeps(s, n);
    var r := Iterate(s, n);
    forall x | 0 <= x < |r.queues| ensures r.queues[x].used <= Share(r.queues[x]) {
      assert QueueOk(r.queues[x]);
    }
    RoomLeft(r.queues);
  }

  lemma HaltsSoon(s: Plan, n: nat)
    requires PlanOk(s) && s.shards == [] && SHARDS <= Capacity(s.queues) && SHARDS * |s.queues| <= n
    ensures |Iterate(s, n).shards| >= SHARDS
  {
    hide PlanOk, Capacity, Iterate, Open;
    StepInRange(s);
    var o := SomeOpen(s);
    var m := Reaches(s, o);
    OneLess(SHARDS, |s.queues|);
    IterateMore(s, m, n);
  }

  /** The loop stops if and only if the nodes can take nine shards between them, and then within
      nine rounds. */
  lemma {:induction false} HaltsIff(queues: seq<Queue>)
    requires queues != [] && Grouped(queues) && UsedSum(queues) == 0
    ensures Halts(queues) <==> SHARDS <= Capacity(queues)
    ensures Halts(queues) ==> forall n: nat :: SHARDS * |queues| <= n ==> HaltsWithin(queues, n)
  {
    hide PlanOk, Capacity, Iterate, Grouped, UsedSum;
    BeginOk(queues);
    if SHARDS <= Capacity(queues) {
      forall n: nat | SHARDS * |queues| <= n ensures HaltsWithin(queues, n) {
        HaltsSoon(Begin(queues), n);
      }
      assert HaltsWithin(queues, SHARDS * |queues|);
    } else {
      forall n: nat ensures !HaltsWithin(queues, n) {
        NeverPast(Begin(queues), n);
      }
    }
  }

  function OneNode(n: nat): (r: seq<Disk>)
    ensures |r| == n && forall i :: 0 <= i < n ==> r[i] == Disk(i, 0)
  {
    seq(n, i requires 0 <= i => Disk(i, 0))
  }

  lemma {:induction false} InsertLast(disks: seq<Disk>, d: Disk)
    requires forall x :: x in disks ==> x.id <= d.id
    ensures InsertDisk(disks, d) == disks + [d]
  {
    if disks != [] {
      assert disks[0] in disks;
      InsertLast(disks[1..], d);
      assert disks == [disks[0]] + disks[1..];
    }
  }

  lemma {:induction false} GroupOneNode(n: nat)
    requires 0 < n
    ensures Group(OneNode(n)) == [Queue(0, OneNode(n), 0)]
  {
    var d := Disk(n - 1, 0);
    assert OneNode(n)[..n - 1] == OneNode(n - 1) && OneNode(n) == OneNode(n - 1) + [d];
    if n > 1 {
      GroupOneNode(n - 1);
      InsertLast(OneNode(n - 1), d);
    }
  }

  lemma {:induction false} InsertBeyond(queues: seq<Queue>, d: Disk)
    requires forall q :: q in queues ==> q.node < d.node
    ensures Insert(queues, d) == queues + [Queue(d.node, [d], 0)]
  {
    if queues != [] {
      assert queues[0] in queues;
      InsertBeyond(queues[1..], d);
      assert queues == [queues[0]] + queues[1..];
    }
  }

  /** Seven disks on one node and one on each of two others. */
  function Lopsided(): seq<Disk> { OneNode(7) + [Disk(7, 1)] + [Disk(8, 2)] }

  lemma LopsidedGroups()
    ensures var queues := Group(Lopsided());
            |queues| == 3 && Capacity(queues) == 5
  {
    hide OneNode;
    var one, two, three := Queue(0, OneNode(7), 0), Queue(1, [Disk(7, 1)], 0), Queue(2, [Disk(8, 2)], 0);
    GroupOneNode(7);
    GroupMore(OneNode(7), Disk(7, 1));
    GroupMore(OneNode(7) + [Disk(7, 1)], Disk(8, 2));
    InsertBeyond([one], Disk(7, 1));
    InsertBeyond([one, two], Disk(8, 2));
    assert [one] + [two] == [one, two] && [one, two] + [three] == [one, two, three];
    assert [one, two, three][..2] == [one, two] && [one, two][..1] == [one] && [one][..0] == [];
    assert Share(one) == 3 && Share(two) == 1 && Share(three) == 1;
    assert Capacity([one]) == 3;
    assert Capacity([one, two]) == 4;
    assert Capacity([one, two, three]) == 5;
  }

  lemma GroupMore(disks: seq<Disk>, d: Disk)
    ensures Group(disks + [d]) == Insert(Group(disks), d)
  {
    assert (disks + [d])[..|disks|] == disks;
  }

  /** They pass the planner's own guards, and the loop never places the ninth shard. */
  lemma GuardsAdmitEndlessLoop()
    ensures var disks := Lopsided();
            && |disks| >= SHARDS && |Group(disks)| >= MIN_MACHINES
            && (forall i, j :: 0 <= i < j < |disks| ==> disks[i] != disks[j])
            && !Halts(Group(disks))
  {
    hide Group, Capacity, Halts;
    LopsidedGroups();
    GroupIs(Lopsided());
    HaltsIff(Group(Lopsided()));
  }

  // ---------- the planner ----------

  function Without(shards: seq<Shard>, node: nat): (r: seq<Shard>)
    ensures |r| == |shards| - Count(shards, node)
    ensures forall x :: x in r <==> x in shards && x.disk.node != node
  {
    if shards == [] then []
    else
      var init, last := Without(shards[..|shards| - 1], node), shards[|shards| - 1];
      assert shards == shards[..|shards| - 1] + [last];
      if last.disk.node == node then init else init + [last]
  }

  lemma {:induction false} WithoutCount(shards: seq<Shard>, node: nat, other: nat)
    requires node != other
    ensures Count(Without(shards, node), other) == Count(shards, other)
  {
    if shards != [] {
      var init := shards[..|shards| - 1];
      WithoutCount(init, node, other);
      CountMore(Without(init, node), shards[|shards| - 1], other);
    }
  }

  /** At most three shards on each of the given nodes, and none elsewhere. */
  lemma {:induction false} Pigeonhole(shards: seq<Shard>, nodes: set<nat>)
    requires forall x :: x in shards ==> x.disk.node in nodes
    requires forall n :: n in nodes ==> Count(shards, n) <= MAX_PER_MACHINE
    ensures |shards| <= MAX_PER_MACHINE * |nodes|
    decreases |nodes|
  {
    assert shards != [] ==> shards[0] in shards;
    if nodes != {} {
      HasNode(nodes);
      var n :| n in nodes;
      var rest := Without(shards, n);
      forall m | m in nodes - {n} ensures Count(rest, m) <= MAX_PER_MACHINE {
        WithoutCount(shards, n, m);
      }
      Pigeonhole(rest, nodes - {n});
    }
  }

  lemma HasNode(s: set<nat>)
    ensures s == {} || exists n :: n in s
  {
    if forall n :: n !in s {
      assert s == {};
    }
  }

  function Nodes(shards: seq<Shard>): set<nat> { set x | x in shards :: x.disk.node }

  /** A 6+3 placement that survives the loss of any one machine. */
  ghost predicate Sound(shards: seq<Shard>, disks: seq<Disk>) {
    && |shards| == SHARDS
    && (forall k :: 0 <= k < SHARDS ==> shards[k].index == k && shards[k].disk in disks)
    && (forall j, k :: 0 <= j < k < SHARDS ==> shards[j].disk != shards[k].disk)
    && (forall n :: Count(shards, n) <= MAX_PER_MACHINE)
    && |Nodes(shards)| >= MIN_MACHINES
    && (forall n :: |Without(shards, n)| >= 6)
  }

  lemma CountFew(s: Plan, n: nat)
    requires PlanOk(s)
    ensures Count(s.shards, n) <= MAX_PER_MACHINE
  {
    if x :| 0 <= x < |s.queues| && s.queues[x].node == n {
      assert QueueOk(s.queues[x]);
    } else {
      forall k | 0 <= k < |s.shards| ensures s.shards[k].disk.node != n {
        var x, i :| 0 <= x < |s.queues| && 0 <= i < s.queues[x].used && i < |s.queues[x].disks| &&
                  s.queues[x].disks[i] == s.shards[k].disk;
        assert QueueOk(s.queues[x]) && s.queues[x].disks[i] in s.queues[x].disks;
      }
      CountNone(s.shards, n);
    }
  }

  lemma {:induction false} CountNone(shards: seq<Shard>, n: nat)
    requires forall k :: 0 <= k < |shards| ==> shards[k].disk.node != n
    ensures Count(shards, n) == 0
  {
    if shards != [] {
      CountNone(shards[..|shards| - 1], n);
    }
  }

  lemma PlanSound(s: Plan, disks: seq<Disk>)
    requires PlanOk(s) && |s.shards| == SHARDS
    requires forall d :: Listed(s.queues, d) ==> d in disks
    ensures Sound(s.shards, disks)
  {
    forall n ensures Count(s.shards, n) <= MAX_PER_MACHINE {
      CountFew(s, n);
    }
    forall k | 0 <= k < SHARDS ensures s.shards[k].disk in disks {
      var x, i :| 0 <= x < |s.queues| && 0 <= i < s.queues[x].used && i < |s.queues[x].disks| &&
                  s.queues[x].disks[i] == s.shards[k].disk;
      assert s.shards[k].disk in s.queues[x].disks;
    }
    Pigeonhole(s.shards, Nodes(s.shards));
  }

  // ---------- how the shards spread ----------

  /** Full rounds are done, and the nodes before the one whose turn it is are one ahead. */
  ghost predicate Level(s: Plan, round: nat) {
    forall x :: 0 <= x < |s.queues| ==>
      s.queues[x].used == Min(Share(s.queues[x]), if x < s.at then round + 1 else round)
  }

  ghost predicate Holds(shards: seq<Shard>, d: Disk) { exists k :: 0 <= k < |shards| && shards[k].disk == d }

  /** Every disk passed in a queue holds a shard. */
  ghost predicate Passed(s: Plan) {
    forall x, i :: 0 <= x < |s.queues| && 0 <= i < s.queues[x].used && i < |s.queues[x].disks| ==>
      Holds(s.shards, s.queues[x].disks[i])
  }

  /** The queues differ at most in how far they are used. */
  ghost predicate SameDisks(queues: seq<Queue>, queues': seq<Queue>) {
    |queues'| == |queues| &&
    forall x :: 0 <= x < |queues| ==> queues'[x].node == queues[x].node && queues'[x].disks == queues[x].disks
  }

  lemma StepLevel(s: Plan, round: nat) returns (round': nat)
    requires s.at < |s.queues| && Level(s, round)
    ensures Level(Step(s), round') && SameDisks(s.queues, Step(s).queues)
  {
    round' := if s.at + 1 == |s.queues| then round + 1 else round;
    assert forall x :: 0 <= x < |s.queues| && x != s.at ==> Step(s).queues[x] == s.queues[x];
  }

  lemma StepPasses(s: Plan)
    requires s.at < |s.queues| && Passed(s)
    ensures Passed(Step(s))
  {
    var s' := Step(s);
    forall x, i | 0 <= x < |s'.queues| && 0 <= i < s'.queues[x].used && i < |s'.queues[x].disks|
      ensures Holds(s'.shards, s'.queues[x].disks[i])
    {
      if i < s.queues[x].used {
        assert Holds(s.shards, s.queues[x].disks[i]);
        var k :| 0 <= k < |s.shards| && s.shards[k].disk == s.queues[x].disks[i];
        assert s'.shards[k].disk == s'.queues[x].disks[i];
      } else {
        assert s'.shards[|s.shards|].disk == s'.queues[x].disks[i];
      }
    }
  }

  lemma BeginLevel(queues: seq<Queue>)
    requires UsedSum(queues) == 0
    ensures Level(Begin(queues), 0) && Passed(Begin(queues)) && SameDisks(queues, queues)
  {
    forall x | 0 <= x < |queues| ensures queues[x].used == 0 {
      UsedPart(queues, x);
    }
  }

  lemma {:induction false} IterateLevel(queues: seq<Queue>, n: nat) returns (round: nat)
    requires queues != [] && UsedSum(queues) == 0
    ensures var s := Iterate(Begin(queues), n);
            Level(s, round) && Passed(s) && SameDisks(queues, s.queues)
  {
    hide Level, Passed, Step;
    if n == 0 {
      BeginLevel(queues);
      round := 0;
    } else {
      round := IterateLevel(queues, n - 1);
      var s := Iterate(Begin(queues), n - 1);
      StepPasses(s);
      round := StepLevel(s, round);
    }
  }

  ghost predicate Sorted(disks: seq<Disk>) { forall i, j :: 0 <= i < j < |disks| ==> disks[i].id <= disks[j].id }

  lemma {:induction false} InsertSorted(disks: seq<Disk>, d: Disk)
    requires Sorted(disks)
    ensures Sorted(InsertDisk(disks, d))
  {
    if disks != [] && d.id >= disks[0].id {
      InsertSorted(disks[1..], d);
      var rest := InsertDisk(disks[1..], d);
      forall j | 0 <= j < |rest| ensures disks[0].id <= rest[j].id {
        assert rest[j] in rest;
      }
    }
  }

  /** Filing a disk keeps every queue in disk order, and lists the disk and all that were listed. */
  lemma {:induction false} InsertLists(queues: seq<Queue>, d: Disk)
    requires forall x :: 0 <= x < |queues| ==> Sorted(queues[x].disks)
    ensures forall x :: 0 <= x < |Insert(queues, d)| ==> Sorted(Insert(queues, d)[x].disks)
    ensures forall e :: e == d || Listed(queues, e) ==> Listed(Insert(queues, d), e)
  {
    hide Sorted;
    var after := Insert(queues, d);
    if queues == [] || d.node < queues[0].node {
      assert Sorted([d]) by { OneSorted(d); }
      forall e | e == d || Listed(queues, e) ensures Listed(after, e) {
        if e == d {
          assert e in after[0].disks;
        } else {
          var x :| 0 <= x < |queues| && e in queues[x].disks;
          assert e in after[x + 1].disks;
        }
      }
    } else if queues[0].node == d.node {
      InsertSorted(queues[0].disks, d);
      forall e | e == d || Listed(queues, e) ensures Listed(after, e) {
        if e == d {
          assert e in after[0].disks;
        } else {
          var x :| 0 <= x < |queues| && e in queues[x].disks;
          assert e in after[x].disks;
        }
      }
    } else {
      var rest := Insert(queues[1..], d);
      InsertLists(queues[1..], d);
      forall e | e == d || Listed(queues, e) ensures Listed(after, e) {
        if e != d {
          var x :| 0 <= x < |queues| && e in queues[x].disks;
          if x == 0 {
            assert e in after[0].disks;
          } else {
            assert e in queues[1..][x - 1].disks;
            assert Listed(queues[1..], e);
          }
        }
        if e !in after[0].disks {
          assert Listed(rest, e);
          var x :| 0 <= x < |rest| && e in rest[x].disks;
          assert e in after[x + 1].disks;
        }
      }
    }
  }

  lemma OneSorted(d: Disk)
    ensures Sorted([d])
  {
  }

  lemma {:induction false} GroupLists(disks: seq<Disk>)
    ensures forall x :: 0 <= x < |Group(disks)| ==> Sorted(Group(disks)[x].disks)
    ensures forall d :: d in disks ==> Listed(Group(disks), d)
  {
    hide Sorted, Listed, Insert;
    if disks != [] {
      var n := |disks| - 1;
      GroupLists(disks[..n]);
      InsertLists(Group(disks[..n]), disks[n]);
    }
  }

  lemma {:induction false} QueuedIs(queues: seq<Queue>, node: nat)
    requires Ordered(queues)
    ensures forall x :: 0 <= x < |queues| && queues[x].node == node ==> Queued(queues, node) == |queues[x].disks|
    ensures (forall x :: 0 <= x < |queues| ==> queues[x].node != node) ==> Queued(queues, node) == 0
  {
    if queues != [] {
      QueuedIs(queues[1..], node);
      forall x | 0 <= x < |queues| && queues[x].node == node ensures Queued(queues, node) == |queues[x].disks| {
        if x > 0 {
          assert queues[1..][x - 1] == queues[x];
        } else {
          assert forall y :: 0 <= y < |queues[1..]| ==> queues[1..][y].node != node;
        }
      }
    }
  }

  /** How many shards a node gets: what it can take, or the rounds done, and one more for the nodes
      the last round reached. */
  lemma NodeGets(s: Plan, disks: seq<Disk>, round: nat, node: nat) returns (x: nat)
    requires PlanOk(s) && Level(s, round) && SameDisks(Group(disks), s.queues) && Grouped(Group(disks))
    ensures Count(s.shards, node) == Min(Min(DisksOf(disks, node), MAX_PER_MACHINE), if x < s.at then round + 1 else round)
    ensures x <= |s.queues| && (x < |s.queues| ==> s.queues[x].node == node)
    ensures x == |s.queues| ==> Count(s.shards, node) == Min(DisksOf(disks, node), MAX_PER_MACHINE) == 0
  {
    hide Group, Queued, DisksOf, Taken, UsedSum;
    GroupKeepsDisks(disks, node);
    QueuedIs(Group(disks), node);
    if y :| 0 <= y < |s.queues| && s.queues[y].node == node {
      x := y;
    } else {
      x := |s.queues|;
      CountElsewhere(s, node);
    }
  }

  lemma CountElsewhere(s: Plan, node: nat)
    requires PlanOk(s) && forall x :: 0 <= x < |s.queues| ==> s.queues[x].node != node
    ensures Count(s.shards, node) == 0
  {
    forall k | 0 <= k < |s.shards| ensures s.shards[k].disk.node != node {
      var x, i :| 0 <= x < |s.queues| && 0 <= i < s.queues[x].used && i < |s.queues[x].disks| &&
                  s.queues[x].disks[i] == s.shards[k].disk;
      assert QueueOk(s.queues[x]) && s.queues[x].disks[i] in s.queues[x].disks;
    }
    CountNone(s.shards, node);
  }

  /** An even spread: a node more than one shard behind another, or behind a later one, has all it
      can take; and a node's disks are used in disk order. */
  ghost predicate Spread(shards: seq<Shard>, disks: seq<Disk>) {
    && (forall m, n :: Count(shards, m) > Count(shards, n) + 1 ==> Count(shards, n) == Min(DisksOf(disks, n), MAX_PER_MACHINE))
    && (forall m, n :: m < n && Count(shards, m) < Count(shards, n) ==>
          Count(shards, m) == Min(DisksOf(disks, m), MAX_PER_MACHINE))
    && (forall k, d :: 0 <= k < |shards| && d in disks && d.node == shards[k].disk.node && d.id < shards[k].disk.id ==>
          Holds(shards, d))
  }

  /** Whatever turn the loop stops at, what it has placed is spread evenly. */
  lemma {:induction false} PlanSpreads(disks: seq<Disk>, n: nat)
    requires forall i, j :: 0 <= i < j < |disks| ==> disks[i] != disks[j]
    requires disks != []
    ensures Group(disks) != [] && Spread(Iterate(Begin(Group(disks)), n).shards, disks)
  {
    hide Group, Grouped, PlanOk, Iterate, Level, Passed, SameDisks, Count, DisksOf, UsedSum, Ordered;
    var queues := Group(disks);
    GroupIs(disks);
    SomeQueue(disks);
    BeginOk(queues);
    IterateKeeps(Begin(queues), n);
    var s := Iterate(Begin(queues), n);
    var round := IterateLevel(queues, n);
    forall m, n | Count(s.shards, m) > Count(s.shards, n) + 1
      ensures Count(s.shards, n) == Min(DisksOf(disks, n), MAX_PER_MACHINE)
    {
      var x := NodeGets(s, disks, round, m);
      var y := NodeGets(s, disks, round, n);
    }
    forall m, n | m < n && Count(s.shards, m) < Count(s.shards, n)
      ensures Count(s.shards, m) == Min(DisksOf(disks, m), MAX_PER_MACHINE)
    {
      var x := NodeGets(s, disks, round, m);
      var y := NodeGets(s, disks, round, n);
      if x < |s.queues| {
        InTurn(s, x, y);
      }
    }
    forall k, d | 0 <= k < |s.shards| && d in disks && d.node == s.shards[k].disk.node && d.id < s.shards[k].disk.id
      ensures Holds(s.shards, d)
    {
      DiskOrder(s, disks, k, d);
    }
  }

  lemma SomeQueue(disks: seq<Disk>)
    requires disks != []
    ensures Group(disks) != []
  {
  }

  lemma InTurn(s: Plan, x: nat, y: nat)
    requires PlanOk(s) && x < |s.queues| && (y < |s.queues| ==> s.queues[x].node < s.queues[y].node)
    ensures x < y || y >= |s.queues|
    ensures s.at < |s.queues|
  {
  }

  lemma DiskOrder(s: Plan, disks: seq<Disk>, k: nat, d: Disk)
    requires PlanOk(s) && Passed(s) && SameDisks(Group(disks), s.queues)
    requires k < |s.shards| && d in disks && d.node == s.shards[k].disk.node && d.id < s.shards[k].disk.id
    ensures Holds(s.shards, d)
  {
    hide Group, UsedSum, Count, Holds, PlanOk, Passed, Sorted;
    GroupLists(disks);
    var y :| 0 <= y < |Group(disks)| && d in Group(disks)[y].disks;
    var x, i := Source(s, k);
    InQueue(s, y, d);
    InQueue(s, x, s.shards[k].disk);
    EarlierUsed(s.queues[x], i, d);
    var j :| 0 <= j < s.queues[x].used && j < |s.queues[x].disks| && s.queues[x].disks[j] == d;
    PassedAt(s, x, j);
  }

  /** The queue and the place in it that a shard comes from. */
  lemma Source(s: Plan, k: nat) returns (x: nat, i: nat)
    requires PlanOk(s) && k < |s.shards|
    ensures x < |s.queues| && i < s.queues[x].used && i < |s.queues[x].disks|
    ensures s.queues[x].disks[i] == s.shards[k].disk
  {
    hide Grouped, UsedSum, Count;
    assert Taken(s.queues, s.shards[k].disk);
    x, i :| 0 <= x < |s.queues| && 0 <= i < s.queues[x].used && i < |s.queues[x].disks| &&
            s.queues[x].disks[i] == s.shards[k].disk;
  }

  lemma InQueue(s: Plan, x: nat, d: Disk)
    requires PlanOk(s) && x < |s.queues| && d in s.queues[x].disks
    ensures s.queues[x].node == d.node
    ensures forall y :: 0 <= y < |s.queues| && s.queues[y].node == d.node ==> y == x
  {
    hide Taken, UsedSum, Count;
    assert QueueOk(s.queues[x]);
  }

  lemma EarlierUsed(q: Queue, i: nat, d: Disk)
    requires Sorted(q.disks) && i < |q.disks| && i < q.used && d in q.disks && d.id < q.disks[i].id
    ensures exists j :: 0 <= j < q.used && j < |q.disks| && q.disks[j] == d
  {
    var j :| 0 <= j < |q.disks| && q.disks[j] == d;
  }

  lemma PassedAt(s: Plan, x: nat, i: nat)
    requires Passed(s) && x < |s.queues| && i < s.queues[x].used && i < |s.queues[x].disks|
    ensures Holds(s.shards, s.queues[x].disks[i])
  {
  }

  /** validates a placement: at least three machines, at most three shards on each. */
  method Validate(shards: seq<Shard>) returns (ok: bool)
    ensures ok <==>
              && |Nodes(shards)| >= MIN_MACHINES
              && forall n :: n in Nodes(shards) ==> Count(shards, n) <= MAX_PER_MACHINE
  {
    var perMachine: map<nat, nat> := map[];
    for k := 0 to |shards|
      invariant perMachine.Keys == Nodes(shards[..k])
      invariant forall n :: n in perMachine ==> perMachine[n] == Count(shards[..k], n)
      invariant forall n :: n !in perMachine ==> Count(shards[..k], n) == 0
    {
      var node := shards[k].disk.node;
      assert shards[..k + 1] == shards[..k] + [shards[k]];
      NodesMore(shards[..k], shards[k]);
      forall n ensures Count(shards[..k + 1], n) == Count(shards[..k], n) + (if node == n then 1 else 0) {
        CountMore(shards[..k], shards[k], n);
      }
      perMachine := perMachine[node := (if node in perMachine then perMachine[node] else 0) + 1];
    }
    assert shards[..|shards|] == shards;
    assert |perMachine| == |perMachine.Keys|;
    ok := |perMachine| >= MIN_MACHINES && forall n :: n in perMachine ==> perMachine[n] <= MAX_PER_MACHINE;
  }

  lemma NodesMore(shards: seq<Shard>, sh: Shard)
    ensures Nodes(shards + [sh]) == Nodes(shards) + {sh.disk.node}
  {
    forall n | n in Nodes(shards) + {sh.disk.node} ensures n in Nodes(shards + [sh]) {
      if n == sh.disk.node {
        assert sh in shards + [sh];
      } else {
        var x :| x in shards && x.disk.node == n;
        assert x in shards + [sh];
      }
    }
  }

  /** The round-robin loop, watched for a number of turns. */
  method Place(queues: seq<Queue>, turns: nat) returns (r: Option<seq<Shard>>, ghost last: Plan)
    requires queues != [] && Grouped(queues) && UsedSum(queues) == 0
    ensures r.Some? <==> HaltsWithin(queues, turns)
    ensures PlanOk(last) && forall d :: Listed(last.queues, d) ==> Listed(queues, d)
    ensures r.Some? ==> r.value == last.shards && |r.value| == SHARDS
    ensures exists n: nat :: last == Iterate(Begin(queues), n)
  {
    hide PlanOk, Grouped, Capacity, UsedSum, Open, Iterate, Listed;
    var s, turn := Begin(queues), 0;
    BeginOk(queues);
    IterateNone(s);
    while |s.shards| < SHARDS && turn < turns
      invariant PlanOk(s) && |s.shards| <= SHARDS && s.at < |s.queues|
      invariant turn <= turns && s == Iterate(Begin(queues), turn)
      invariant forall d :: Listed(s.queues, d) ==> Listed(queues, d)
    {
      StepKeeps(s);
      StepLists(s);
      IterateOne(Begin(queues), turn);
      s, turn := Step(s), turn + 1;
      StepInRange(s);
    }
    IterateMore(Begin(queues), turn, turns);
    r, last := if |s.shards| < SHARDS then None else Some(s.shards), s;
  }

  lemma IterateNone(s: Plan)
    requires s.at < |s.queues|
    ensures Iterate(s, 0) == s
  {
  }

  lemma IterateOne(s: Plan, n: nat)
    requires s.at < |s.queues|
    ensures Iterate(s, n + 1) == Step(Iterate(s, n))
  {
  }

  lemma StepInRange(s: Plan)
    requires PlanOk(s)
    ensures s.at < |s.queues|
  {
  }

  lemma StepLists(s: Plan)
    requires s.at < |s.queues|
    ensures forall d :: Listed(Step(s).queues, d) ==> Listed(s.queues, d)
  {
    forall d | Listed(Step(s).queues, d) ensures Listed(s.queues, d) {
      var x :| 0 <= x < |Step(s).queues| && d in Step(s).queues[x].disks;
      assert d in s.queues[x].disks;
    }
  }

  method GroupByNode(disks: seq<Disk>) returns (queues: seq<Queue>)
    ensures queues == Group(disks)
  {
    queues := [];
    for i := 0 to |disks|
      invariant queues == Group(disks[..i])
    {
      assert disks[..i + 1][..i] == disks[..i];
      queues := Insert(queues, disks[i]);
    }
    assert disks[..|disks|] == disks;
  }

  /** Plans a stripe over distinct candidate disks, watched for a number of turns of its loop; None
      is a planner that is still running.  Too few nodes or disks is an error.  Past those
      guards it stays running for ever if the nodes cannot take nine shards between them, and
      otherwise has planned a sound and evenly spread stripe, which the final validation passes,
      after at most nine rounds. */
  method PlanShards(disks: seq<Disk>, turns: nat) returns (r: Option<Result<seq<Shard>>>)
    requires forall i, j :: 0 <= i < j < |disks| ==> disks[i] != disks[j]
    ensures r == Some(Err) <==> |Group(disks)| < MIN_MACHINES || |disks| < SHARDS
    ensures r.Some? && r.value.Ok? ==> Sound(r.value.value, disks) && Spread(r.value.value, disks)
    ensures r != Some(Err) && Capacity(Group(disks)) < SHARDS ==> r.None?
    ensures r != Some(Err) && SHARDS <= Capacity(Group(disks)) && SHARDS * |Group(disks)| <= turns ==> r.Some?
  {
    hide Group, Grouped, Capacity, UsedSum, PlanOk, Sound, Spread, HaltsWithin, Iterate;
    var queues := GroupByNode(disks);
    if |queues| < MIN_MACHINES || |disks| < SHARDS {
      return Some(Err);
    }
    GroupIs(disks);
    HaltsIff(queues);
    var plan;
    ghost var last;
    plan, last := Place(queues, turns);
    if plan.None? {
      return None;
    }
    PlanSound(last, disks);
    ghost var n: nat :| last == Iterate(Begin(queues), n);
    PlanSpreads(disks, n);
    var ok := Validate(plan.value);
    SoundValid(plan.value, disks);
    if !ok {
      return Some(Err);
    }
    r := Some(Ok(plan.value));
  }

  lemma SoundValid(shards: seq<Shard>, disks: seq<Disk>)
    requires Sound(shards, disks)
    ensures |Nodes(shards)| >= MIN_MACHINES && forall n :: n in Nodes(shards) ==> Count(shards, n) <= MAX_PER_MACHINE
  {
  }
}
