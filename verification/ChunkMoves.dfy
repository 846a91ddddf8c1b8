/**
 One chunk on a data node, written and moved between disks concurrently.  The stores are
 write-once per (disk, generation); a Write reads the location, stores, then re-points the
 location, and a rebalance move reads, copies, then re-points by compare-and-set.  Every
 interleaving of those separate steps is a run of the machine below.
 */
module ChunkMoves {
  import opened Bytes

  datatype Loc = Loc(disk: nat, gen: nat)

  datatype Op =
    | Writing(data: seq<Byte>, at: Loc, stored: bool)
    | Moving(from: Loc, to: nat, payload: Option<seq<Byte>>, copied: bool)

  datatype State = State(
    stores: map<Loc, seq<Byte>>,
    loc: Option<Loc>,
    ops: map<nat, Op>)

  datatype Event =
    | BeginWrite(id: nat, data: seq<Byte>, pick: nat)
    | StoreWrite(id: nat, ok: bool)
    | Locate(id: nat)
    | BeginMove(id: nat, from: nat, to: nat)
    | ReadSource(id: nat)
    | CopyTo(id: nat, ok: bool)
    | Commit(id: nat)

  function Empty(): State { State(map[], None, map[]) }

  /** The located generation; 0 before the first Write completes. */
  function Gen(s: State): nat { if s.loc.Some? then s.loc.value.gen else 0 }

  /** nextLoc: the current disk at the next generation, or a fresh disk at generation 1. */
  function NextLoc(s: State, pick: nat): Loc {
    if s.loc.Some? then Loc(s.loc.value.disk, s.loc.value.gen + 1) else Loc(pick, 1)
  }

  /** The segment store's fence: a repeat of the same payload succeeds, any other payload on a
      taken generation is stale. */
  predicate Accepts(stores: map<Loc, seq<Byte>>, at: Loc, data: seq<Byte>) { at in stores ==> stores[at] == data }

  function Step(s: State, e: Event): State {
    match e
    case BeginWrite(id, data, pick) =>
      if id in s.ops then s else s.(ops := s.ops[id := Writing(data, NextLoc(s, pick), false)])
    case StoreWrite(id, ok) =>
      if id !in s.ops || !s.ops[id].Writing? || s.ops[id].stored then s
      else
        var op := s.ops[id];
        if ok && Accepts(s.stores, op.at, op.data)
        then s.(stores := s.stores[op.at := op.data], ops := s.ops[id := op.(stored := true)])
        else s.(ops := s.ops - {id})
    case Locate(id) =>
      if id !in s.ops || !s.ops[id].Writing? || !s.ops[id].stored then s
      else s.(loc := Some(s.ops[id].at), ops := s.ops - {id})
    case BeginMove(id, from, to) =>
      if id in s.ops || from == to || s.loc.None? || s.loc.value.disk != from then s
      else s.(ops := s.ops[id := Moving(s.loc.value, to, None, false)])
    case ReadSource(id) =>
      if id !in s.ops || !s.ops[id].Moving? || s.ops[id].payload.Some? then s
      else if s.ops[id].from in s.stores
      then s.(ops := s.ops[id := s.ops[id].(payload := Some(s.stores[s.ops[id].from]))])
      else s.(ops := s.ops - {id})
    case CopyTo(id, ok) =>
      if id !in s.ops || !s.ops[id].Moving? || s.ops[id].payload.None? || s.ops[id].copied then s
      else
        var op := s.ops[id];
        var target := Loc(op.to, op.from.gen);
        if ok && Accepts(s.stores, target, op.payload.value)
        then s.(stores := s.stores[target := op.payload.value], ops := s.ops[id := op.(copied := true)])
        else s.(ops := s.ops - {id})
    case Commit(id) =>
      if id !in s.ops || !s.ops[id].Moving? || !s.ops[id].copied then s
      else
        var op := s.ops[id];
        s.(loc := if s.loc == Some(op.from) then Some(Loc(op.to, op.from.gen)) else s.loc, ops := s.ops - {id})
  }

  // ---------- what holds in every interleaving ----------

  ghost predicate OpOk(s: State, op: Op) {
    match op
    case Writing(data, at, stored) => stored ==> at in s.stores && s.stores[at] == data
    case Moving(from, to, payload, copied) =>
      && from in s.stores
      && (payload.Some? ==> payload.value == s.stores[from])
      && (copied ==> payload.Some? && Loc(to, from.gen) in s.stores && s.stores[Loc(to, from.gen)] == payload.value)
  }

  ghost predicate Inv(s: State) {
    && (s.loc.Some? ==> s.loc.value in s.stores)
    && forall id :: id in s.ops ==> OpOk(s, s.ops[id])
  }

  lemma {:induction false} StepKeeps(s: State, e: Event)
    requires Inv(s)
    ensures Inv(Step(s, e))
  {
    var s' := Step(s, e);
    assert forall at :: at in s.stores ==> at in s'.stores && s'.stores[at] == s.stores[at];
    forall id | id in s'.ops ensures OpOk(s', s'.ops[id]) {
      assert id in s.ops ==> OpOk(s, s.ops[id]);
    }
  }

  ghost function After(events: seq<Event>): (s: State)
    ensures Inv(s)
  {
    if events == [] then Empty()
    else
      var s := After(events[..|events| - 1]);
      StepKeeps(s, events[|events| - 1]);
      Step(s, events[|events| - 1])
  }

  /** What the call `id` was asked to write: the data of the last BeginWrite event of that ID that
      found it free. */
  ghost function AskedToWrite(events: seq<Event>, id: nat): seq<Byte> {
    if events == [] then []
    else
      var before, e := events[..|events| - 1], events[|events| - 1];
      if e.BeginWrite? && e.id == id && id !in After(before).ops then e.data else AskedToWrite(before, id)
  }

  /** What the last completed Write was asked to write: the one whose Locate took effect last. */
  ghost function LastWritten(events: seq<Event>): Option<seq<Byte>> {
    if events == [] then None
    else
      var before, e := events[..|events| - 1], events[|events| - 1];
      var s := After(before);
      if e.Locate? && e.id in s.ops && s.ops[e.id].Writing? && s.ops[e.id].stored
      then Some(AskedToWrite(before, e.id)) else LastWritten(before)
  }

  ghost predicate Agrees(events: seq<Event>, s: State) {
    && (forall id :: id in s.ops && s.ops[id].Writing? ==> s.ops[id].data == AskedToWrite(events, id))
    && (s.loc.None? <==> LastWritten(events).None?)
    && (s.loc.Some? ==> s.loc.value in s.stores && LastWritten(events) == Some(s.stores[s.loc.value]))
  }

  lemma Extended(events: seq<Event>, e: Event)
    ensures (events + [e])[..|events + [e]| - 1] == events
    ensures After(events + [e]) == Step(After(events), e)
  {
    assert (events + [e])[..|events|] == events;
  }

  lemma AskedMore(events: seq<Event>, e: Event, id: nat)
    ensures AskedToWrite(events + [e], id) ==
            if e.BeginWrite? && e.id == id && id !in After(events).ops then e.data else AskedToWrite(events, id)
  {
    Extended(events, e);
  }

  lemma WrittenMore(events: seq<Event>, e: Event)
    ensures var s := After(events);
            LastWritten(events + [e]) ==
            if e.Locate? && e.id in s.ops && s.ops[e.id].Writing? && s.ops[e.id].stored
            then Some(AskedToWrite(events, e.id)) else LastWritten(events)
  {
    Extended(events, e);
  }

  lemma AgreesStep(events: seq<Event>, e: Event)
    requires Agrees(events, After(events))
    ensures Agrees(events + [e], Step(After(events), e))
  {
    hide After, AskedToWrite, LastWritten;
    var s := After(events);
    assert Inv(s);
    forall id ensures AskedToWrite(events + [e], id) ==
      if e.BeginWrite? && e.id == id && id !in After(events).ops then e.data else AskedToWrite(events, id)
    {
      AskedMore(events, e, id);
    }
    WrittenMore(events, e);
    assert !e.BeginMove? && !e.BeginWrite? && e.id in s.ops ==> OpOk(s, s.ops[e.id]);
  }

  /** In every interleaving of any number of writes and moves, a read of the located extent
      returns what the last completed Write was asked to write. */
  lemma {:induction false} ReadsLatest(events: seq<Event>)
    ensures var s := After(events);
            && (s.loc.None? <==> LastWritten(events).None?)
            && (s.loc.Some? ==> s.loc.value in s.stores && LastWritten(events) == Some(s.stores[s.loc.value]))
  {
    RunAgrees(events);
  }

  lemma {:induction false} RunAgrees(events: seq<Event>)
    ensures Agrees(events, After(events))
  {
    if events != [] {
      var n := |events| - 1;
      RunAgrees(events[..n]);
      AgreesStep(events[..n], events[n]);
      assert events == events[..n] + [events[n]];
      Extended(events[..n], events[n]);
    }
  }

  /** The four events of an undisturbed move, and the three of an undisturbed Write. */
  function MoveEvents(id: nat, from: nat, to: nat): seq<Event> {
    [BeginMove(id, from, to)] + [ReadSource(id)] + [CopyTo(id, true)] + [Commit(id)]
  }

  function WriteEvents(id: nat, data: seq<Byte>, pick: nat): seq<Event> {
    [BeginWrite(id, data, pick)] + [StoreWrite(id, true)] + [Locate(id)]
  }

  /** A Write that nothing disturbs goes to the chunk's disk at the next generation, or to the
      picked disk at generation 1, and is read back; it is refused, and changes nothing, exactly
      when other bytes are stored there already. */
  lemma WriteAlone(events: seq<Event>, id: nat, data: seq<Byte>, pick: nat)
    requires id !in After(events).ops
    ensures var s, s' := After(events), After(events + WriteEvents(id, data, pick));
            var at := if s.loc.Some? then Loc(s.loc.value.disk, s.loc.value.gen + 1) else Loc(pick, 1);
            && s'.ops == s.ops
            && if at in s.stores && s.stores[at] != data then s' == s
               else s'.loc == Some(at) && s'.stores == s.stores[at := data]
  {
    hide After, Inv;
    var s := After(events);
    var e1, e2, e3 := BeginWrite(id, data, pick), StoreWrite(id, true), Locate(id);
    Extended(events, e1);
    Extended(events + [e1], e2);
    Extended(events + [e1] + [e2], e3);
    assert events + WriteEvents(id, data, pick) == events + [e1] + [e2] + [e3];
    assert s.ops[id := Writing(data, NextLoc(s, pick), false)] - {id} == s.ops;
    assert s.ops[id := Writing(data, NextLoc(s, pick), true)] - {id} == s.ops;
  }

  /** A move that nothing disturbs takes the located extent to the other disk at its generation;
      it is refused exactly when other bytes are stored there already. */
  lemma MoveAlone(events: seq<Event>, id: nat, to: nat)
    requires id !in After(events).ops && After(events).loc.Some? && After(events).loc.value.disk != to
    ensures var s := After(events);
            var s', at := After(events + MoveEvents(id, s.loc.value.disk, to)), Loc(to, s.loc.value.gen);
            && s'.ops == s.ops && s.loc.value in s.stores
            && if at in s.stores && s.stores[at] != s.stores[s.loc.value] then s' == s
               else s'.loc == Some(at) && s'.stores == s.stores[at := s.stores[s.loc.value]]
  {
    hide After;
    var s := After(events);
    var from := s.loc.value;
    var data := s.stores[from];
    var e1, e2, e3, e4 := BeginMove(id, from.disk, to), ReadSource(id), CopyTo(id, true), Commit(id);
    Extended(events, e1);
    Extended(events + [e1], e2);
    Extended(events + [e1] + [e2], e3);
    Extended(events + [e1] + [e2] + [e3], e4);
    assert events + MoveEvents(id, from.disk, to) == events + [e1] + [e2] + [e3] + [e4];
    hide Inv;
    var s2 := s.(ops := s.ops[id := Moving(from, to, Some(data), false)]);
    assert After(events + [e1] + [e2]) == s2;
    assert s2.ops - {id} == s.ops && s.ops[id := Moving(from, to, Some(data), true)] - {id} == s.ops;
  }

  /** A committed move re-points the chunk, keeps its generation and never changes what is
      read. */
  lemma {:induction false} MoveKeepsBytes(events: seq<Event>, id: nat)
    requires var s := After(events); id in s.ops && s.ops[id].Moving? && s.ops[id].copied && s.loc == Some(s.ops[id].from)
    ensures var s, s' := After(events), Step(After(events), Commit(id));
            && s'.loc == Some(Loc(s.ops[id].to, s.loc.value.gen)) && s.loc.value in s.stores && s'.loc.value in s'.stores
            && s'.stores[s'.loc.value] == s.stores[s.loc.value]
  {
    assert OpOk(After(events), After(events).ops[id]);
  }

  // ---------- generations ----------

  ghost function Writers(s: State): set<nat> { set id | id in s.ops && s.ops[id].Writing? }

  /** At most n Writes are in flight at any point of the run. */
  ghost predicate Bounded(events: seq<Event>, n: nat) {
    |Writers(After(events))| <= n && (events != [] ==> Bounded(events[..|events| - 1], n))
  }

  /** No step of the run lowers the located generation. */
  ghost predicate Forward(events: seq<Event>) {
    events != [] ==>
      var before := events[..|events| - 1];
      Forward(before) && Gen(After(before)) <= Gen(After(events))
  }

  /** Every generation has one payload, wherever it is stored. */
  ghost predicate OnePayload(s: State) {
    forall a, b :: a in s.stores && b in s.stores && a.gen == b.gen ==> s.stores[a] == s.stores[b]
  }

  ghost predicate Single(s: State) { forall i, j :: i in Writers(s) && j in Writers(s) ==> i == j }

  /** With at most one Write in flight: it is one generation ahead, and nothing else is. */
  ghost predicate Solo(s: State) {
    && Single(s)
    && (forall i :: i in Writers(s) ==> s.ops[i].at.gen == Gen(s) + 1)
    && (forall i :: i in s.ops && s.ops[i].Moving? ==> s.ops[i].from.gen <= Gen(s))
    && (forall at :: at in s.stores ==>
          at.gen <= Gen(s) || exists i :: i in Writers(s) && s.ops[i].stored && s.ops[i].at == at)
    && OnePayload(s)
  }

  lemma AtMostOne(s: State)
    requires |Writers(s)| <= 1
    ensures Single(s)
  {
    forall i, j | i in Writers(s) && j in Writers(s) ensures i == j {
      if i != j {
        PairSize(Writers(s), i, j);
      }
    }
  }

  lemma PairSize(S: set<nat>, i: nat, j: nat)
    requires i in S && j in S && i != j
    ensures |S| >= 2
  {
    assert S == {i, j} + (S - {i, j});
  }

  lemma BeginStep(s: State, id: nat, data: seq<Byte>, pick: nat)
    requires Inv(s) && Solo(s) && Single(Step(s, BeginWrite(id, data, pick)))
    ensures Solo(Step(s, BeginWrite(id, data, pick)))
  {
    var s' := Step(s, BeginWrite(id, data, pick));
    forall i | i in Writers(s) ensures i in Writers(s') && s'.ops[i] == s.ops[i] {
    }
  }

  lemma StoreStep(s: State, id: nat, ok: bool)
    requires Inv(s) && Solo(s)
    ensures Solo(Step(s, StoreWrite(id, ok)))
  {
    var s' := Step(s, StoreWrite(id, ok));
    assert Writers(s') <= Writers(s);
    if id in Writers(s) && !s.ops[id].stored {
      assert forall at :: at in s.stores ==> at.gen <= Gen(s);
      assert id in s'.ops ==> id in Writers(s');
    }
  }

  lemma LocateStep(s: State, id: nat)
    requires Inv(s) && Solo(s)
    ensures Solo(Step(s, Locate(id))) && Gen(s) <= Gen(Step(s, Locate(id)))
  {
    assert id in s.ops && s.ops[id].Writing? ==> id in Writers(s);
  }

  /** A step that leaves the Writes and the generation alone. */
  lemma SoloSame(s: State, s': State)
    requires Solo(s) && Gen(s') == Gen(s) && Writers(s') == Writers(s)
    requires forall i :: i in Writers(s) ==> s'.ops[i] == s.ops[i]
    requires forall i :: i in s'.ops && s'.ops[i].Moving? ==> s'.ops[i].from.gen <= Gen(s)
    requires forall at :: at in s'.stores ==> at in s.stores || at.gen <= Gen(s)
    requires OnePayload(s')
    ensures Solo(s')
  {
  }

  lemma MoveStep(s: State, e: Event)
    requires Inv(s) && Solo(s) && (e.BeginMove? || e.ReadSource? || e.Commit?)
    ensures Solo(Step(s, e)) && Gen(s) == Gen(Step(s, e))
  {
    hide Inv;
    var s' := Step(s, e);
    assert Writers(s') == Writers(s);
    SoloSame(s, s');
  }

  lemma CopyPayload(s: State, id: nat, ok: bool)
    requires Inv(s) && OnePayload(s)
    ensures OnePayload(Step(s, CopyTo(id, ok)))
  {
    if id in s.ops {
      assert OpOk(s, s.ops[id]);
    }
  }

  lemma CopyStep(s: State, id: nat, ok: bool)
    requires Inv(s) && Solo(s)
    ensures Solo(Step(s, CopyTo(id, ok))) && Gen(s) == Gen(Step(s, CopyTo(id, ok)))
  {
    CopyPayload(s, id, ok);
    hide Inv, OnePayload;
    var s' := Step(s, CopyTo(id, ok));
    assert Writers(s') == Writers(s);
    SoloSame(s, s');
  }

  lemma SoloStep(s: State, e: Event)
    requires Inv(s) && Solo(s) && |Writers(Step(s, e))| <= 1
    ensures Solo(Step(s, e)) && Gen(s) <= Gen(Step(s, e))
  {
    AtMostOne(Step(s, e));
    match e
    case BeginWrite(id, data, pick) => BeginStep(s, id, data, pick);
    case StoreWrite(id, ok) => StoreStep(s, id, ok);
    case Locate(id) => LocateStep(s, id);
    case CopyTo(id, ok) => CopyStep(s, id, ok);
    case _ => MoveStep(s, e);
  }

  /** With Writes serialized, generations only go forward and each has one payload. */
  lemma {:induction false} SerializedWrites(events: seq<Event>)
    requires Bounded(events, 1)
    ensures Forward(events) && Solo(After(events))
  {
    if events != [] {
      var before := events[..|events| - 1];
      SerializedWrites(before);
      SoloStep(After(before), events[|events| - 1]);
    }
  }

  /** So a Write that starts when none is in flight, in a run that never had two, is accepted. */
  lemma SerializedWriteAccepted(events: seq<Event>, id: nat, data: seq<Byte>, pick: nat)
    requires Bounded(events, 1) && Writers(After(events)) == {} && id !in After(events).ops
    ensures var s, s' := After(events), After(events + WriteEvents(id, data, pick));
            && Gen(s') == Gen(s) + 1 && s'.loc.Some? && s'.loc.value in s'.stores && s'.stores[s'.loc.value] == data
            && LastWritten(events + WriteEvents(id, data, pick)) == Some(data)
  {
    SerializedWrites(events);
    hide Bounded, After, LastWritten;
    WriteAlone(events, id, data, pick);
    assert forall at :: at in After(events).stores ==> at.gen <= Gen(After(events));
    ReadsLatest(events + WriteEvents(id, data, pick));
  }

  lemma {:induction false} BoundedLess(events: seq<Event>, m: nat, n: nat)
    requires Bounded(events, m) && m <= n
    ensures Bounded(events, n)
  {
    if events != [] {
      BoundedLess(events[..|events| - 1], m, n);
    }
  }

  /** One more event of the run below, which ends in state `s`. */
  lemma Grow(events: seq<Event>, e: Event, s: State)
    requires Bounded(events, 2) && Step(After(events), e) == s && |Writers(s)| <= 2
    ensures Bounded(events + [e], 2) && After(events + [e]) == s
    ensures Forward(events + [e]) ==> Gen(After(events)) <= Gen(s)
  {
    Extended(events, e);
  }

  /** Two overlapping Writes of the same bytes: the slower one passes the idempotence check
      after the chunk was overwritten, and points it back at the old generation. */
  lemma {:induction false} OverlapGoesBack() returns (run: seq<Event>)
    ensures Bounded(run, 2) && !Forward(run)
  {
    var x: seq<Byte>, y: seq<Byte> := [1], [2];
    var one, two := Loc(0, 1), Loc(0, 2);
    var slow := Writing(x, one, false);
    assert Writers(Empty()) == {};
    var s1 := State(map[], None, map[0 := slow]);
    assert Writers(s1) == {0};
    Grow([], BeginWrite(0, x, 0), s1);
    var s2 := s1.(ops := s1.ops[1 := slow]);
    assert Writers(s2) == {0, 1};
    Grow([BeginWrite(0, x, 0)], BeginWrite(1, x, 0), s2);
    run := [BeginWrite(0, x, 0)] + [BeginWrite(1, x, 0)];
    run := Overtake(run, x, y);
  }

  /** From two planned Writes of x at generation 1, one completes, y overwrites it, and the
      other completes. */
  lemma Overtake(start: seq<Event>, x: seq<Byte>, y: seq<Byte>) returns (run: seq<Event>)
    requires Bounded(start, 2)
    requires var slow := Writing(x, Loc(0, 1), false);
             After(start) == State(map[], None, map[0 := slow, 1 := slow])
    ensures Bounded(run, 2) && !Forward(run)
  {
    var one, two := Loc(0, 1), Loc(0, 2);
    var slow := Writing(x, one, false);
    var s3 := State(map[one := x], None, map[0 := slow, 1 := Writing(x, one, true)]);
    assert Writers(s3) == {0, 1};
    Grow(start, StoreWrite(1, true), s3);
    var s4 := State(map[one := x], Some(one), map[0 := slow]);
    assert s3.ops - {1} == s4.ops && Writers(s4) == {0};
    Grow(start + [StoreWrite(1, true)], Locate(1), s4);
    run := Rewind(start + [StoreWrite(1, true)] + [Locate(1)], x, y);
  }

  lemma Rewind(start: seq<Event>, x: seq<Byte>, y: seq<Byte>) returns (run: seq<Event>)
    requires Bounded(start, 2)
    requires After(start) == State(map[Loc(0, 1) := x], Some(Loc(0, 1)), map[0 := Writing(x, Loc(0, 1), false)])
    ensures Bounded(run, 2) && !Forward(run)
  {
    var one, two := Loc(0, 1), Loc(0, 2);
    var slow := Writing(x, one, false);
    var s5 := State(map[one := x], Some(one), map[0 := slow, 1 := Writing(y, two, false)]);
    assert Writers(s5) == {0, 1};
    Grow(start, BeginWrite(1, y, 0), s5);
    var s6 := State(map[one := x, two := y], Some(one), map[0 := slow, 1 := Writing(y, two, true)]);
    assert Writers(s6) == {0, 1};
    Grow(start + [BeginWrite(1, y, 0)], StoreWrite(1, true), s6);
    run := Finish(start + [BeginWrite(1, y, 0)] + [StoreWrite(1, true)], x, y);
  }

  lemma Finish(start: seq<Event>, x: seq<Byte>, y: seq<Byte>) returns (run: seq<Event>)
    requires Bounded(start, 2)
    requires After(start) == State(map[Loc(0, 1) := x, Loc(0, 2) := y], Some(Loc(0, 1)),
                                   map[0 := Writing(x, Loc(0, 1), false), 1 := Writing(y, Loc(0, 2), true)])
    ensures Bounded(run, 2) && !Forward(run)
  {
    var one, two := Loc(0, 1), Loc(0, 2);
    var s6, both := After(start), map[one := x, two := y];
    var s7 := State(both, Some(two), map[0 := Writing(x, one, false)]);
    assert s6.ops - {1} == s7.ops && Writers(s7) == {0};
    Grow(start, Locate(1), s7);
    run := start + [Locate(1)];
    var s8 := s7.(ops := map[0 := Writing(x, one, true)]);
    assert both[one := x] == both && Writers(s8) == {0};
    Grow(run, StoreWrite(0, true), s8);
    run := run + [StoreWrite(0, true)];
    var s9 := State(both, Some(one), map[]);
    assert s8.ops - {0} == s9.ops && Writers(s9) == {};
    Grow(run, Locate(0), s9);
    run := run + [Locate(0)];
  }

  /** The located generation never goes back, in every run with at most n Writes in flight, if
      and only if n is at most one. */
  lemma {:induction false} ForwardIffSerialized(n: nat)
    ensures (forall events :: Bounded(events, n) ==> Forward(events)) <==> n <= 1
  {
    if n <= 1 {
      forall events | Bounded(events, n) ensures Forward(events) {
        BoundedLess(events, n, 1);
        SerializedWrites(events);
      }
    } else {
      var run := OverlapGoesBack();
      BoundedLess(run, 2, n);
    }
  }
}
