/**
 The heartbeat reporter: a cached snapshot of the store, the state metadata has acknowledged,
 and the delta between the two that each tick sends.
 */
module Heartbeat {
  import opened Bytes

  datatype ReplicaState = Syncing | Ready | Stale | Failed

  type States = map<nat, ReplicaState>

  /** Delta reports acknowledged before a full sync is due again. */
  const FULL_SYNC_INTERVAL: nat := 6

  /** What became of one report. */
  datatype Outcome = Acked | Lost | AppliedUnacked

  function Changed(known: States, snapshot: States): States {
    map id | id in snapshot && !(id in known && known[id] == snapshot[id]) :: snapshot[id]
  }

  function Gone(known: States, snapshot: States): set<nat> { set id | id in known && id !in snapshot }

  function Marked(ids: set<nat>): States { map id | id in ids :: Failed }

  /** The chunks a report names: new or changed ones, and, except on a full sync, the ones that
      are gone, marked failed. */
  function Delta(known: States, snapshot: States, full: bool): States {
    if full then Changed(known, snapshot) else Changed(known, snapshot) + Marked(Gone(known, snapshot))
  }

  /** The acknowledged state as the reporter updates it. */
  function Acknowledge(known: States, snapshot: States, full: bool): States {
    if full then snapshot else known + Delta(known, snapshot, full) - Gone(known, snapshot)
  }

  /** Metadata's view covers what was acknowledged. */
  ghost predicate Covers(view: States, known: States) {
    forall id :: id in known ==> id in view && view[id] == known[id]
  }

  /** Updating by the delta leaves exactly the snapshot acknowledged, full sync or not. */
  lemma {:induction false} AcknowledgeIs(known: States, snapshot: States, full: bool)
    ensures Acknowledge(known, snapshot, full) == snapshot
  {
    if !full {
      var after := Acknowledge(known, snapshot, full);
      assert forall id :: id in after <==> id in snapshot;
      assert forall id :: id in after ==> after[id] == snapshot[id];
    }
  }

  /** A view that covers the acknowledged state covers the snapshot once the delta is applied; a
      delta tick also marks every chunk that is gone, a full sync leaves those untouched. */
  lemma {:induction false} DeltaCovers(view: States, known: States, snapshot: States, full: bool)
    requires Covers(view, known)
    ensures var after := view + Delta(known, snapshot, full);
            && Covers(after, snapshot)
            && (!full ==> forall id :: id in known && id !in snapshot ==> id in after && after[id] == Failed)
            && (full ==> forall id :: id !in snapshot ==>
                  (id in after <==> id in view) && (id in view ==> after[id] == view[id]))
  {
  }

  /** What a report does to the chunks that are gone, whatever the view was. */
  lemma DeltaMarks(view: States, known: States, snapshot: States, full: bool)
    ensures var after := view + Delta(known, snapshot, full);
            if full then forall id :: id !in snapshot ==>
              (id in after <==> id in view) && (id in view ==> after[id] == view[id])
            else forall id :: id in known && id !in snapshot ==> id in after && after[id] == Failed
  {
  }

  /** A chunk that is gone, and was not known failed, is marked failed by a delta report and by no
      full one. */
  lemma {:induction false} GoneMarkedIff(view: States, known: States, snapshot: States, full: bool, id: nat)
    requires Covers(view, known) && id in known && known[id] != Failed && id !in snapshot
    ensures var after := view + Delta(known, snapshot, full); id in after && (after[id] == Failed <==> !full)
  {
    DeltaMarks(view, known, snapshot, full);
  }

  /** A report that was applied but not acknowledged, followed by an acknowledged one: metadata
      ends up right on every live chunk if and only if no live chunk went back to its last
      acknowledged state in between. */
  lemma {:induction false} UnackedReportIff(view: States, known: States, first: States, second: States, full: bool, full': bool)
    requires Covers(view, known)
    ensures var sent := Delta(known, first, full);
            Covers(view + sent + Delta(known, second, full'), second)
            <==> forall id :: id in second && id in known && known[id] == second[id] && id in sent ==> sent[id] == second[id]
  {
    var sent := Delta(known, first, full);
    var last := Delta(known, second, full');
    var after := view + sent + last;
    forall id | id in second ensures id in after &&
      (after[id] == second[id] <==>
        !(id in known && known[id] == second[id] && id in sent && sent[id] != second[id]))
    {
      assert id in last ==> last[id] == second[id];
    }
  }

  // ---------- the reporter as values ----------

  datatype Reporter = Reporter(
    known: States,
    forceFull: bool,
    snapshot: Option<States>,
    snapshotVersion: nat,
    fullSyncVersion: nat,
    fullSyncCounter: nat)

  datatype Tick = Beat(version: nat, current: States, outcome: Outcome) | Force

  function NewReporter(): Reporter { Reporter(map[], false, None, 0, 0, 0) }

  predicate NeedsFull(r: Reporter, version: nat) {
    r.forceFull || r.known == map[] || (r.fullSyncCounter >= FULL_SYNC_INTERVAL && version != r.fullSyncVersion)
  }

  /** The snapshot a tick uses: the cached one while the store version is unchanged. */
  function Used(cached: Option<States>, cachedVersion: nat, version: nat, current: States): States {
    if cached.None? || cachedVersion != version then current else cached.value
  }

  function Report(r: Reporter, version: nat, current: States): States {
    Delta(r.known, Used(r.snapshot, r.snapshotVersion, version, current), NeedsFull(r, version))
  }

  function Next(r: Reporter, t: Tick): Reporter {
    match t
    case Force => r.(forceFull := true, known := map[], snapshot := None)
    case Beat(version, current, outcome) =>
      var s := Used(r.snapshot, r.snapshotVersion, version, current);
      var full := NeedsFull(r, version);
      var r' := r.(forceFull := false, snapshot := Some(s), snapshotVersion := version);
      if !outcome.Acked? then r'
      else if full then r'.(known := s, fullSyncVersion := version, fullSyncCounter := 0)
      else r'.(known := Acknowledge(r.known, s, false), fullSyncCounter := r.fullSyncCounter + 1)
  }

  /** Metadata's view once the report of one tick, if it arrives, is merged in. */
  function Merged(view: States, r: Reporter, t: Tick): States {
    match t
    case Force => view
    case Beat(version, current, outcome) => if outcome.Lost? then view else view + Report(r, version, current)
  }

  function After(r: Reporter, ticks: seq<Tick>): Reporter {
    if ticks == [] then r else Next(After(r, ticks[..|ticks| - 1]), ticks[|ticks| - 1])
  }

  /** The fold of the reports sent in a run. */
  function ViewAfter(view: States, r: Reporter, ticks: seq<Tick>): States {
    if ticks == [] then view
    else
      var before, t := ticks[..|ticks| - 1], ticks[|ticks| - 1];
      Merged(ViewAfter(view, r, before), After(r, before), t)
  }

  lemma ForcedReport(r: Reporter, version: nat, s: States)
    requires r.forceFull && r.known == map[] && r.snapshot.None?
    ensures Changed(r.known, s) == s && Report(r, version, s) == s
  {
    assert Changed(map[], s) == s;
  }

  // ---------- whole runs ----------

  /** The snapshot in force after a run: that of the last tick which rebuilt it, which a tick does
      after a forced sync or when the store version has moved. */
  function Snap(cached: Option<States>, version: nat, ticks: seq<Tick>): (Option<States>, nat) {
    if ticks == [] then (cached, version)
    else
      var (s, v) := Snap(cached, version, ticks[..|ticks| - 1]);
      match ticks[|ticks| - 1]
      case Force => (None, v)
      case Beat(version', current, _) => (if s.Some? && v == version' then s else Some(current), version')
  }

  /** No report was applied without being acknowledged since the last forced sync. */
  predicate Clean(ticks: seq<Tick>) {
    ticks == [] || ticks[|ticks| - 1].Force? ||
    (!ticks[|ticks| - 1].outcome.AppliedUnacked? && Clean(ticks[..|ticks| - 1]))
  }

  predicate EndsAcked(ticks: seq<Tick>) {
    ticks != [] && ticks[|ticks| - 1].Beat? && ticks[|ticks| - 1].outcome.Acked?
  }

  /** Every run, with reports lost or applied without an acknowledgement anywhere in it: an
      acknowledged tick leaves exactly the snapshot in force acknowledged, and metadata agrees with
      it on every live chunk unless an unacknowledged report was applied after the last
      forced sync. */
  lemma {:induction false} RunCovers(view: States, r: Reporter, ticks: seq<Tick>)
    requires Covers(view, r.known)
    ensures var (snapshot, version) := Snap(r.snapshot, r.snapshotVersion, ticks);
            var end, seen := After(r, ticks), ViewAfter(view, r, ticks);
            && end.snapshot == snapshot && end.snapshotVersion == version
            && (Clean(ticks) ==> Covers(seen, end.known))
            && (EndsAcked(ticks) ==> snapshot == Some(end.known))
            && (EndsAcked(ticks) && Clean(ticks) ==> snapshot.Some? && Covers(seen, snapshot.value))
  {
    hide Delta, Acknowledge;
    if ticks != [] {
      var before, t := ticks[..|ticks| - 1], ticks[|ticks| - 1];
      var mid, midView := After(r, before), ViewAfter(view, r, before);
      RunCovers(view, r, before);
      if t.Beat? {
        var s, full := Used(mid.snapshot, mid.snapshotVersion, t.version, t.current), NeedsFull(mid, t.version);
        AcknowledgeIs(mid.known, s, full);
        if Clean(ticks) {
          DeltaCovers(midView, mid.known, s, full);
        }
      }
    }
  }

  /** Every tick is acknowledged, finds the store changed since every tick before, and finds a chunk
      in it. */
  ghost predicate Steady(ticks: seq<Tick>) {
    && (forall i :: 0 <= i < |ticks| ==> ticks[i].Beat? && ticks[i].outcome.Acked? && ticks[i].current != map[])
    && (forall i, j :: 0 <= i < j < |ticks| ==> ticks[i].version < ticks[j].version)
  }

  /** The reporter after a steady run: the counter starts over with every seventh tick. */
  lemma {:induction false} SteadyState(ticks: seq<Tick>)
    requires Steady(ticks) && ticks != []
    ensures var last := ticks[|ticks| - 1];
            After(NewReporter(), ticks) == Reporter(last.current, false, Some(last.current), last.version,
              ticks[(|ticks| - 1) / 7 * 7].version, (|ticks| - 1) % 7)
  {
    hide Delta, Acknowledge;
    var before, last := ticks[..|ticks| - 1], ticks[|ticks| - 1];
    if before == [] {
      assert ticks[0] == last;
    } else {
      SteadyState(before);
      var mid := After(NewReporter(), before);
      assert last.version > ticks[(|before| - 1) / 7 * 7].version;
      AcknowledgeIs(mid.known, last.current, false);
      assert NeedsFull(mid, last.version) <==> (|ticks| - 1) % 7 == 0;
    }
  }

  /** A chunk that a steady run deletes between two ticks is marked failed by the later of them,
      except by every seventh tick: that one is a full sync, which leaves the chunk as metadata
      had it, and no later tick reports it. */
  lemma {:induction false} SeventhTickMissesDeletion(ticks: seq<Tick>, id: nat)
    requires Steady(ticks) && |ticks| >= 2
    requires id in ticks[|ticks| - 2].current && ticks[|ticks| - 2].current[id] != Failed
    requires id !in ticks[|ticks| - 1].current
    ensures var n := |ticks| - 1;
            var was, seen := ticks[n - 1].current[id], ViewAfter(map[], NewReporter(), ticks);
            && id in seen && seen[id] == (if n % 7 == 0 then was else Failed)
            && After(NewReporter(), ticks).known == ticks[n].current
  {
    hide Delta, Acknowledge, Covers;
    var before, last := ticks[..|ticks| - 1], ticks[|ticks| - 1];
    var r := NewReporter();
    var mid, view := After(r, before), ViewAfter(map[], r, before);
    SteadyState(before);
    SteadyState(ticks);
    SteadyClean(before);
    assert Covers(map[], r.known) by { NothingCovered(); }
    RunCovers(map[], r, before);
    CoveredAt(view, mid.known, id);
    assert last.version > ticks[(|before| - 1) / 7 * 7].version;
    assert NeedsFull(mid, last.version) <==> (|ticks| - 1) % 7 == 0;
    DeltaMarks(view, mid.known, last.current, NeedsFull(mid, last.version));
  }

  lemma {:induction false} SteadyClean(ticks: seq<Tick>)
    requires Steady(ticks)
    ensures Clean(ticks)
  {
    if ticks != [] {
      SteadyClean(ticks[..|ticks| - 1]);
    }
  }

  lemma NothingCovered()
    ensures Covers(map[], map[])
  {
  }

  lemma CoveredAt(view: States, known: States, id: nat)
    requires Covers(view, known) && id in known
    ensures id in view && view[id] == known[id]
  {
  }

  lemma Extended(view: States, r: Reporter, ticks: seq<Tick>, t: Tick, r': Reporter, view': States)
    requires Next(After(r, ticks), t) == r' && Merged(ViewAfter(view, r, ticks), After(r, ticks), t) == view'
    ensures After(r, ticks + [t]) == r' && ViewAfter(view, r, ticks + [t]) == view'
  {
    assert (ticks + [t])[..|ticks|] == ticks;
  }

  /** The three reports of a chunk that goes from ready to syncing and back. */
  lemma ReturnedDeltas(first: States, second: States, third: States)
    requires first == map[7 := Ready, 8 := Ready] && second == map[7 := Syncing, 8 := Ready]
    requires third == map[7 := Ready, 8 := Stale]
    ensures Delta(map[], first, true) == first
    ensures first + Delta(first, second, false) == second
    ensures second + Delta(first, third, false) == map[7 := Syncing, 8 := Stale]
  {
    assert Gone(first, second) == {} && Gone(first, third) == {};
  }

  /** A chunk that is acknowledged ready, reported syncing without an acknowledgement, and ready
      again: metadata keeps it syncing although the last report was acknowledged. */
  lemma {:induction false} ReturnedChunkStale(first: States, second: States, third: States, ticks: seq<Tick>)
    requires first == map[7 := Ready, 8 := Ready] && second == map[7 := Syncing, 8 := Ready]
    requires third == map[7 := Ready, 8 := Stale]
    requires ticks == [Beat(1, first, Acked), Beat(2, second, AppliedUnacked), Beat(3, third, Acked)]
    ensures EndsAcked(ticks) && After(NewReporter(), ticks).known == third
    ensures ViewAfter(map[], NewReporter(), ticks) == map[7 := Syncing, 8 := Stale]
  {
    hide Delta, Acknowledge, After, ViewAfter;
    var r0, empty: States := NewReporter(), map[];
    var r1 := Reporter(first, false, Some(first), 1, 1, 0);
    var r2 := r1.(snapshot := Some(second), snapshotVersion := 2);
    ReturnedDeltas(first, second, third);
    AcknowledgeIs(first, third, false);
    NothingYet(empty, r0);
    assert empty + first == first;
    Extended(empty, r0, [], ticks[0], r1, first);
    assert 7 in first;
    Extended(empty, r0, [] + [ticks[0]], ticks[1], r2, second);
    Extended(empty, r0, [] + [ticks[0]] + [ticks[1]], ticks[2],
      Reporter(third, false, Some(third), 3, 1, 1), map[7 := Syncing, 8 := Stale]);
    assert ticks == [] + [ticks[0]] + [ticks[1]] + [ticks[2]];
  }

  lemma NothingYet(view: States, r: Reporter)
    ensures After(r, []) == r && ViewAfter(view, r, []) == view
  {
  }

  /** A chunk deleted before a forced sync stays ready in metadata, and nothing is left to report:
      the reporter no longer knows it. */
  lemma DeletionMissed(both: States, one: States, ticks: seq<Tick>)
    requires both == map[7 := Ready, 8 := Ready] && one == map[8 := Ready]
    requires ticks == [Beat(1, both, Acked), Force, Beat(2, one, Acked)]
    ensures ViewAfter(map[], NewReporter(), ticks) == both && After(NewReporter(), ticks).known == one
  {
    var r0, empty: States := NewReporter(), map[];
    var r1 := Reporter(both, false, Some(both), 1, 1, 0);
    var r2 := r1.(forceFull := true, known := empty, snapshot := None);
    assert Delta(empty, both, true) == both && Delta(empty, one, true) == one;
    assert empty + both == both && both + one == both;
    Extended(empty, r0, [], ticks[0], r1, both);
    Extended(empty, r0, [] + [ticks[0]], ticks[1], r2, both);
    Extended(empty, r0, [] + [ticks[0]] + [ticks[1]], ticks[2], Reporter(one, false, Some(one), 2, 2, 0), both);
    assert ticks == [] + [ticks[0]] + [ticks[1]] + [ticks[2]];
  }

  /** The metadata side: reports are merged into one view. */
  class MetadataView {
    var states: States

    constructor ()
      ensures states == map[]
    {
      states := map[];
    }

    method Heartbeat(report: States)
      modifies this
      ensures states == old(states) + report
    {
      states := states + report;
    }
  }

  class HeartbeatReporter {
    const meta: MetadataView
    var known: States
    var forceFull: bool
    var snapshot: Option<States>
    var snapshotVersion: nat
    var fullSyncVersion: nat
    var fullSyncCounter: nat

    ghost function State(): Reporter
      reads this
    {
      Reporter(known, forceFull, snapshot, snapshotVersion, fullSyncVersion, fullSyncCounter)
    }

    constructor (meta: MetadataView)
      ensures this.meta == meta && State() == NewReporter()
    {
      this.meta := meta;
      known, forceFull, snapshot := map[], false, None;
      snapshotVersion, fullSyncVersion, fullSyncCounter := 0, 0, 0;
    }

    /** Reuses the cached snapshot while the store version is unchanged. */
    method Snapshot(version: nat, current: States) returns (s: States)
      modifies this`snapshot, this`snapshotVersion
      ensures snapshot == Some(s) && snapshotVersion == version
      ensures s == Used(old(snapshot), old(snapshotVersion), version, current)
    {
      if snapshot.None? || snapshotVersion != version {
        snapshot, snapshotVersion := Some(current), version;
      }
      s := snapshot.value;
    }

    /** The loop over the snapshot that finds new and changed chunks. */
    method FindChanged(s: States) returns (report: States)
      ensures report == Changed(known, s)
    {
      report := map[];
      var rest := s.Keys;
      while rest != {}
        invariant rest <= s.Keys
        invariant report == map id | id in s && id !in rest && !(id in known && known[id] == s[id]) :: s[id]
        decreases |rest|
      {
        HasId(rest);
        var id: nat :| id in rest;
        if id !in known || known[id] != s[id] {
          report := report[id := s[id]];
        }
        rest := rest - {id};
      }
    }

    /** The loop over the acknowledged state that finds the chunks that are gone. */
    method FindGone(s: States) returns (deleted: set<nat>)
      ensures deleted == Gone(known, s)
    {
      deleted := {};
      var rest := known.Keys;
      while rest != {}
        invariant rest <= known.Keys
        invariant deleted == set id | id in known && id !in rest && id !in s
        decreases |rest|
      {
        HasId(rest);
        var id: nat :| id in rest;
        if id !in s {
          deleted := deleted + {id};
        }
        rest := rest - {id};
      }
    }

    /** One tick.  After an acknowledged report the acknowledged state is the snapshot used and,
        where metadata's view covered the acknowledged state before, it agrees with the
        snapshot on every live chunk; a lost report changes neither side. */
    method Send(version: nat, current: States, outcome: Outcome) returns (s: States)
      modifies this, meta
      ensures State() == Next(old(State()), Beat(version, current, outcome))
      ensures meta.states == Merged(old(meta.states), old(State()), Beat(version, current, outcome))
      ensures s == Used(old(snapshot), old(snapshotVersion), version, current)
      ensures outcome.Acked? ==> known == s
      ensures old(Covers(meta.states, known)) && outcome.Acked? ==> Covers(meta.states, s)
      ensures outcome.Lost? ==> known == old(known) && meta.states == old(meta.states)
      ensures outcome.Acked? && !old(NeedsFull(State(), version)) ==>
                forall id :: id in old(known) && id !in s ==> id in meta.states && meta.states[id] == Failed
      ensures outcome.Acked? && old(NeedsFull(State(), version)) ==>
                fullSyncCounter == 0 &&
                forall id :: id !in s && id in old(meta.states) ==> id in meta.states && meta.states[id] == old(meta.states)[id]
    {
      hide Changed, Gone, Marked, Covers;
      ghost var r := State();
      s := Snapshot(version, current);
      var full := NeedFullSync(version);
      forceFull := false;
      var report := FindChanged(s);
      var deleted := {};
      if !full {
        deleted := FindGone(s);
        report := report + Marked(deleted);
      }
      if outcome.Lost? {
        return;
      }
      DeltaMarks(meta.states, known, s, full);
      if Covers(meta.states, known) {
        DeltaCovers(meta.states, known, s, full);
      }
      meta.Heartbeat(report);
      if outcome.AppliedUnacked? {
        return;
      }
      AcknowledgeIs(known, s, full);
      if full {
        known, fullSyncVersion, fullSyncCounter := s, version, 0;
      } else {
        known, fullSyncCounter := known + report - deleted, fullSyncCounter + 1;
      }
    }

    method NeedFullSync(version: nat) returns (full: bool)
      ensures full == NeedsFull(State(), version)
    {
      full := forceFull || known == map[] || (fullSyncCounter >= FULL_SYNC_INTERVAL && version != fullSyncVersion);
    }

    /** Forgets what was acknowledged: whatever the store holds at the next tick, its report is a
        full one that names every chunk of it. */
    method ForceFullSync()
      modifies this
      ensures State() == Next(old(State()), Force)
      ensures forall s :: Changed(known, s) == s
      ensures forall version, s :: Report(State(), version, s) == s
    {
      forceFull, known, snapshot := true, map[], None;
      forall version, s ensures Changed(known, s) == s && Report(State(), version, s) == s {
        ForcedReport(State(), version, s);
      }
    }
  }

  lemma HasId(s: set<nat>)
    ensures s == {} || exists id :: id in s
  {
    if forall id :: id !in s {
      assert s == {};
    }
  }

  /** Every run of ticks and forced syncs: the reporter and metadata's view end as the folds say,
      and so, from a covering view, what RunCovers states of them holds of the objects. */
  method Run(h: HeartbeatReporter, ticks: seq<Tick>)
    requires Covers(h.meta.states, h.known)
    modifies h, h.meta
    ensures h.State() == After(old(h.State()), ticks)
    ensures h.meta.states == ViewAfter(old(h.meta.states), old(h.State()), ticks)
    ensures Clean(ticks) ==> Covers(h.meta.states, h.known)
    ensures EndsAcked(ticks) ==> Snap(old(h.snapshot), old(h.snapshotVersion), ticks).0 == Some(h.known)
    ensures EndsAcked(ticks) && Clean(ticks) ==>
              && Snap(old(h.snapshot), old(h.snapshotVersion), ticks).0.Some?
              && Covers(h.meta.states, Snap(old(h.snapshot), old(h.snapshotVersion), ticks).0.value)
  {
    hide Covers, Next, Merged, Snap, Clean, EndsAcked;
    ghost var r, view := h.State(), h.meta.states;
    for i := 0 to |ticks|
      invariant h.State() == After(r, ticks[..i])
      invariant h.meta.states == ViewAfter(view, r, ticks[..i])
    {
      assert ticks[..i + 1][..i] == ticks[..i];
      match ticks[i] {
        case Beat(version, current, outcome) =>
          var s := h.Send(version, current, outcome);
        case Force =>
          h.ForceFullSync();
          MergedForce(ViewAfter(view, r, ticks[..i]), After(r, ticks[..i]));
      }
    }
    assert ticks[..|ticks|] == ticks;
    RunCovers(view, r, ticks);
  }

  lemma MergedForce(view: States, r: Reporter)
    ensures Merged(view, r, Force) == view
  {
  }
}
