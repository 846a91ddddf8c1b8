/**
 Purging a tombstoned chunk against a backup catalog that is being replaced concurrently.
 The purge reads the raw catalog, reads the catalog state and checks it, re-reads the raw
 catalog, and then removes the chunk by a conditional batch that compares the raw catalog.
 Each of those is a separate step; any number of purges interleave with replacements.
 */
module ChunkPurge {
  import opened Bytes

  /** 25 hours and 2 hours, in seconds. */
  const QUARANTINE: int := 90000
  const MAX_AGE: int := 7200
  const ATTEMPTS: nat := 3

  datatype Tombstone = Tombstone(deletedAt: int, deleteAfter: int)

  /** The creation times of the retained backups, and when the catalog was reconciled. */
  datatype Catalog = Catalog(backups: seq<int>, reconciledAt: int)

  datatype Phase =
    | ReadRaw
    | ReadState(raw: Catalog)
    | Reread(raw: Catalog, state: Catalog)
    | Committing(raw: Catalog)
    | Ended

  datatype Purge = Purge(tombstone: Tombstone, now: int, attempt: nat, phase: Phase)

  /** A committed purge: what was durable, and the time, at the instant of the commit. */
  datatype Commit = Commit(tombstone: Tombstone, catalog: Catalog, clock: int)

  datatype State = State(
    clock: int,
    catalog: Option<Catalog>,
    tombstone: Option<Tombstone>,
    purges: map<nat, Purge>,
    commits: seq<Commit>)

  datatype Event =
    | Tick(seconds: nat)
    | Delete
    | Replace(catalog: Catalog)
    | Begin(id: nat)
    | Advance(id: nat)

  /** The catalog retains a backup, and every one it retains was created after the deletion. */
  predicate Newer(c: Catalog, deletedAt: int) {
    c.backups != [] && forall b :: b in c.backups ==> deletedAt < b
  }

  /** canPurgeWithCatalog: a fresh, non-empty catalog whose every backup is newer than the
      deletion. */
  predicate CanPurge(t: Tombstone, now: int, c: Catalog) {
    c.reconciledAt <= now <= c.reconciledAt + MAX_AGE && Newer(c, t.deletedAt)
  }

  /** One step of a purge, on what is durable now. */
  function Next(s: State, p: Purge): Purge {
    match p.phase
    case ReadRaw => if s.catalog.None? then p.(phase := Ended) else p.(phase := ReadState(s.catalog.value))
    case ReadState(raw) =>
      if s.catalog.None? || !CanPurge(p.tombstone, p.now, s.catalog.value) then p.(phase := Ended)
      else p.(phase := Reread(raw, s.catalog.value))
    case Reread(raw, _) =>
      if s.catalog == Some(raw) then p.(phase := Committing(raw))
      else if p.attempt + 1 < ATTEMPTS then p.(attempt := p.attempt + 1, phase := ReadRaw)
      else p.(phase := Ended)
    case Committing(_) => p.(phase := Ended)
    case Ended => p
  }

  function Step(s: State, e: Event): State {
    match e
    case Tick(n) => s.(clock := s.clock + n)
    case Delete =>
      if s.tombstone.Some? then s else s.(tombstone := Some(Tombstone(s.clock, s.clock + QUARANTINE)))
    case Replace(c) => s.(catalog := Some(c))
    case Begin(id) =>
      if id in s.purges || s.tombstone.None? || s.clock < s.tombstone.value.deleteAfter then s
      else s.(purges := s.purges[id := Purge(s.tombstone.value, s.clock, 0, ReadRaw)])
    case Advance(id) =>
      if id !in s.purges then s
      else
        var p := s.purges[id];
        var s' := s.(purges := s.purges[id := Next(s, p)]);
        if p.phase.Committing? && s.catalog == Some(p.phase.raw) && s.tombstone == Some(p.tombstone)
        then s'.(tombstone := None, commits := s.commits + [Commit(p.tombstone, p.phase.raw, s.clock)])
        else s'
  }

  /** The quarantine of 25 hours was over, a backup was retained, and every backup durable at the
      commit was created strictly after the deletion. */
  predicate Safe(c: Commit) {
    && c.tombstone.deletedAt + 25 * 3600 <= c.clock
    && |c.catalog.backups| > 0 && forall i :: 0 <= i < |c.catalog.backups| ==> c.catalog.backups[i] > c.tombstone.deletedAt
  }

  lemma NewerIs(c: Catalog, t: int)
    ensures Newer(c, t) <==> |c.backups| > 0 && forall i :: 0 <= i < |c.backups| ==> c.backups[i] > t
  {
    assert forall i :: 0 <= i < |c.backups| ==> c.backups[i] in c.backups;
  }

  lemma SafeIs(c: Commit)
    requires c.tombstone.deleteAfter == c.tombstone.deletedAt + QUARANTINE
    ensures Safe(c) <==> c.tombstone.deleteAfter <= c.clock && Newer(c.catalog, c.tombstone.deletedAt)
  {
    NewerIs(c.catalog, c.tombstone.deletedAt);
  }

  predicate AllSafe(s: State) { forall c :: c in s.commits ==> Safe(c) }

  /** A replacement carries a later reconciliation time than the catalog it replaces. */
  predicate FreshEvent(s: State, e: Event) {
    e.Replace? && s.catalog.Some? ==> s.catalog.value.reconciledAt < e.catalog.reconciledAt
  }

  // ---------- the invariant of fresh runs ----------

  /** v was the durable catalog at some point, and is either still it or older. */
  ghost predicate Past(s: State, v: Catalog) {
    s.catalog.Some? && (v == s.catalog.value || v.reconciledAt < s.catalog.value.reconciledAt)
  }

  ghost predicate PurgeOk(s: State, p: Purge) {
    && p.tombstone.deleteAfter == p.tombstone.deletedAt + QUARANTINE
    && p.tombstone.deleteAfter <= p.now <= s.clock
    && match p.phase
       case ReadState(raw) => Past(s, raw)
       case Reread(raw, state) =>
         Past(s, raw) && Past(s, state) && (raw == state || raw.reconciledAt < state.reconciledAt) &&
         CanPurge(p.tombstone, p.now, state)
       case Committing(raw) => CanPurge(p.tombstone, p.now, raw)
       case _ => true
  }

  ghost predicate Inv(s: State) {
    && AllSafe(s) && (forall id :: id in s.purges ==> PurgeOk(s, s.purges[id]))
    && (s.tombstone.Some? ==> s.tombstone.value.deleteAfter == s.tombstone.value.deletedAt + QUARANTINE)
  }

  lemma {:induction false} StepKeeps(s: State, e: Event)
    requires Inv(s) && FreshEvent(s, e)
    ensures Inv(Step(s, e))
  {
    hide Safe;
    var s' := Step(s, e);
    forall id | id in s'.purges ensures PurgeOk(s', s'.purges[id]) {
      assert id in s.purges ==> PurgeOk(s, s.purges[id]);
    }
    CommitKeeps(s, e);
  }

  lemma CommitKeeps(s: State, e: Event)
    requires Inv(s)
    ensures AllSafe(Step(s, e))
  {
    hide Safe, Newer;
    forall c | c in Step(s, e).commits ensures Safe(c) {
      if c !in s.commits {
        assert e.Advance? && PurgeOk(s, s.purges[e.id]);
        SafeIs(c);
      }
    }
  }

  // ---------- whole runs ----------

  function Start(): State { State(0, None, None, map[], []) }

  function After(events: seq<Event>): State {
    if events == [] then Start() else Step(After(events[..|events| - 1]), events[|events| - 1])
  }

  predicate FreshRun(events: seq<Event>) {
    events != [] ==>
      var before := events[..|events| - 1];
      FreshRun(before) && FreshEvent(After(before), events[|events| - 1])
  }

  lemma {:induction false} FreshRunSafe(events: seq<Event>)
    requires FreshRun(events)
    ensures Inv(After(events))
  {
    if events != [] {
      FreshRunSafe(events[..|events| - 1]);
      StepKeeps(After(events[..|events| - 1]), events[|events| - 1]);
    }
  }

  lemma Extended(events: seq<Event>, e: Event, s: State)
    requires Step(After(events), e) == s
    ensures After(events + [e]) == s
  {
    assert (events + [e])[..|events + [e]| - 1] == events;
  }

  // ---------- runs that install only given catalogs ----------

  ghost predicate Installs(events: seq<Event>, catalogs: iset<Catalog>) {
    forall e :: e in events && e.Replace? ==> e.catalog in catalogs
  }

  /** The catalog admits, at some time after the quarantine, the purge of a chunk deleted at t. */
  predicate Admits(c: Catalog, t: int) {
    0 <= t && t + QUARANTINE <= c.reconciledAt + MAX_AGE && Newer(c, t)
  }

  /** Whenever one of the catalogs admits the purge of a chunk deleted at t, the backups of every
      other one are newer than t as well. */
  ghost predicate Agree(catalogs: iset<Catalog>) {
    forall checked, durable, t :: checked in catalogs && durable in catalogs && Admits(checked, t) ==> Newer(durable, t)
  }

  ghost predicate PurgeIn(s: State, p: Purge, catalogs: iset<Catalog>) {
    && 0 <= p.tombstone.deletedAt && p.tombstone.deleteAfter == p.tombstone.deletedAt + QUARANTINE
    && p.tombstone.deleteAfter <= p.now <= s.clock
    && match p.phase
       case ReadState(raw) => raw in catalogs
       case Reread(raw, state) => raw in catalogs && state in catalogs && CanPurge(p.tombstone, p.now, state)
       case Committing(raw) => Newer(raw, p.tombstone.deletedAt)
       case _ => true
  }

  ghost predicate InvIn(s: State, catalogs: iset<Catalog>) {
    && AllSafe(s) && 0 <= s.clock
    && (s.catalog.Some? ==> s.catalog.value in catalogs)
    && (s.tombstone.Some? ==>
          0 <= s.tombstone.value.deletedAt && s.tombstone.value.deleteAfter == s.tombstone.value.deletedAt + QUARANTINE)
    && forall id :: id in s.purges ==> PurgeIn(s, s.purges[id], catalogs)
  }

  lemma StepKeepsIn(s: State, e: Event, catalogs: iset<Catalog>)
    requires InvIn(s, catalogs) && Agree(catalogs) && (e.Replace? ==> e.catalog in catalogs)
    ensures InvIn(Step(s, e), catalogs)
  {
    var s' := Step(s, e);
    forall id | id in s'.purges ensures PurgeIn(s', s'.purges[id], catalogs) {
      assert id in s.purges ==> PurgeIn(s, s.purges[id], catalogs);
    }
    forall c | c in s'.commits ensures Safe(c) {
      if c !in s.commits {
        assert e.Advance? && PurgeIn(s, s.purges[e.id], catalogs);
        SafeIs(c);
      }
    }
  }

  lemma {:induction false} AgreeingRunSafe(events: seq<Event>, catalogs: iset<Catalog>)
    requires Agree(catalogs) && Installs(events, catalogs)
    ensures InvIn(After(events), catalogs)
  {
    if events != [] {
      AgreeingRunSafe(events[..|events| - 1], catalogs);
      StepKeepsIn(After(events[..|events| - 1]), events[|events| - 1], catalogs);
    }
  }

  /** The catalog goes from one that still retains an old backup to one that does not and back
      again, between the two raw reads: the purge checks the one and commits against the other. */
  lemma {:induction false} SwappedCatalogUnsafe(kept: Catalog, bare: Catalog, t: nat, now: int) returns (run: seq<Event>)
    requires t + QUARANTINE <= now && CanPurge(Tombstone(t, t + QUARANTINE), now, bare) && !Newer(kept, t)
    ensures Installs(run, iset{kept, bare}) && !AllSafe(After(run))
  {
    var stone := Tombstone(t, t + QUARANTINE);
    run := [Tick(t)];
    Extended([], Tick(t), State(t, None, None, map[], []));
    assert [] + [Tick(t)] == run;
    Extended(run, Delete, State(t, None, Some(stone), map[], []));
    run := run + [Delete];
    Extended(run, Replace(kept), State(t, Some(kept), Some(stone), map[], []));
    run := run + [Replace(kept)];
    var at := State(now, Some(kept), Some(stone), map[0 := Purge(stone, now, 0, ReadRaw)], []);
    Extended(run, Tick(now - t), at.(purges := map[]));
    run := run + [Tick(now - t)];
    Extended(run, Begin(0), at);
    run := Swapped(run + [Begin(0)], stone, now, kept, bare);
  }

  lemma Swapped(start: seq<Event>, stone: Tombstone, now: int, kept: Catalog, bare: Catalog)
    returns (run: seq<Event>)
    requires stone.deleteAfter == stone.deletedAt + QUARANTINE <= now
    requires CanPurge(stone, now, bare) && !Newer(kept, stone.deletedAt)
    requires Installs(start, iset{kept, bare})
    requires After(start) == State(now, Some(kept), Some(stone), map[0 := Purge(stone, now, 0, ReadRaw)], [])
    ensures Installs(run, iset{kept, bare}) && !AllSafe(After(run))
  {
    var s := After(start);
    var p := s.purges[0];
    var s1 := s.(purges := map[0 := p.(phase := ReadState(kept))]);
    Extended(start, Advance(0), s1);
    run := start + [Advance(0)];
    Extended(run, Replace(bare), s1.(catalog := Some(bare)));
    run := run + [Replace(bare)];
    var s2 := s.(catalog := Some(bare), purges := map[0 := p.(phase := Reread(kept, bare))]);
    Extended(run, Advance(0), s2);
    run := run + [Advance(0)];
    run := CommitSwapped(run, stone, now, kept, bare);
  }

  lemma CommitSwapped(start: seq<Event>, stone: Tombstone, now: int, kept: Catalog, bare: Catalog)
    returns (run: seq<Event>)
    requires !Newer(kept, stone.deletedAt) && Installs(start, iset{kept, bare})
    requires stone.deleteAfter == stone.deletedAt + QUARANTINE
    requires var p := Purge(stone, now, 0, Reread(kept, bare));
             After(start) == State(now, Some(bare), Some(stone), map[0 := p], [])
    ensures Installs(run, iset{kept, bare}) && !AllSafe(After(run))
  {
    var s := After(start).(catalog := Some(kept));
    Extended(start, Replace(kept), s);
    run := start + [Replace(kept)];
    var committing := Purge(stone, now, 0, Committing(kept));
    Extended(run, Advance(0), s.(purges := map[0 := committing]));
    run := run + [Advance(0)];
    var commit := Commit(stone, kept, now);
    var ended := s.(tombstone := None, purges := map[0 := committing.(phase := Ended)], commits := [commit]);
    Extended(run, Advance(0), ended);
    run := run + [Advance(0)];
    assert ended.commits[0] in ended.commits;
    SafeIs(commit);
  }

  /** With a backup from the instant of the deletion in one catalog and only a later one in the
      other, both reconciled at the end of the quarantine, such a run commits an unsafe purge. */
  lemma {:induction false} RestoredCatalogUnsafe() returns (run: seq<Event>)
    ensures Installs(run, iset{Catalog([0], QUARANTINE), Catalog([1], QUARANTINE)}) && !AllSafe(After(run))
  {
    var kept, bare := Catalog([0], QUARANTINE), Catalog([1], QUARANTINE);
    assert 0 in kept.backups;
    run := SwappedCatalogUnsafe(kept, bare, 0, QUARANTINE);
  }

  /** Exactly which catalogs may be installed freely: every purge committed in every run that
      installs only these is safe if and only if they agree on every deletion that one of
      them admits. */
  lemma {:induction false} SafeIffAgree(catalogs: iset<Catalog>)
    ensures (forall events :: Installs(events, catalogs) ==> AllSafe(After(events))) <==> Agree(catalogs)
  {
    if Agree(catalogs) {
      forall events | Installs(events, catalogs) ensures AllSafe(After(events)) {
        AgreeingRunSafe(events, catalogs);
      }
    } else {
      var checked, durable, t :|
        checked in catalogs && durable in catalogs && Admits(checked, t) && !Newer(durable, t);
      var now := Max(t + QUARANTINE, checked.reconciledAt);
      var run := SwappedCatalogUnsafe(durable, checked, t, now);
      assert Installs(run, catalogs);
    }
  }

  // ---------- a commit, told from the events ----------

  function ClockOf(events: seq<Event>): int {
    if events == [] then 0
    else
      var before, e := ClockOf(events[..|events| - 1]), events[|events| - 1];
      if e.Tick? then before + e.seconds else before
  }

  /** The catalog installed last. */
  function CatalogOf(events: seq<Event>): Option<Catalog> {
    if events == [] then None
    else
      var e := events[|events| - 1];
      if e.Replace? then Some(e.catalog) else CatalogOf(events[..|events| - 1])
  }

  /** When the chunk was deleted last. */
  ghost function DeletionOf(events: seq<Event>): Option<int> {
    if events == [] then None
    else
      var before, e := events[..|events| - 1], events[|events| - 1];
      if e.Delete? && After(before).tombstone.None? then Some(ClockOf(before)) else DeletionOf(before)
  }

  ghost predicate TellsRun(events: seq<Event>, s: State) {
    && s.clock == ClockOf(events) && s.catalog == CatalogOf(events)
    && (s.tombstone.Some? ==> DeletionOf(events) == Some(s.tombstone.value.deletedAt))
  }

  lemma {:induction false} RunTold(events: seq<Event>)
    ensures TellsRun(events, After(events))
  {
    if events != [] {
      RunTold(events[..|events| - 1]);
    }
  }

  /** A committed purge records the time of the deletion, and the catalog and the time in force at
      its instant. */
  lemma {:induction false} CommitIsNow(events: seq<Event>, e: Event)
    ensures var s, s' := After(events), After(events + [e]);
            || s'.commits == s.commits
            || (&& |s'.commits| == |s.commits| + 1 && s'.commits[..|s.commits|] == s.commits
                && s'.tombstone.None?
                && var c := s'.commits[|s.commits|];
                   DeletionOf(events) == Some(c.tombstone.deletedAt) && CatalogOf(events) == Some(c.catalog) &&
                   c.clock == ClockOf(events))
  {
    RunTold(events);
    hide After, DeletionOf, ClockOf, CatalogOf;
    Extended(events, e, Step(After(events), e));
  }

  // ---------- an undisturbed purge, and how often it tries ----------

  function Advances(id: nat, n: nat): (r: seq<Event>)
    ensures |r| == n && forall i :: 0 <= i < n ==> r[i] == Advance(id)
  {
    seq(n, _ => Advance(id))
  }

  /** Reconciled at most two hours before, not empty, and only with backups from after the
      deletion. */
  predicate Clears(c: Catalog, deletedAt: int, now: int) {
    && c.reconciledAt <= now <= c.reconciledAt + 2 * 3600
    && |c.backups| > 0 && forall i :: 0 <= i < |c.backups| ==> c.backups[i] > deletedAt
  }

  lemma ClearsIs(c: Catalog, t: Tombstone, now: int)
    ensures CanPurge(t, now, c) <==> Clears(c, t.deletedAt, now)
  {
    NewerIs(c, t.deletedAt);
  }

  /** From the start of an attempt, and with nobody else about, the purge commits if and only if the
      catalog clears it. */
  lemma AttemptAlone(events: seq<Event>, id: nat, p: Purge, c: Catalog)
    requires var s := After(events);
             && id in s.purges && s.purges[id] == p && p.phase.ReadRaw?
             && s.catalog == Some(c) && s.tombstone == Some(p.tombstone)
    ensures var s, s' := After(events), After(events + Advances(id, 4));
            if Clears(c, p.tombstone.deletedAt, p.now)
            then s'.tombstone.None? && s'.commits == s.commits + [Commit(p.tombstone, c, s.clock)]
            else s'.tombstone == s.tombstone && s'.commits == s.commits
  {
    hide After, Clears, CanPurge;
    ClearsIs(c, p.tombstone, p.now);
    var s, go := After(events), Advance(id);
    var s1 := Step(s, go);
    Extended(events, go, s1);
    Extended(events + [go], go, Step(s1, go));
    Extended(events + [go] + [go], go, Step(Step(s1, go), go));
    Extended(events + [go] + [go] + [go], go, Step(Step(Step(s1, go), go), go));
    assert events + Advances(id, 4) == events + [go] + [go] + [go] + [go];
  }

  /** A purge that starts after the quarantine and is left alone removes the chunk if and only if
      the catalog is fresh, retains a backup, and retains none from before the deletion. */
  lemma {:induction false} PurgesAlone(events: seq<Event>, id: nat, t: Tombstone, c: Catalog)
    requires var s := After(events);
             id !in s.purges && s.tombstone == Some(t) && s.catalog == Some(c) && t.deletedAt + 25 * 3600 <= s.clock
    ensures var s, s' := After(events), After(events + [Begin(id)] + Advances(id, 4));
            if Clears(c, t.deletedAt, s.clock)
            then s'.tombstone.None? && s'.commits == s.commits + [Commit(t, c, s.clock)]
            else s'.tombstone == s.tombstone && s'.commits == s.commits
  {
    StoneTimes(events);
    hide After;
    var s := After(events);
    var p := Purge(t, s.clock, 0, ReadRaw);
    Extended(events, Begin(id), s.(purges := s.purges[id := p]));
    AttemptAlone(events + [Begin(id)], id, p, c);
  }

  lemma {:induction false} StoneTimes(events: seq<Event>)
    ensures After(events).tombstone.Some? ==>
              After(events).tombstone.value.deleteAfter == After(events).tombstone.value.deletedAt + 25 * 3600
  {
    if events != [] {
      StoneTimes(events[..|events| - 1]);
    }
  }

  /** An attempt in which the catalog is replaced between the purge's reads. */
  function Disturbed(id: nat, next: Catalog): seq<Event> { [Advance(id)] + [Advance(id)] + [Replace(next)] + [Advance(id)] }

  lemma DisturbedAttempt(events: seq<Event>, id: nat, p: Purge, c: Catalog, next: Catalog)
    requires var s := After(events);
             && id in s.purges && s.purges[id] == p && p.phase.ReadRaw?
             && s.catalog == Some(c) && s.tombstone == Some(p.tombstone)
    requires Clears(c, p.tombstone.deletedAt, p.now) && next != c
    ensures var s := After(events);
            After(events + Disturbed(id, next)) ==
            s.(catalog := Some(next), purges := s.purges[id :=
              if p.attempt < 2 then p.(attempt := p.attempt + 1) else p.(phase := Ended)])
  {
    hide After, Clears, CanPurge;
    ClearsIs(c, p.tombstone, p.now);
    var s, go := After(events), Advance(id);
    var s1 := s.(purges := s.purges[id := p.(phase := ReadState(c))]);
    Extended(events, go, s1);
    var s2 := s.(purges := s.purges[id := p.(phase := Reread(c, c))]);
    assert s1.purges[id := p.(phase := Reread(c, c))] == s2.purges;
    Extended(events + [go], go, s2);
    var s3 := s2.(catalog := Some(next));
    Extended(events + [go] + [go], Replace(next), s3);
    Extended(events + [go] + [go] + [Replace(next)], go, Step(s3, go));
    assert events + Disturbed(id, next) == events + [go] + [go] + [Replace(next)] + [go];
  }

  /** The events of a purge whose first attempts each see the catalog replaced. */
  function DisturbedAttempts(id: nat, catalogs: seq<Catalog>): seq<Event> {
    if catalogs == [] then [] else Disturbed(id, catalogs[0]) + DisturbedAttempts(id, catalogs[1..])
  }

  lemma {:induction false} EndedStays(events: seq<Event>, id: nat, catalogs: seq<Catalog>)
    requires id in After(events).purges && After(events).purges[id].phase == Ended
    ensures var s, s' := After(events), After(events + DisturbedAttempts(id, catalogs));
            s'.tombstone == s.tombstone && s'.commits == s.commits && id in s'.purges && s'.purges[id].phase == Ended
    decreases |catalogs|
  {
    hide After;
    var s, go := After(events), Advance(id);
    if catalogs == [] {
      assert events + DisturbedAttempts(id, catalogs) == events;
    } else {
      var next := catalogs[0];
      assert s.purges[id := s.purges[id]] == s.purges;
      Extended(events, go, s);
      Extended(events + [go], go, s);
      Extended(events + [go] + [go], Replace(next), s.(catalog := Some(next)));
      Extended(events + [go] + [go] + [Replace(next)], go, s.(catalog := Some(next)));
      assert events + Disturbed(id, next) == events + [go] + [go] + [Replace(next)] + [go];
      EndedStays(events + Disturbed(id, next), id, catalogs[1..]);
      assert events + DisturbedAttempts(id, catalogs) ==
             events + Disturbed(id, next) + DisturbedAttempts(id, catalogs[1..]);
    }
  }

  lemma EndedAdvances(events: seq<Event>, id: nat)
    requires id in After(events).purges && After(events).purges[id].phase == Ended
    ensures After(events + Advances(id, 4)) == After(events)
  {
    hide After;
    var s, go := After(events), Advance(id);
    assert s.purges[id := s.purges[id]] == s.purges;
    Extended(events, go, s);
    Extended(events + [go], go, s);
    Extended(events + [go] + [go], go, s);
    Extended(events + [go] + [go] + [go], go, s);
    assert events + Advances(id, 4) == events + [go] + [go] + [go] + [go];
  }

  /** Every catalog clears the purge, and each differs from the one before. */
  predicate Changing(c: Catalog, catalogs: seq<Catalog>, deletedAt: int, now: int)
    decreases |catalogs|
  {
    && Clears(c, deletedAt, now)
    && (catalogs != [] ==> catalogs[0] != c && Changing(catalogs[0], catalogs[1..], deletedAt, now))
  }

  /** A purge makes three attempts: with every attempt but the last disturbed, it commits if and only
      if fewer than three were. */
  lemma {:induction false} ThreeAttempts(events: seq<Event>, id: nat, p: Purge, c: Catalog, catalogs: seq<Catalog>)
    requires var s := After(events);
             && id in s.purges && s.purges[id] == p && p.phase.ReadRaw? && p.attempt <= 2
             && s.catalog == Some(c) && s.tombstone == Some(p.tombstone)
    requires Changing(c, catalogs, p.tombstone.deletedAt, p.now)
    ensures var s, s' := After(events), After(events + DisturbedAttempts(id, catalogs) + Advances(id, 4));
            if p.attempt + |catalogs| < 3 then s'.tombstone.None? && |s'.commits| == |s.commits| + 1
            else s'.tombstone == s.tombstone && s'.commits == s.commits
    decreases |catalogs|
  {
    hide After, Clears;
    if catalogs == [] {
      assert events + DisturbedAttempts(id, catalogs) == events;
      AttemptAlone(events, id, p, c);
    } else {
      var next, more := catalogs[0], events + Disturbed(id, catalogs[0]);
      DisturbedAttempt(events, id, p, c, next);
      assert events + DisturbedAttempts(id, catalogs) == more + DisturbedAttempts(id, catalogs[1..]);
      if p.attempt < 2 {
        ThreeAttempts(more, id, p.(attempt := p.attempt + 1), next, catalogs[1..]);
      } else {
        EndedStays(more, id, catalogs[1..]);
        EndedAdvances(more + DisturbedAttempts(id, catalogs[1..]), id);
      }
    }
  }
}
