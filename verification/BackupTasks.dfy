/**
 One durable backup task under coordinators that race: each reads the record, checks the
 update, and writes it by a compare-and-set fenced to its Raft term; a conflict or an unknown
 outcome is settled by reading again.  Every interleaving of those steps is a run below.
 */
module BackupTasks {
  import opened Bytes

  const MAX_ERROR: nat := 4096

  datatype TaskState = Creating | Uploading | Verifying | Committed | Failed

  /** Times are instants, with 0 for an unset time. */
  datatype Task = Task(
    id: string, cluster: string, owner: string, term: nat, index: nat,
    state: TaskState, started: nat, completed: nat, bytes: int, files: int, error: string, updated: nat)

  predicate Terminal(s: TaskState) { s == Committed || s == Failed }

  predicate Blank(s: string) { forall i :: 0 <= i < |s| ==> s[i] in {' ', '\t', '\n', '\r'} }

  /** validateBackupTaskFields. */
  predicate ValidFields(t: Task) {
    && t.term != 0 && t.index != 0 && t.started != 0 && t.updated != 0
    && 0 <= t.bytes && 0 <= t.files && |t.error| <= MAX_ERROR && t.started <= t.updated
    && (match t.state
        case Committed => t.completed != 0 && t.error == ""
        case Failed => t.completed != 0 && !Blank(t.error)
        case _ => t.completed == 0 && t.error == "")
    && (t.completed != 0 ==> t.started <= t.completed <= t.updated)
  }

  predicate SameIdentity(a: Task, b: Task) {
    && a.id == b.id && a.cluster == b.cluster && a.owner == b.owner
    && a.term == b.term && a.index == b.index && a.started == b.started
  }

  /** The transition table of validateBackupTaskUpdate. */
  predicate Follows(a: TaskState, b: TaskState) {
    || a == b || b == Failed
    || (a == Creating && b == Uploading) || (a == Uploading && b == Verifying) || (a == Verifying && b == Committed)
  }

  predicate ValidUpdate(a: Task, b: Task) {
    && SameIdentity(a, b) && Follows(a.state, b.state)
    && a.bytes <= b.bytes && a.files <= b.files && a.updated <= b.updated
  }

  /** terminalBackupTasksEqual and backupTasksReconciled: everything but the update time. */
  predicate SameButUpdated(a: Task, b: Task) { a.(updated := 0) == b.(updated := 0) }

  // ---------- the conditional write ----------

  /** validateTermFencedBackupTaskBatch: what a batch may write over what. */
  predicate ValidBatch(id: string, was: Option<Task>, desired: Task) {
    && ValidFields(desired) && desired.id == id
    && match was
       case None => desired.state == Creating
       case Some(t) => ValidFields(t) && t.id == id && !Terminal(t.state) && ValidUpdate(t, desired)
  }

  // ---------- one persistTask call ----------

  datatype Phase =
    | Reading
    | Writing(was: Option<Task>)
    | Reconciling
    | Confirming
    | Done(ok: bool)

  datatype Call = Call(desired: Task, term: nat, phase: Phase)

  /** How the store answered the conditional write. */
  datatype Outcome = Reported | Unknown(applied: bool) | Refused

  datatype World = World(
    id: string,
    term: nat,
    durable: Option<Task>,
    /** Every record that was ever durable, oldest first. */
    history: seq<Task>,
    calls: map<nat, Call>)

  datatype Event =
    | Elect(term: nat)
    | Begin(call: nat, desired: Task)
    | Advance(call: nat, out: Outcome, leading: bool)

  /** The write goes through: the term still holds, the record is unchanged, the batch is valid. */
  predicate Lands(w: World, c: Call) {
    c.phase.Writing? && c.term == w.term && w.durable == c.phase.was && ValidBatch(w.id, c.phase.was, c.desired)
  }

  function Store(w: World, t: Task): World { w.(durable := Some(t), history := w.history + [t]) }

  /** Where the call goes next; `leading` is its generation check after the write. */
  function Next(w: World, c: Call, out: Outcome, leading: bool): Phase {
    match c.phase
    case Reading =>
      if !ValidFields(c.desired) || c.desired.id != w.id then Done(false)
      else if w.durable.None? then (if c.desired.state == Creating then Writing(None) else Done(false))
      else
        var t := w.durable.value;
        if Terminal(t.state) then Done(leading && SameButUpdated(t, c.desired))
        else if ValidUpdate(t, c.desired) then Writing(Some(t))
        else Done(false)
    case Writing(was) =>
      (match out
       case Refused => Done(false)
       case Unknown(_) => Confirming
       case Reported => if Lands(w, c) then Done(leading) else if c.term == w.term then Reconciling else Done(false))
    case Reconciling =>
      if w.durable.Some? && Terminal(w.durable.value.state) && SameButUpdated(w.durable.value, c.desired)
      then Done(leading) else Confirming
    case Confirming => Done(leading && w.durable.Some? && SameButUpdated(w.durable.value, c.desired))
    case Done(ok) => Done(ok)
  }

  function Step(w: World, e: Event): World {
    match e
    case Elect(term) => if term > w.term then w.(term := term) else w
    case Begin(i, desired) =>
      if i in w.calls then w else w.(calls := w.calls[i := Call(desired, w.term, Reading)])
    case Advance(i, out, leading) =>
      if i !in w.calls then w
      else
        var c := w.calls[i];
        var w' := w.(calls := w.calls[i := c.(phase := Next(w, c, out, leading))]);
        if Lands(w, c) && (out.Reported? || (out.Unknown? && out.applied)) then Store(w', c.desired) else w'
  }

  // ---------- histories ----------

  /** Starts at creating and takes only legal steps, none from a terminal record. */
  ghost predicate Legal(h: seq<Task>) {
    && (h != [] ==> h[0].state == Creating)
    && (forall i :: 0 <= i < |h| ==> ValidFields(h[i]))
    && (forall i :: 0 <= i < |h| - 1 ==> !Terminal(h[i].state) && ValidUpdate(h[i], h[i + 1]))
  }

  /** A record equal to t in everything but the update time is in the history. */
  ghost predicate Seen(h: seq<Task>, t: Task) { exists i :: 0 <= i < |h| && h[i] == t.(updated := h[i].updated) }

  lemma SameFields(a: Task, b: Task)
    ensures SameButUpdated(a, b) <==> a == b.(updated := a.updated)
  {
    if SameButUpdated(a, b) {
      assert a.(updated := 0).id == b.(updated := 0).id;
    }
  }

  ghost predicate Inv(w: World) {
    && Legal(w.history)
    && (w.durable.None? <==> w.history == [])
    && (w.durable.Some? ==> w.durable.value == w.history[|w.history| - 1])
    && (forall i :: i in w.calls && w.calls[i].phase == Done(true) ==> Seen(w.history, w.calls[i].desired))
  }

  lemma SeenMore(h: seq<Task>, t: Task, x: Task)
    requires Seen(h, x)
    ensures Seen(h + [t], x)
  {
    var i :| 0 <= i < |h| && h[i] == x.(updated := h[i].updated);
    assert (h + [t])[i] == h[i];
  }

  lemma SeenNow(w: World, x: Task)
    requires Inv(w) && w.durable.Some? && SameButUpdated(w.durable.value, x)
    ensures Seen(w.history, x)
  {
    SameFields(w.durable.value, x);
    assert w.history[|w.history| - 1] == x.(updated := w.history[|w.history| - 1].updated);
  }

  lemma AdvanceKeeps(w: World, i: nat, out: Outcome, leading: bool)
    requires Inv(w) && i in w.calls
    ensures Inv(Step(w, Advance(i, out, leading)))
  {
    var c, w' := w.calls[i], Step(w, Advance(i, out, leading));
    if w'.history != w.history {
      assert w'.history == w.history + [c.desired];
      assert w'.history[|w.history|] == c.desired;
      assert Seen(w'.history, c.desired);
    }
    forall j | j in w'.calls && w'.calls[j].phase == Done(true) ensures Seen(w'.history, w'.calls[j].desired) {
      if j in w.calls && w.calls[j].phase == Done(true) {
        if w'.history != w.history {
          SeenMore(w.history, c.desired, w.calls[j].desired);
        }
      } else if w'.history == w.history {
        SeenNow(w, c.desired);
      }
    }
  }

  lemma StepKeeps(w: World, e: Event)
    requires Inv(w)
    ensures Inv(Step(w, e))
  {
    if e.Advance? && e.call in w.calls {
      AdvanceKeeps(w, e.call, e.out, e.leading);
    }
  }

  // ---------- whole runs ----------

  function Start(id: string, term: nat): World { World(id, term, None, [], map[]) }

  ghost function After(id: string, term: nat, events: seq<Event>): (w: World)
    ensures Inv(w)
  {
    if events == [] then Start(id, term)
    else
      var w := After(id, term, events[..|events| - 1]);
      StepKeeps(w, events[|events| - 1]);
      Step(w, events[|events| - 1])
  }

  function Rank(s: TaskState): nat {
    match s case Creating => 0 case Uploading => 1 case Verifying => 2 case Committed => 3 case Failed => 4
  }

  /** In every run the durable history starts at creating, never changes the identity fields,
      never lowers a counter, the update time or the progress of the state, and ends at its
      first terminal record. */
  lemma {:induction false} HistoryOnlyAdvances(h: seq<Task>, i: nat, j: nat)
    requires Legal(h) && i <= j < |h|
    ensures SameIdentity(h[i], h[j])
    ensures h[i].bytes <= h[j].bytes && h[i].files <= h[j].files && h[i].updated <= h[j].updated
    ensures Rank(h[i].state) <= Rank(h[j].state)
    ensures Terminal(h[i].state) ==> i == j == |h| - 1
    decreases j - i
  {
    if i < j {
      HistoryOnlyAdvances(h, i, j - 1);
      assert ValidUpdate(h[j - 1], h[j - 1 + 1]);
    }
  }

  lemma EveryRunAdvances(id: string, term: nat, events: seq<Event>, i: nat, j: nat)
    requires i <= j < |After(id, term, events).history|
    ensures var h := After(id, term, events).history;
            && h[0].state == Creating && SameIdentity(h[i], h[j])
            && h[i].bytes <= h[j].bytes && h[i].files <= h[j].files && h[i].updated <= h[j].updated
            && Rank(h[i].state) <= Rank(h[j].state)
            && (Terminal(h[i].state) ==> i == j == |h| - 1)
  {
    HistoryOnlyAdvances(After(id, term, events).history, i, j);
  }

  /** What a call was asked to persist: the record of its first request. */
  function Asked(events: seq<Event>, i: nat): Option<Task> {
    if events == [] then None
    else
      var before, e := Asked(events[..|events| - 1], i), events[|events| - 1];
      if before.None? && e.Begin? && e.call == i then Some(e.desired) else before
  }

  lemma {:induction false} CallsAsked(id: string, term: nat, events: seq<Event>)
    ensures var w := After(id, term, events);
            forall i :: (i in w.calls <==> Asked(events, i).Some?) && (i in w.calls ==> Asked(events, i) == Some(w.calls[i].desired))
  {
    hide Inv, Next, Lands;
    if events != [] {
      CallsAsked(id, term, events[..|events| - 1]);
    }
  }

  /** A call that reports success: the record it was asked to persist, update time aside, was
      durable at some instant. */
  lemma {:induction false} SuccessWasDurable(id: string, term: nat, events: seq<Event>, i: nat)
    requires var w := After(id, term, events); i in w.calls && w.calls[i].phase == Done(true)
    ensures Asked(events, i).Some? && Seen(After(id, term, events).history, Asked(events, i).value)
  {
    CallsAsked(id, term, events);
  }

  // ---------- the transition table, and what an undisturbed call does ----------

  /** In every run, neighbouring durable records are in the same state, or fail, or take one of the
      three forward steps, and nothing follows a committed or failed record. */
  lemma EveryRunTransitions(id: string, term: nat, events: seq<Event>, i: nat)
    requires i + 1 < |After(id, term, events).history|
    ensures var h := After(id, term, events).history;
            var a, b := h[i].state, h[i + 1].state;
            && (a == b || b == Failed || (a, b) in {(Creating, Uploading), (Uploading, Verifying), (Verifying, Committed)})
            && a != Committed && a != Failed
  {
    var h := After(id, term, events).history;
    assert ValidUpdate(h[i], h[i + 1]);
  }

  /** A complete record: its identity and times are set, its counters are not negative, and it has
      a completion time and an error just when its state calls for them. */
  predicate Complete(t: Task) {
    && t.term > 0 && t.index > 0 && t.started > 0 && t.bytes >= 0 && t.files >= 0 && |t.error| <= 4096
    && (t.state in {Creating, Uploading, Verifying} ==> t.started <= t.updated && t.completed == 0 && t.error == "")
    && (t.state == Committed ==> t.started <= t.completed <= t.updated && t.error == "")
    && (t.state == Failed ==>
          t.started <= t.completed <= t.updated && exists i :: 0 <= i < |t.error| && t.error[i] !in {' ', '\t', '\n', '\r'})
  }

  lemma CompleteIs(t: Task)
    ensures ValidFields(t) <==> Complete(t)
  {
  }

  lemma EveryRunComplete(id: string, term: nat, events: seq<Event>, i: nat)
    requires i < |After(id, term, events).history|
    ensures Complete(After(id, term, events).history[i])
  {
    CompleteIs(After(id, term, events).history[i]);
  }

  /** The record may become durable over what is durable now: a first record is in creation, and
      a later one keeps the identity, moves at most one step forward or fails, and lowers
      neither a counter nor the update time. */
  predicate MayPersist(id: string, was: Option<Task>, d: Task) {
    && Complete(d) && d.id == id
    && match was
       case None => d.state == Creating
       case Some(t) =>
         && t.state in {Creating, Uploading, Verifying}
         && (d.state in {t.state, Failed} ||
             (t.state, d.state) in {(Creating, Uploading), (Uploading, Verifying), (Verifying, Committed)})
         && t.bytes <= d.bytes && t.files <= d.files && t.updated <= d.updated
         && d.cluster == t.cluster && d.owner == t.owner && d.term == t.term && d.index == t.index
         && d.started == t.started
  }

  lemma {:induction false} OneID(id: string, term: nat, events: seq<Event>)
    ensures After(id, term, events).id == id
    ensures forall i :: 0 <= i < |After(id, term, events).history| ==> After(id, term, events).history[i].id == id
  {
    hide Legal, Next;
    if events != [] {
      OneID(id, term, events[..|events| - 1]);
    }
  }

  /** A call of the leader that nothing disturbs makes its record durable and reports success if and
      only if the record may be persisted; otherwise nothing becomes durable, and success is
      reported only for a terminal record that is there already. */
  lemma {:induction false} PersistsAlone(id: string, term: nat, events: seq<Event>, i: nat, d: Task)
    requires i !in After(id, term, events).calls
    ensures var go := Advance(i, Reported, true);
            var w, w' := After(id, term, events), After(id, term, events + [Begin(i, d)] + [go] + [go]);
            && i in w'.calls && w'.calls[i].phase.Done?
            && if MayPersist(id, w.durable, d)
               then w'.durable == Some(d) && w'.history == w.history + [d] && w'.calls[i].phase.ok
               else w'.durable == w.durable && w'.history == w.history &&
                    (w'.calls[i].phase.ok <==>
                       && Complete(d) && w.durable.Some? && w.durable.value.state in {Committed, Failed}
                       && w.durable.value == d.(updated := w.durable.value.updated))
  {
    var w, go := After(id, term, events), Advance(i, Reported, true);
    OneID(id, term, events);
    hide Inv, After, ValidFields, Complete;
    CompleteIs(d);
    if w.durable.Some? {
      DurableValid(w);
      SameFields(w.durable.value, d);
    }
    var w1 := w.(calls := w.calls[i := Call(d, w.term, Reading)]);
    Extended(id, term, events, Begin(i, d), w1);
    var w2 := Step(w1, go);
    Extended(id, term, events + [Begin(i, d)], go, w2);
    Extended(id, term, events + [Begin(i, d)] + [go], go, Step(w2, go));
  }

  // ---------- the term fence ----------

  /** The term in force after a run: elections only raise it. */
  function TermOf(term: nat, events: seq<Event>): nat {
    if events == [] then term
    else
      var before, e := TermOf(term, events[..|events| - 1]), events[|events| - 1];
      if e.Elect? && before < e.term then e.term else before
  }

  /** The term in force when a call began. */
  function BegunIn(term: nat, events: seq<Event>, i: nat): Option<nat> {
    if events == [] then None
    else
      var before, e := BegunIn(term, events[..|events| - 1], i), events[|events| - 1];
      if before.None? && e.Begin? && e.call == i then Some(TermOf(term, events[..|events| - 1])) else before
  }

  lemma {:induction false} TermsAre(id: string, term: nat, events: seq<Event>)
    ensures var w := After(id, term, events);
            w.term == TermOf(term, events) &&
            forall i :: (i in w.calls <==> BegunIn(term, events, i).Some?) &&
                        (i in w.calls ==> BegunIn(term, events, i) == Some(w.calls[i].term))
  {
    hide Inv, Next, Lands;
    if events != [] {
      TermsAre(id, term, events[..|events| - 1]);
    }
  }

  /** In every run a record becomes durable only by the write of a call that began in the term still
      in force, and it is the record that call was asked to persist: a deposed leader changes
      nothing. */
  lemma {:induction false} OnlyTheLeaderWrites(id: string, term: nat, events: seq<Event>, e: Event)
    ensures var w, w' := After(id, term, events), After(id, term, events + [e]);
            if w'.history == w.history then w'.durable == w.durable
            else
              && e.Advance? && BegunIn(term, events, e.call) == Some(TermOf(term, events))
              && Asked(events, e.call).Some? && w'.durable == Asked(events, e.call)
              && w'.history == w.history + [Asked(events, e.call).value]
              && MayPersist(id, w.durable, Asked(events, e.call).value)
  {
    var w := After(id, term, events);
    OneID(id, term, events);
    TermsAre(id, term, events);
    CallsAsked(id, term, events);
    Extended(id, term, events, e, Step(w, e));
    if e.Advance? && e.call in w.calls && Lands(w, w.calls[e.call]) {
      hide Inv, After, ValidFields, Complete;
      CompleteIs(w.calls[e.call].desired);
    }
  }

  // ---------- conflicts and ambiguous writes ----------

  /** A call that met a conflict or lost the reply to its write changes nothing more; if it is still
      the leader it reports success exactly if the durable record is its own, update time
      aside. */
  lemma {:induction false} SettlesIff(id: string, term: nat, events: seq<Event>, i: nat, out: Outcome, leading: bool)
    requires i in After(id, term, events).calls
    requires var phase := After(id, term, events).calls[i].phase; phase.Reconciling? || phase.Confirming?
    ensures var go := Advance(i, out, leading);
            var w, w' := After(id, term, events), After(id, term, events + [go] + [go]);
            var d := w.calls[i].desired;
            && w'.durable == w.durable && w'.history == w.history && i in w'.calls
            && w'.calls[i].phase ==
               Done(leading && w.durable.Some? && w.durable.value == d.(updated := w.durable.value.updated))
  {
    hide Inv, After;
    var w, go := After(id, term, events), Advance(i, out, leading);
    if w.durable.Some? {
      SameFields(w.durable.value, w.calls[i].desired);
    }
    var w1 := Step(w, go);
    Extended(id, term, events, go, w1);
    Extended(id, term, events + [go], go, Step(w1, go));
  }

  /** The reply to the write of an undisturbed call is lost: its record is durable exactly if the
      write took effect, and success is reported for that, or for a record that was the same
      before. */
  lemma {:induction false} LostReplySettled(id: string, term: nat, events: seq<Event>, i: nat, d: Task, applied: bool)
    requires i !in After(id, term, events).calls && MayPersist(id, After(id, term, events).durable, d)
    ensures var go, lost := Advance(i, Reported, true), Advance(i, Unknown(applied), true);
            var w, w' := After(id, term, events), After(id, term, events + [Begin(i, d)] + [go] + [lost] + [go]);
            && w'.durable == (if applied then Some(d) else w.durable) && i in w'.calls
            && w'.calls[i].phase ==
               Done(applied || (w.durable.Some? && w.durable.value == d.(updated := w.durable.value.updated)))
  {
    var w, go, lost := After(id, term, events), Advance(i, Reported, true), Advance(i, Unknown(applied), true);
    OneID(id, term, events);
    hide Inv, After, ValidFields, Complete;
    CompleteIs(d);
    if w.durable.Some? {
      DurableValid(w);
      SameFields(w.durable.value, d);
    }
    var w1 := w.(calls := w.calls[i := Call(d, w.term, Reading)]);
    Extended(id, term, events, Begin(i, d), w1);
    var w2 := w1.(calls := w1.calls[i := Call(d, w.term, Writing(w.durable))]);
    Extended(id, term, events + [Begin(i, d)], go, w2);
    var w3 := Step(w2, lost);
    Extended(id, term, events + [Begin(i, d)] + [go], lost, w3);
    Extended(id, term, events + [Begin(i, d)] + [go] + [lost], go, Step(w3, go));
  }

  lemma DurableValid(w: World)
    requires Inv(w) && w.durable.Some?
    ensures ValidFields(w.durable.value) && w.history != [] && w.durable.value == w.history[|w.history| - 1]
  {
  }

  lemma Extended(id: string, term: nat, events: seq<Event>, e: Event, w: World)
    requires Step(After(id, term, events), e) == w
    ensures After(id, term, events + [e]) == w
  {
    assert (events + [e])[..|events + [e]| - 1] == events;
  }

  // ---------- when the desired record itself was durable ----------

  ghost predicate Desires(events: seq<Event>, tasks: iset<Task>) {
    forall e :: e in events && e.Begin? ==> e.desired in tasks
  }

  ghost predicate Succeeds(d: Task, term: nat, events: seq<Event>, i: nat) {
    var w := After(d.id, term, events);
    i in w.calls && w.calls[i].desired == d && w.calls[i].phase == Done(true)
  }

  /** Only desired records are ever durable. */
  lemma {:induction false} OnlyDesired(id: string, term: nat, events: seq<Event>, tasks: iset<Task>)
    requires Desires(events, tasks)
    ensures var w := After(id, term, events);
            (forall t :: t in w.history ==> t in tasks) && forall i :: i in w.calls ==> w.calls[i].desired in tasks
  {
    hide Legal, ValidFields, ValidUpdate;
    if events != [] {
      var before, e := events[..|events| - 1], events[|events| - 1];
      assert e in events;
      OnlyDesired(id, term, before, tasks);
    }
  }

  /** No other valid record of the set differs from d only in its update time. */
  ghost predicate Distinct(d: Task, tasks: iset<Task>) {
    forall other :: other in tasks && ValidFields(other) && other == d.(updated := other.updated) ==> other == d
  }

  /** Then success means that d itself was durable, whatever its state. */
  lemma DistinctIsExact(d: Task, tasks: iset<Task>, term: nat, events: seq<Event>, i: nat)
    requires Distinct(d, tasks) && Desires(events, tasks) && Succeeds(d, term, events, i)
    ensures d in After(d.id, term, events).history
  {
    var h := After(d.id, term, events).history;
    OnlyDesired(d.id, term, events, tasks);
    var k :| 0 <= k < |h| && h[k] == d.(updated := h[k].updated);
    assert h[k] in h && ValidFields(h[k]);
  }

  /** For every valid initial record: success means that it was itself durable, in every run whose
      calls desire only the given records, if and only if no other valid one of them differs
      from it in the update time alone. */
  lemma ExactIffDistinct(d: Task, tasks: iset<Task>)
    requires ValidFields(d) && d.state == Creating && d in tasks
    ensures (forall term: nat, events, i: nat :: Desires(events, tasks) && Succeeds(d, term, events, i) ==>
               d in After(d.id, term, events).history)
            <==> Distinct(d, tasks)
  {
    if Distinct(d, tasks) {
      forall term: nat, events, i: nat | Desires(events, tasks) && Succeeds(d, term, events, i)
        ensures d in After(d.id, term, events).history
      {
        DistinctIsExact(d, tasks, term, events, i);
      }
    } else {
      var other :| other in tasks && ValidFields(other) && other == d.(updated := other.updated) && other != d;
      SameFields(other, d);
      var run := OtherIsDurable(d, other);
      assert Desires(run, tasks) && Succeeds(d, 1, run, 0);
    }
  }

  lemma StartsBlank(id: string, term: nat)
    ensures After(id, term, []) == Start(id, term)
  {
  }

  /** Success is reported although only the other record was ever durable. */
  lemma OtherIsDurable(d: Task, other: Task) returns (run: seq<Event>)
    requires ValidFields(d) && ValidFields(other) && d.state == Creating && SameButUpdated(other, d) && other != d
    ensures Desires(run, iset{d, other}) && Succeeds(d, 1, run, 0) && After(d.id, 1, run).history == [other]
  {
    StartsBlank(d.id, 1);
    hide Inv, After;
    var id, go := d.id, (i: nat) => Advance(i, Reported, true);
    SameFields(other, d);
    var w1 := Start(id, 1).(calls := map[0 := Call(d, 1, Reading)]);
    Extended(id, 1, [], Begin(0, d), w1);
    run := [] + [Begin(0, d)];
    var w2 := w1.(calls := map[0 := Call(d, 1, Writing(None))]);
    Extended(id, 1, run, go(0), w2);
    run := run + [go(0)];
    var w3 := w2.(calls := w2.calls[1 := Call(other, 1, Reading)]);
    Extended(id, 1, run, Begin(1, other), w3);
    run := run + [Begin(1, other)];
    var w4 := w2.(calls := w2.calls[1 := Call(other, 1, Writing(None))]);
    Extended(id, 1, run, go(1), w4);
    run := Overtaken(d, other, run + [go(1)], w4);
  }

  /** The other coordinator's write lands first; ours conflicts, re-reads and is satisfied. */
  lemma Overtaken(d: Task, other: Task, start: seq<Event>, w4: World) returns (run: seq<Event>)
    requires ValidFields(d) && ValidFields(other) && d.state == Creating && SameButUpdated(other, d) && other != d
    requires w4 == After(d.id, 1, start) && Desires(start, iset{d, other})
    requires w4 == World(d.id, 1, None, [], map[0 := Call(d, 1, Writing(None)), 1 := Call(other, 1, Writing(None))])
    ensures Desires(run, iset{d, other}) && Succeeds(d, 1, run, 0) && After(d.id, 1, run).history == [other]
  {
    hide Legal;
    var id, go := d.id, (i: nat) => Advance(i, Reported, true);
    SameFields(other, d);
    var w5 := w4.(durable := Some(other), history := [other], calls := w4.calls[1 := Call(other, 1, Done(true))]);
    Extended(id, 1, start, go(1), w5);
    run := Settled(d, other, start + [go(1)], w5);
  }

  lemma Settled(d: Task, other: Task, start: seq<Event>, w5: World) returns (run: seq<Event>)
    requires ValidFields(d) && d.state == Creating && SameButUpdated(other, d) && other != d
    requires w5 == After(d.id, 1, start) && Desires(start, iset{d, other})
    requires 0 in w5.calls && w5.calls[0] == Call(d, 1, Writing(None))
    requires w5.id == d.id && w5.term == 1 && w5.durable == Some(other) && w5.history == [other]
    ensures Desires(run, iset{d, other}) && Succeeds(d, 1, run, 0) && After(d.id, 1, run).history == [other]
  {
    hide Legal, ValidFields;
    SameFields(other, d);
    var id, go := d.id, Advance(0, Reported, true);
    var w6 := w5.(calls := w5.calls[0 := Call(d, 1, Reconciling)]);
    Extended(id, 1, start, go, w6);
    var w7 := w6.(calls := w6.calls[0 := Call(d, 1, Confirming)]);
    Extended(id, 1, start + [go], go, w7);
    Extended(id, 1, start + [go] + [go], go, w7.(calls := w7.calls[0 := Call(d, 1, Done(true))]));
    run := start + [go] + [go] + [go];
  }

  /** So the update time is outside the guarantee: every valid initial record has such a run. */
  lemma UpdateTimeMayDiffer(d: Task) returns (run: seq<Event>)
    requires ValidFields(d) && d.state == Creating
    ensures Succeeds(d, 1, run, 0) && d !in After(d.id, 1, run).history
  {
    var other := d.(updated := d.updated + 1);
    SameFields(other, d);
    run := OtherIsDurable(d, other);
  }
}
