/**
 The background-task table and its queue index: one row per task, and an index entry whose
 key spells out the task's type, state, next run time and ID so that a key scan visits tasks
 in the order they fall due.
 */
module TaskQueue {
  import opened Bytes
  import Lex

  // ---------- queue keys ----------

  function Pow10(w: nat): nat { if w == 0 then 1 else 10 * Pow10(w - 1) }

  function Digit(d: nat): char
    requires d < 10
  {
    '0' + d as char
  }

  /** n in w decimal digits, zero-padded. */
  function Pad(n: nat, w: nat): (s: string)
    ensures |s| == w && forall i :: 0 <= i < w ==> '0' <= s[i] <= '9'
  {
    if w == 0 then "" else Pad(n / 10, w - 1) + [Digit(n % 10)]
  }

  function ParseDigits(s: string): Option<nat> {
    if s == "" then Some(0)
    else
      var rest, c := ParseDigits(s[..|s| - 1]), s[|s| - 1];
      if rest.None? || !('0' <= c <= '9') then None else Some(10 * rest.value + (c as nat - '0' as nat))
  }

  lemma {:induction false} PadParses(n: nat, w: nat)
    requires n < Pow10(w)
    ensures ParseDigits(Pad(n, w)) == Some(n)
  {
    if w > 0 {
      PadParses(n / 10, w - 1);
      assert Pad(n, w)[..w - 1] == Pad(n / 10, w - 1);
    }
  }

  /** Zero-padded numbers sort like the numbers. */
  lemma {:induction false} PadOrder(a: nat, b: nat, w: nat)
    requires a < Pow10(w) && b < Pow10(w)
    ensures Lex.Less(Pad(a, w), Pad(b, w)) <==> a < b
    ensures Pad(a, w) == Pad(b, w) <==> a == b
  {
    if w > 0 {
      PadOrder(a / 10, b / 10, w - 1);
      Lex.SameLength(Pad(a / 10, w - 1), Pad(b / 10, w - 1), [Digit(a % 10)], [Digit(b % 10)]);
      PadParses(a, w);
      PadParses(b, w);
    }
  }

  /** The position of the first slash, or the length. */
  function Slash(s: string): (i: nat)
    ensures i <= |s| && (i < |s| ==> s[i] == '/') && forall j :: 0 <= j < i ==> s[j] != '/'
  {
    if s == "" || s[0] == '/' then 0 else 1 + Slash(s[1..])
  }

  predicate NoSlash(s: string) { forall i :: 0 <= i < |s| ==> s[i] != '/' }

  lemma SlashAfter(a: string, b: string)
    requires NoSlash(a)
    ensures Slash(a + "/" + b) == |a|
    ensures (a + "/" + b)[..|a|] == a && (a + "/" + b)[|a| + 1..] == b
  {
    var s := a + "/" + b;
    assert s[|a|] == '/';
    assert forall j :: 0 <= j < |a| ==> s[j] == a[j];
  }

  const WIDTH: nat := 20

  /** The part of a queue key after its fixed prefix. */
  function QueueKey(kind: string, state: string, nextRunAt: nat, id: string): string {
    kind + "/" + (state + "/" + (Pad(nextRunAt, WIDTH) + "/" + id))
  }

  /** backgroundTaskFromQueueKey: split at the first three slashes. */
  function ParseKey(key: string): Option<(nat, string)> {
    var a := Slash(key);
    if a == |key| then None
    else
      var rest := key[a + 1..];
      var b := Slash(rest);
      if b == |rest| then None
      else
        var tail := rest[b + 1..];
        var c := Slash(tail);
        if c == |tail| then None
        else
          var n := ParseDigits(tail[..c]);
          if n.None? then None else Some((n.value, tail[c + 1..]))
  }

  /** Queue keys parse back to the run time and the ID, slashes in the ID included. */
  lemma KeyParses(kind: string, state: string, nextRunAt: nat, id: string)
    requires NoSlash(kind) && NoSlash(state) && nextRunAt < Pow10(WIDTH)
    ensures ParseKey(QueueKey(kind, state, nextRunAt, id)) == Some((nextRunAt, id))
  {
    var digits := Pad(nextRunAt, WIDTH);
    SlashAfter(digits, id);
    SlashAfter(state, digits + "/" + id);
    SlashAfter(kind, state + "/" + (digits + "/" + id));
    PadParses(nextRunAt, WIDTH);
  }

  /** Under one type and state, keys sort by run time and then by ID. */
  lemma KeyOrder(kind: string, state: string, a: nat, x: string, b: nat, y: string)
    requires a < Pow10(WIDTH) && b < Pow10(WIDTH)
    ensures Lex.Less(QueueKey(kind, state, a, x), QueueKey(kind, state, b, y)) <==> a < b || (a == b && Lex.Less(x, y))
  {
    var s, t := Pad(a, WIDTH) + "/" + x, Pad(b, WIDTH) + "/" + y;
    PadOrder(a, b, WIDTH);
    Lex.SameLength(Pad(a, WIDTH), Pad(b, WIDTH), "/" + x, "/" + y);
    Lex.SamePrefix("/", x, y);
    assert s == Pad(a, WIDTH) + ("/" + x) && t == Pad(b, WIDTH) + ("/" + y);
    Lex.SamePrefix(state + "/", s, t);
    Lex.SamePrefix(kind + "/", state + "/" + s, state + "/" + t);
    assert QueueKey(kind, state, a, x) == (kind + "/") + ((state + "/") + s);
    assert QueueKey(kind, state, b, y) == (kind + "/") + ((state + "/") + t);
  }

  // ---------- tasks ----------

  datatype TaskState = Queued | Leased | Running | Succeeded | Retrying | DeadLetter | Canceled

  datatype Task = Task(
    id: string, kind: string, state: TaskState, owner: string, attempts: nat, nextRunAt: nat, ownerNodes: set<nat>)

  /** An index entry: the fields its key spells out. */
  datatype Entry = Entry(kind: string, state: TaskState, nextRunAt: nat, id: string)

  function EntryOf(t: Task): Entry { Entry(t.kind, t.state, t.nextRunAt, t.id) }

  function StateName(s: TaskState): (n: string)
    ensures n != "" && NoSlash(n)
  {
    match s
    case Queued => "queued"
    case Leased => "leased"
    case Running => "running"
    case Succeeded => "succeeded"
    case Retrying => "retrying"
    case DeadLetter => "dead_letter"
    case Canceled => "canceled"
  }

  function KeyOf(e: Entry): string { QueueKey(e.kind, StateName(e.state), e.nextRunAt, e.id) }

  function ScanPrefix(kind: string, state: TaskState): string { kind + "/" + StateName(state) + "/" }

  /** Where a string splits at its first slash does not depend on how it was put together. */
  lemma SplitOnce(a: string, b: string, c: string, d: string)
    requires NoSlash(a) && NoSlash(c) && a + "/" + b == c + "/" + d
    ensures a == c && b == d
  {
    SlashAfter(a, b);
    SlashAfter(c, d);
  }

  lemma StateNames(a: TaskState, b: TaskState)
    requires StateName(a) == StateName(b)
    ensures a == b
  {
    assert |StateName(a)| == |StateName(b)| && StateName(a)[0] == StateName(b)[0];
  }

  /** A prefix scan finds the entries of one type and state and no others. */
  lemma PrefixIsScan(e: Entry, kind: string, state: TaskState)
    requires NoSlash(kind) && NoSlash(e.kind)
    ensures ScanPrefix(kind, state) <= KeyOf(e) <==> e.kind == kind && e.state == state
  {
    var tail := Pad(e.nextRunAt, WIDTH) + "/" + e.id;
    var key, p := KeyOf(e), ScanPrefix(kind, state);
    assert key == e.kind + "/" + (StateName(e.state) + "/" + tail);
    if p <= key {
      var rest := key[|p|..];
      assert key == kind + "/" + (StateName(state) + "/" + rest);
      SplitOnce(e.kind, StateName(e.state) + "/" + tail, kind, StateName(state) + "/" + rest);
      SplitOnce(StateName(e.state), tail, StateName(state), rest);
      StateNames(e.state, state);
    }
    if e.kind == kind && e.state == state {
      assert key == p + tail;
    }
  }

  /** Entries with different fields have different keys. */
  lemma KeysDistinct(a: Entry, b: Entry)
    requires NoSlash(a.kind) && NoSlash(b.kind) && a.nextRunAt < Pow10(WIDTH) && b.nextRunAt < Pow10(WIDTH)
    requires KeyOf(a) == KeyOf(b)
    ensures a == b
  {
    KeyParses(a.kind, StateName(a.state), a.nextRunAt, a.id);
    KeyParses(b.kind, StateName(b.state), b.nextRunAt, b.id);
    PrefixIsScan(a, b.kind, b.state);
    PrefixIsScan(b, b.kind, b.state);
  }

  /** The order in which a scan of one type and state visits entries. */
  predicate Before(a: Entry, b: Entry) {
    a.nextRunAt < b.nextRunAt || (a.nextRunAt == b.nextRunAt && Lex.Less(a.id, b.id))
  }

  /** That order is the order of the keys. */
  lemma BeforeIsKeyOrder(a: Entry, b: Entry)
    requires a.kind == b.kind && a.state == b.state && a.nextRunAt < Pow10(WIDTH) && b.nextRunAt < Pow10(WIDTH)
    ensures Before(a, b) <==> Lex.Less(KeyOf(a), KeyOf(b))
  {
    KeyOrder(a.kind, StateName(a.state), a.nextRunAt, a.id, b.nextRunAt, b.id);
  }

  lemma BeforeTotal(a: Entry, b: Entry)
    ensures Before(a, b) || Before(b, a) || (a.nextRunAt == b.nextRunAt && a.id == b.id)
    ensures !(Before(a, b) && Before(b, a)) && !Before(a, a)
  {
    Lex.Total(a.id, b.id);
    Lex.Irreflexive(a.id);
  }

  lemma BeforeTransitive(a: Entry, b: Entry, c: Entry)
    requires Before(a, b) && Before(b, c)
    ensures Before(a, c)
  {
    if a.nextRunAt == b.nextRunAt == c.nextRunAt {
      Lex.Transitive(a.id, b.id, c.id);
    }
  }

  lemma HasEntry(s: set<Entry>)
    ensures s == {} || exists e :: e in s
  {
    if forall e :: e !in s {
      assert s == {};
    }
  }

  /** The entries are in key order, and before all the rest. */
  ghost predicate Ahead(entries: seq<Entry>, rest: set<Entry>) {
    && (forall i, j :: 0 <= i < j < |entries| ==> Before(entries[i], entries[j]))
    && (forall i, e :: 0 <= i < |entries| && e in rest ==> Before(entries[i], e))
  }

  lemma NoneAhead(rest: set<Entry>)
    ensures Ahead([], rest)
  {
  }

  lemma OneAhead(entries: seq<Entry>, rest: set<Entry>, first: Entry)
    requires Ahead(entries, rest) && first in rest && forall e :: e in rest && e != first ==> Before(first, e)
    ensures Ahead(entries + [first], rest - {first})
    ensures forall e :: e in entries + [first] <==> e in entries || e == first
  {
    hide Before;
  }

  lemma AllAhead(entries: seq<Entry>, rest: set<Entry>)
    requires Ahead(entries, rest)
    ensures forall i, j :: 0 <= i < j < |entries| ==> Before(entries[i], entries[j])
  {
  }

  class TaskStore {
    var tasks: map<string, Task>
    var index: set<Entry>

    /** Every task has exactly one index entry, and it matches the task. */
    ghost predicate Indexed()
      reads this
    {
      && (forall id :: id in tasks ==>
            id != "" && tasks[id].kind != "" && tasks[id].id == id && EntryOf(tasks[id]) in index)
      && (forall e :: e in index ==> e.id in tasks && e == EntryOf(tasks[e.id]))
    }

    constructor ()
      ensures Indexed() && tasks == map[]
    {
      tasks, index := map[], {};
    }

    /** Writes the row and its entry, then deletes the old entry, in one batch.  The index stays
        right if and only if the task is new or its entry changes: otherwise the delete, which
        comes last, removes the entry just written. */
    method Put(task: Task) returns (ok: bool)
      requires Indexed()
      modifies this
      ensures ok <==> task.id != "" && task.kind != ""
      ensures !ok ==> tasks == old(tasks) && index == old(index)
      ensures ok ==> tasks == old(tasks)[task.id := task]
      ensures ok ==> index == old(index) + {EntryOf(task)} -
                              (if task.id in old(tasks) then {EntryOf(old(tasks)[task.id])} else {})
      ensures ok ==> (Indexed() <==> (task.id in old(tasks) ==> EntryOf(old(tasks)[task.id]) != EntryOf(task)))
    {
      if task.id == "" || task.kind == "" {
        return false;
      }
      ok := true;
      var deletes := if task.id in tasks then {EntryOf(tasks[task.id])} else {};
      tasks := tasks[task.id := task];
      index := index + {EntryOf(task)} - deletes;
      assert task.id in tasks && tasks[task.id] == task;
    }

    /** The entries of one type and state, in key order. */
    method Scan(kind: string, state: TaskState) returns (entries: seq<Entry>)
      requires Indexed()
      ensures forall e :: e in entries <==> e in index && e.kind == kind && e.state == state
      ensures forall i, j :: 0 <= i < j < |entries| ==> Before(entries[i], entries[j])
    {
      entries := [];
      var rest := set e | e in index && e.kind == kind && e.state == state;
      ghost var all := rest;
      assert forall a, b :: a in all && b in all && a.nextRunAt == b.nextRunAt && a.id == b.id ==> a == b;
      hide Ahead;
      NoneAhead(rest);
      while rest != {}
        invariant rest <= all && forall e :: e in all <==> e in rest || e in entries
        invariant Ahead(entries, rest)
        decreases |rest|
      {
        var first := Earliest(rest);
        OneAhead(entries, rest, first);
        entries := entries + [first];
        rest := rest - {first};
      }
      AllAhead(entries, rest);
    }

    /** The first entry of a set in key order; entries of one scan differ in run time or ID. */
    method Earliest(s: set<Entry>) returns (first: Entry)
      requires s != {} && forall a, b :: a in s && b in s && a.nextRunAt == b.nextRunAt && a.id == b.id ==> a == b
      ensures first in s && forall e :: e in s && e != first ==> Before(first, e)
    {
      HasEntry(s);
      first :| first in s;
      var rest := s - {first};
      while rest != {}
        invariant rest <= s && first in s && first !in rest
        invariant forall e :: e in s && e !in rest && e != first ==> Before(first, e)
        decreases |rest|
      {
        HasEntry(rest);
        var e :| e in rest;
        BeforeTotal(e, first);
        if Before(e, first) {
          forall x | x in s && x !in rest && x != first ensures Before(e, x) {
            BeforeTransitive(e, first, x);
          }
          first := e;
        }
        rest := rest - {e};
      }
    }

    /** A due task of one type and state that the node may take: node 0 stands for any node, and a
        task without owner nodes is for every node. */
    ghost predicate Due(id: string, kind: string, state: TaskState, node: nat, now: nat)
      reads this
    {
      && id in tasks && tasks[id].kind == kind && tasks[id].state == state && tasks[id].nextRunAt <= now
      && (node == 0 || tasks[id].ownerNodes == {} || node in tasks[id].ownerNodes)
    }

    /** The checks the scan makes on one entry. */
    method MayTake(e: Entry, node: nat, now: nat) returns (ok: bool)
      requires Indexed() && e in index
      ensures ok <==> Due(e.id, e.kind, e.state, node, now)
    {
      if e.nextRunAt > now {
        return false;
      }
      var task := tasks[e.id];
      if node != 0 && task.ownerNodes != {} && node !in task.ownerNodes {
        return false;
      }
      ok := true;
    }

    /** The first eligible entry of a scan. */
    method FirstDue(kind: string, state: TaskState, node: nat, now: nat) returns (r: Option<string>)
      requires Indexed()
      ensures r.None? ==> forall id :: id in tasks ==> !Due(id, kind, state, node, now)
      ensures r.Some? ==>
                && Due(r.value, kind, state, node, now)
                && forall id :: id != r.value && Due(id, kind, state, node, now) ==>
                     Before(EntryOf(tasks[r.value]), EntryOf(tasks[id]))
    {
      var entries := Scan(kind, state);
      for i := 0 to |entries|
        invariant forall j :: 0 <= j < i ==> !Due(entries[j].id, kind, state, node, now)
      {
        var e := entries[i];
        assert e in entries;
        var take := MayTake(e, node, now);
        if take {
          forall id | id != e.id && Due(id, kind, state, node, now) ensures Before(e, EntryOf(tasks[id])) {
            assert EntryOf(tasks[id]) in entries;
            var j :| 0 <= j < |entries| && entries[j] == EntryOf(tasks[id]);
          }
          return Some(e.id);
        }
      }
      forall id | id in tasks ensures !Due(id, kind, state, node, now) {
        if tasks[id].kind == kind && tasks[id].state == state {
          assert EntryOf(tasks[id]) in entries;
          var j :| 0 <= j < |entries| && entries[j] == EntryOf(tasks[id]);
        }
      }
      r := None;
    }

    /** Leases the earliest due eligible queued task or, when there is none, the earliest due
        eligible retrying one. */
    method Lease(kind: string, node: nat, owner: string, now: nat, lease: nat) returns (r: Option<Task>)
      requires Indexed()
      modifies this
      ensures Indexed()
      ensures r.None? ==> tasks == old(tasks) && index == old(index)
      ensures owner == "" ==> r.None?
      ensures r.None? && owner != "" ==>
                forall id :: id in tasks ==> !old(Due(id, kind, Queued, node, now)) && !old(Due(id, kind, Retrying, node, now))
      ensures r.Some? ==>
                var id := r.value.id;
                && id in old(tasks) && tasks == old(tasks)[id := r.value]
                && r.value == old(tasks)[id].(state := Leased, owner := owner, nextRunAt := now + lease)
                && (old(Due(id, kind, Queued, node, now)) ||
                    (old(Due(id, kind, Retrying, node, now)) &&
                     forall x :: x in old(tasks) ==> !old(Due(x, kind, Queued, node, now))))
                && forall x :: x != id && x in old(tasks) && old(Due(x, kind, tasks[id].state, node, now)) ==>
                     Before(EntryOf(old(tasks)[id]), EntryOf(old(tasks)[x]))
    {
      if owner == "" {
        return None;
      }
      var found := FirstDue(kind, Queued, node, now);
      if found.None? {
        found := FirstDue(kind, Retrying, node, now);
      }
      if found.None? {
        return None;
      }
      var task := tasks[found.value].(state := Leased, owner := owner, nextRunAt := now + lease);
      var ok := Put(task);
      r := Some(task);
    }

    /** Ends a task; the index stays right unless it had succeeded already. */
    method Complete(id: string) returns (ok: bool)
      requires Indexed()
      modifies this
      ensures ok <==> id in old(tasks)
      ensures ok ==> tasks == old(tasks)[id := old(tasks)[id].(state := Succeeded, owner := "")]
      ensures !ok ==> tasks == old(tasks) && index == old(index)
      ensures Indexed() <==> (id in old(tasks) ==> old(tasks)[id].state != Succeeded)
    {
      if id !in tasks {
        return false;
      }
      ok := Put(tasks[id].(state := Succeeded, owner := ""));
    }

    /** Fails a task: one more attempt is used and the lease is given up.  It is dead once the
        attempts reach the limit, 3 unless a positive one is given; before that it retries after
        a backoff of as many seconds as it has had attempts.  The index stays right for a leased
        task, and in general if and only if the state or the run time changes. */
    method Fail(id: string, maxAttempts: int, now: nat) returns (ok: bool)
      requires Indexed()
      modifies this
      ensures ok <==> id in old(tasks)
      ensures !ok ==> tasks == old(tasks) && index == old(index)
      ensures ok ==>
                && id in tasks && tasks == old(tasks)[id := tasks[id]]
                && var was, t := old(tasks)[id], tasks[id];
                   && t.attempts == was.attempts + 1 && t.owner == "" && t.id == id
                   && t.kind == was.kind && t.ownerNodes == was.ownerNodes
                   && (t.state == DeadLetter <==> t.attempts >= if maxAttempts > 0 then maxAttempts else 3)
                   && (t.state == DeadLetter ==> t.nextRunAt == was.nextRunAt)
                   && (t.state != DeadLetter ==> t.state == Retrying && t.nextRunAt == now + t.attempts * SECOND)
      ensures Indexed() <==>
              (ok ==> tasks[id].state != old(tasks)[id].state || tasks[id].nextRunAt != old(tasks)[id].nextRunAt)
    {
      if id !in tasks {
        return false;
      }
      var task := tasks[id].(attempts := tasks[id].attempts + 1, owner := "");
      var limit := if maxAttempts <= 0 then 3 else maxAttempts;
      if task.attempts >= limit {
        task := task.(state := DeadLetter);
      } else {
        task := task.(state := Retrying, nextRunAt := now + task.attempts * SECOND);
      }
      ok := Put(task);
    }
  }

  const SECOND: nat := 1000000000

  /** A task that is leased whenever it is due and fails every time retries one time less than
      the limit and is then dead, with its queue entry right all the way. */
  method FailsUntilDead(store: TaskStore, id: string, owner: string, limit: nat) returns (retries: nat)
    requires store.Indexed() && store.tasks.Keys == {id} && owner != "" && 0 < limit
    requires store.tasks[id].state == Queued && store.tasks[id].attempts == 0
    modifies store
    ensures retries == limit - 1
    ensures store.Indexed() && store.tasks.Keys == {id}
    ensures store.tasks[id].state == DeadLetter && store.tasks[id].attempts == limit
  {
    retries := 0;
    var kind := store.tasks[id].kind;
    while true
      invariant store.Indexed() && store.tasks.Keys == {id} && retries < limit
      invariant store.tasks[id].attempts == retries && store.tasks[id].kind == kind
      invariant store.tasks[id].state == (if retries == 0 then Queued else Retrying)
      decreases limit - retries
    {
      var now := store.tasks[id].nextRunAt;
      assert store.Due(id, kind, if retries == 0 then Queued else Retrying, 0, now);
      var leased := store.Lease(kind, 0, owner, now, 60 * SECOND);
      assert leased.Some? && leased.value.id == id;
      var failed := store.Fail(id, limit, now);
      if store.tasks[id].state == DeadLetter {
        return;
      }
      retries := retries + 1;
    }
  }

  /** A queued task put twice without a change is in the table but no longer in the queue. */
  method RePutLosesEntry() returns (store: TaskStore)
    ensures fresh(store) && "t1" in store.tasks && store.tasks["t1"].state == Queued
    ensures store.index == {} && !store.Indexed()
  {
    var task := Task("t1", "write_gc", Queued, "", 0, 0, {});
    store := new TaskStore();
    var first := store.Put(task);
    var again := store.Put(task);
    assert "t1" in store.tasks;
  }
}
