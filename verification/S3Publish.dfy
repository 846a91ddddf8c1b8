/**
 Publication of one backup to an S3 repository: claim, stage, copy, marker.  Any number of
 publishers and staging janitors take single object operations in any order; an operation
 may fail with or without having taken effect, and a publisher may crash at any point.
 Deleting a committed backup is not part of the model.
 */
module S3Publish {
  import opened Bytes

  /** A manifest declares the files of a backup and what they hold. */
  datatype Manifest = Manifest(paths: seq<string>, content: map<string, seq<Byte>>)

  datatype Name = File(path: string) | ManifestFile

  datatype Object = FileObject(bytes: seq<Byte>) | ManifestObject(manifest: Manifest)

  /** An object under committed/, with the attempt that put it there. */
  datatype Stored = Stored(attempt: nat, body: Object)

  datatype StagingKey = StagingKey(attempt: nat, name: Name)

  /** The claim object, and the COMMITTED marker made from it. */
  datatype Claim = Claim(attempt: nat, manifest: Manifest)

  datatype Repo = Repo(
    claim: Option<Claim>,
    marker: Option<Claim>,
    staging: map<StagingKey, Object>,
    committed: map<Name, Stored>)

  // ---------- one publisher ----------

  /** A key that the cleanup of a failed attempt deletes. */
  datatype Target = Committed(name: Name) | Staged(name: Name)

  datatype Pc =
    | CheckMarker(again: bool)
    | CheckClaim(again: bool, seen: Claim)
    | CheckManifest(again: bool, seen: Claim)
    | PutClaim
    | Stage(i: nat)
    | Verify
    | Copy(i: nat)
    | VerifyAgain
    | PutMarker
    | ReadMarker
    | RereadClaim
    | RereadManifest
    | CleanVerify
    | Clean(gone: set<Target>)
    | CleanVerifyAgain
    | CleanClaim
    | Done(ok: bool)

  datatype Publisher = Publisher(manifest: Manifest, pc: Pc)

  /** How one object operation ended for its caller. */
  datatype Outcome = Good | Bad(applied: bool) | Crash(applied: bool)

  predicate WellFormed(m: Manifest) { forall p :: p in m.paths ==> p in m.content }

  /** The objects of a backup in upload order: the declared files, then the manifest. */
  function Names(m: Manifest): (r: seq<Name>)
    ensures |r| == |m.paths| + 1
    ensures forall i :: 0 <= i < |m.paths| ==> r[i] == File(m.paths[i])
    ensures r[|m.paths|] == ManifestFile
    ensures forall n :: n in r <==> n.ManifestFile? || n.path in m.paths
  {
    seq(|m.paths|, i requires 0 <= i < |m.paths| => File(m.paths[i])) + [ManifestFile]
  }

  function Body(m: Manifest, n: Name): Object
    requires WellFormed(m) && n in Names(m)
  {
    match n
    case File(p) => FileObject(m.content[p])
    case ManifestFile => ManifestObject(m)
  }

  function Targets(m: Manifest): (r: set<Target>)
    ensures forall t :: t in r <==> t.name in Names(m)
  {
    (set n | n in Names(m) :: Committed(n)) + (set n | n in Names(m) :: Staged(n))
  }

  function Remove(r: Repo, a: nat, t: Target): Repo {
    match t
    case Committed(n) => r.(committed := r.committed - {n})
    case Staged(n) => r.(staging := r.staging - {StagingKey(a, n)})
  }

  /** What the operation at `pc` does to the repository when it takes effect.  The claim and
      the marker are put only if absent; a copy needs its source. */
  function Effect(r: Repo, a: nat, m: Manifest, pc: Pc, pick: Target): Repo
    requires WellFormed(m)
  {
    match pc
    case PutClaim => if r.claim.None? then r.(claim := Some(Claim(a, m))) else r
    case Stage(i) =>
      if i < |Names(m)| then r.(staging := r.staging[StagingKey(a, Names(m)[i]) := Body(m, Names(m)[i])]) else r
    case Copy(i) =>
      if i < |Names(m)| && StagingKey(a, Names(m)[i]) in r.staging
      then r.(committed := r.committed[Names(m)[i] := Stored(a, r.staging[StagingKey(a, Names(m)[i])])])
      else r
    case PutMarker => if r.marker.None? then r.(marker := Some(Claim(a, m))) else r
    case Clean(_) => if pick in Targets(m) then Remove(r, a, pick) else r
    case CleanClaim => r.(claim := None)
    case _ => r
  }

  /** Where the publisher goes when the operation reports success. */
  function OnGood(r: Repo, a: nat, m: Manifest, pc: Pc, pick: Target): Pc {
    match pc
    case CheckMarker(again) =>
      if r.marker.None? then (if again then Done(false) else PutClaim) else CheckClaim(again, r.marker.value)
    case CheckClaim(again, seen) => if r.claim == Some(seen) then CheckManifest(again, seen) else Done(false)
    case CheckManifest(again, seen) =>
      Done(ManifestFile in r.committed && r.committed[ManifestFile].body == ManifestObject(m) && seen.manifest == m)
    case PutClaim => if r.claim.None? then Stage(0) else CheckMarker(true)
    case Stage(i) => if i + 1 < |Names(m)| then Stage(i + 1) else Verify
    case Verify => if r.claim == Some(Claim(a, m)) then Copy(0) else CleanVerify
    case Copy(i) =>
      if i < |Names(m)| && StagingKey(a, Names(m)[i]) !in r.staging then CleanVerify
      else if i + 1 < |Names(m)| then Copy(i + 1)
      else VerifyAgain
    case VerifyAgain => if r.claim == Some(Claim(a, m)) then PutMarker else CleanVerify
    case PutMarker => if r.marker.None? then Done(true) else ReadMarker
    case ReadMarker =>
      if r.marker.None? then CleanVerify
      else if r.marker == Some(Claim(a, m)) then RereadClaim
      else Done(false)
    case RereadClaim => if r.claim == Some(Claim(a, m)) then RereadManifest else Done(false)
    case RereadManifest => Done(ManifestFile in r.committed && r.committed[ManifestFile].body == ManifestObject(m))
    case CleanVerify => if r.claim == Some(Claim(a, m)) then Clean({}) else Done(false)
    case Clean(gone) =>
      if pick !in Targets(m) then pc
      else if Targets(m) <= gone + {pick} then CleanVerifyAgain
      else Clean(gone + {pick})
    case CleanVerifyAgain => if r.claim == Some(Claim(a, m)) then CleanClaim else Done(false)
    case CleanClaim => Done(false)
    case Done(ok) => Done(ok)
  }

  /** Where it goes when the operation reports an error: once the claim is known to be held,
      the attempt is cleaned up; a failed marker put is reconciled; everything else gives up. */
  function OnBad(pc: Pc): Pc {
    match pc
    case Stage(_) => CleanVerify
    case Verify => CleanVerify
    case Copy(_) => CleanVerify
    case VerifyAgain => CleanVerify
    case PutMarker => ReadMarker
    case Done(ok) => Done(ok)
    case _ => Done(false)
  }

  function StepRepo(r: Repo, a: nat, p: Publisher, out: Outcome, pick: Target): Repo
    requires WellFormed(p.manifest)
  {
    if out.Good? || out.applied then Effect(r, a, p.manifest, p.pc, pick) else r
  }

  function StepPc(r: Repo, a: nat, p: Publisher, out: Outcome, pick: Target): Pc {
    match out
    case Good => OnGood(r, a, p.manifest, p.pc, pick)
    case Bad(_) => OnBad(p.pc)
    case Crash(_) => if p.pc.Done? then p.pc else Done(false)
  }

  // ---------- the janitor ----------

  /** A pass of the janitor: the staging keys it listed, and those of attempts it has since
      seen no claim for. */
  datatype Janitor = Janitor(listed: set<StagingKey>, doomed: set<StagingKey>)

  // ---------- the world ----------

  datatype World = World(repo: Repo, pubs: map<nat, Publisher>, janitors: map<nat, Janitor>)

  datatype Event =
    | Begin(attempt: nat, manifest: Manifest)
    | Publish(attempt: nat, out: Outcome, pick: Target)
    | List(janitor: nat)
    | Inspect(janitor: nat, group: nat)
    | Sweep(janitor: nat, key: StagingKey)

  /** One event; an event that is not enabled does nothing.  Attempt IDs are never reused. */
  function Step(w: World, e: Event): World
    requires forall a :: a in w.pubs ==> WellFormed(w.pubs[a].manifest)
  {
    match e
    case Begin(a, m) =>
      if a in w.pubs || !WellFormed(m) then w else w.(pubs := w.pubs[a := Publisher(m, CheckMarker(false))])
    case Publish(a, out, pick) =>
      if a !in w.pubs then w
      else
        var p := w.pubs[a];
        w.(repo := StepRepo(w.repo, a, p, out, pick),
           pubs := w.pubs[a := p.(pc := StepPc(w.repo, a, p, out, pick))])
    case List(j) => w.(janitors := w.janitors[j := Janitor(w.repo.staging.Keys, {})])
    case Inspect(j, g) =>
      if j !in w.janitors || w.repo.claim.Some? then w
      else
        var jan := w.janitors[j];
        w.(janitors := w.janitors[j := jan.(doomed := jan.doomed + (set k | k in jan.listed && k.attempt == g))])
    case Sweep(j, k) =>
      if j !in w.janitors || k !in w.janitors[j].doomed then w
      else w.(repo := w.repo.(staging := w.repo.staging - {k}))
  }

  // ---------- the invariant ----------

  /** Committed/ holds every declared file and the manifest, all from attempt a. */
  ghost predicate InPlace(r: Repo, a: nat, m: Manifest) {
    WellFormed(m) && forall n :: n in Names(m) ==> n in r.committed && r.committed[n] == Stored(a, Body(m, n))
  }

  ghost predicate StagedTo(r: Repo, a: nat, m: Manifest, i: nat)
    requires WellFormed(m)
  {
    forall j :: 0 <= j < i && j < |Names(m)| ==>
      StagingKey(a, Names(m)[j]) in r.staging && r.staging[StagingKey(a, Names(m)[j])] == Body(m, Names(m)[j])
  }

  ghost predicate CopiedTo(r: Repo, a: nat, m: Manifest, i: nat)
    requires WellFormed(m)
  {
    forall j :: 0 <= j < i && j < |Names(m)| ==>
      Names(m)[j] in r.committed && r.committed[Names(m)[j]] == Stored(a, Body(m, Names(m)[j]))
  }

  predicate BeforeClaim(pc: Pc) { pc.CheckMarker? || pc.CheckClaim? || pc.CheckManifest? || pc.PutClaim? }

  predicate Reconciling(pc: Pc) { pc.ReadMarker? || pc.RereadClaim? || pc.RereadManifest? }

  predicate Owning(pc: Pc) { !BeforeClaim(pc) && !pc.Done? }

  /** What holds of an attempt that owns the claim, by where it is. */
  ghost predicate Progress(r: Repo, a: nat, m: Manifest, pc: Pc)
    requires WellFormed(m)
  {
    match pc
    case Stage(i) => i < |Names(m)| && StagedTo(r, a, m, i)
    case Verify => StagedTo(r, a, m, |Names(m)|)
    case Copy(i) => i < |Names(m)| && StagedTo(r, a, m, |Names(m)|) && CopiedTo(r, a, m, i)
    case VerifyAgain => CopiedTo(r, a, m, |Names(m)|)
    case PutMarker => CopiedTo(r, a, m, |Names(m)|)
    case ReadMarker => CopiedTo(r, a, m, |Names(m)|)
    case RereadClaim => r.marker == Some(Claim(a, m)) && CopiedTo(r, a, m, |Names(m)|)
    case RereadManifest => r.marker == Some(Claim(a, m)) && CopiedTo(r, a, m, |Names(m)|)
    case Clean(gone) => forall n :: Committed(n) in gone ==> n !in r.committed
    case CleanVerifyAgain => forall n :: n in Names(m) ==> n !in r.committed
    case CleanClaim => forall n :: n in Names(m) ==> n !in r.committed
    case _ => true
  }

  ghost predicate PubOk(r: Repo, a: nat, p: Publisher) {
    && WellFormed(p.manifest)
    && (BeforeClaim(p.pc) ==>
          (r.claim.Some? ==> r.claim.value.attempt != a) && forall k :: k in r.staging ==> k.attempt != a)
    && (Owning(p.pc) ==>
          && r.claim == Some(Claim(a, p.manifest))
          && (r.marker.Some? ==> Reconciling(p.pc))
          && Progress(r, a, p.manifest, p.pc))
    && (p.pc.CheckClaim? || p.pc.CheckManifest? ==> r.marker == Some(p.pc.seen))
    && (p.pc == Done(true) ==> r.marker.Some? && r.marker.value.manifest == p.manifest)
  }

  ghost predicate RepoOk(r: Repo) {
    && (forall n :: n in r.committed ==>
          && r.claim.Some? && n in Names(r.claim.value.manifest) && WellFormed(r.claim.value.manifest)
          && r.committed[n] == Stored(r.claim.value.attempt, Body(r.claim.value.manifest, n)))
    && (r.marker.Some? ==> r.claim == r.marker && InPlace(r, r.marker.value.attempt, r.marker.value.manifest))
  }

  /** An attempt that put staging objects has claimed; one the janitor may sweep is over. */
  ghost predicate Claimed(pubs: map<nat, Publisher>, a: nat) { a in pubs && !BeforeClaim(pubs[a].pc) }

  ghost predicate Over(pubs: map<nat, Publisher>, a: nat) { a in pubs && pubs[a].pc.Done? }

  ghost predicate TagsOk(w: World) {
    && (w.repo.claim.Some? ==> Claimed(w.pubs, w.repo.claim.value.attempt))
    && (forall k :: k in w.repo.staging ==> Claimed(w.pubs, k.attempt))
    && (forall j, k :: j in w.janitors && k in w.janitors[j].listed ==> Claimed(w.pubs, k.attempt))
    && (forall j, k :: j in w.janitors && k in w.janitors[j].doomed ==> Over(w.pubs, k.attempt))
  }

  ghost predicate Inv(w: World) {
    && RepoOk(w.repo)
    && TagsOk(w)
    && (forall a :: a in w.pubs ==> PubOk(w.repo, a, w.pubs[a]))
  }

  // ---------- one publisher step ----------

  lemma CopiedAll(r: Repo, a: nat, m: Manifest)
    requires WellFormed(m) && CopiedTo(r, a, m, |Names(m)|)
    ensures InPlace(r, a, m)
  {
    forall n | n in Names(m) ensures n in r.committed && r.committed[n] == Stored(a, Body(m, n)) {
      var j :| 0 <= j < |Names(m)| && Names(m)[j] == n;
    }
  }

  lemma StepKeepsRepo(r: Repo, a: nat, p: Publisher, out: Outcome, pick: Target)
    requires RepoOk(r) && PubOk(r, a, p)
    ensures RepoOk(StepRepo(r, a, p, out, pick))
  {
    if p.pc.PutMarker? {
      CopiedAll(r, a, p.manifest);
    }
  }

  lemma StageKeepsSelf(r: Repo, a: nat, m: Manifest, pc: Pc, pick: Target)
    requires RepoOk(r) && PubOk(r, a, Publisher(m, pc)) && pc.Stage?
    ensures PubOk(Effect(r, a, m, pc, pick), a, Publisher(m, OnGood(r, a, m, pc, pick)))
  {
    hide RepoOk, CopiedTo;
  }

  lemma CopyKeepsSelf(r: Repo, a: nat, m: Manifest, pc: Pc, pick: Target)
    requires RepoOk(r) && PubOk(r, a, Publisher(m, pc)) && pc.Copy?
    ensures PubOk(Effect(r, a, m, pc, pick), a, Publisher(m, OnGood(r, a, m, pc, pick)))
  {
    hide RepoOk;
  }

  lemma CleanKeepsSelf(r: Repo, a: nat, m: Manifest, pc: Pc, pick: Target)
    requires RepoOk(r) && PubOk(r, a, Publisher(m, pc)) && pc.Clean?
    ensures PubOk(Effect(r, a, m, pc, pick), a, Publisher(m, OnGood(r, a, m, pc, pick)))
  {
    hide RepoOk, StagedTo, CopiedTo;
    if pick in Targets(m) && Targets(m) <= pc.gone + {pick} {
      forall n | n in Names(m) ensures n !in Remove(r, a, pick).committed {
        assert Committed(n) in Targets(m);
      }
    }
  }

  lemma OtherKeepsSelf(r: Repo, a: nat, m: Manifest, pc: Pc, pick: Target)
    requires RepoOk(r) && PubOk(r, a, Publisher(m, pc)) && !pc.Stage? && !pc.Copy? && !pc.Clean?
    ensures PubOk(Effect(r, a, m, pc, pick), a, Publisher(m, OnGood(r, a, m, pc, pick)))
  {
  }

  lemma ErrorKeepsSelf(r: Repo, a: nat, p: Publisher, out: Outcome, pick: Target)
    requires RepoOk(r) && PubOk(r, a, p) && !out.Good?
    ensures PubOk(StepRepo(r, a, p, out, pick), a, p.(pc := StepPc(r, a, p, out, pick)))
  {
  }

  lemma {:induction false} StepKeepsSelf(r: Repo, a: nat, p: Publisher, out: Outcome, pick: Target)
    requires RepoOk(r) && PubOk(r, a, p)
    ensures PubOk(StepRepo(r, a, p, out, pick), a, p.(pc := StepPc(r, a, p, out, pick)))
  {
    if !out.Good? {
      ErrorKeepsSelf(r, a, p, out, pick);
    } else if p.pc.Stage? {
      StageKeepsSelf(r, a, p.manifest, p.pc, pick);
    } else if p.pc.Copy? {
      CopyKeepsSelf(r, a, p.manifest, p.pc, pick);
    } else if p.pc.Clean? {
      CleanKeepsSelf(r, a, p.manifest, p.pc, pick);
    } else {
      OtherKeepsSelf(r, a, p.manifest, p.pc, pick);
    }
  }

  /** One publisher's step never disturbs another: the claim excludes every other writer. */
  lemma {:induction false} StepKeepsOther(r: Repo, a: nat, p: Publisher, out: Outcome, pick: Target, b: nat, q: Publisher)
    requires RepoOk(r) && PubOk(r, a, p) && PubOk(r, b, q) && a != b
    ensures PubOk(StepRepo(r, a, p, out, pick), b, q)
  {
  }

  // ---------- every event ----------

  /** A publisher never goes back before its claim, stays done, and tags what it puts. */
  lemma StepTags(r: Repo, a: nat, p: Publisher, out: Outcome, pick: Target)
    requires WellFormed(p.manifest)
    ensures var r', pc' := StepRepo(r, a, p, out, pick), StepPc(r, a, p, out, pick);
            && (!BeforeClaim(p.pc) ==> !BeforeClaim(pc'))
            && (p.pc.Done? ==> pc'.Done?)
            && (forall k :: k in r'.staging ==> k in r.staging || (k.attempt == a && !BeforeClaim(p.pc)))
            && (r'.claim == r.claim || r'.claim.None? || (r'.claim.value.attempt == a && !BeforeClaim(pc')))
  {
  }

  lemma PublishKeepsTags(w: World, a: nat, out: Outcome, pick: Target)
    requires Inv(w) && a in w.pubs
    ensures TagsOk(Step(w, Publish(a, out, pick)))
  {
    hide StepRepo, StepPc, RepoOk;
    assert PubOk(w.repo, a, w.pubs[a]);
    StepTags(w.repo, a, w.pubs[a], out, pick);
  }

  lemma PublishKeeps(w: World, a: nat, out: Outcome, pick: Target)
    requires Inv(w) && a in w.pubs
    ensures Inv(Step(w, Publish(a, out, pick)))
  {
    var p, w' := w.pubs[a], Step(w, Publish(a, out, pick));
    assert PubOk(w.repo, a, p);
    StepKeepsRepo(w.repo, a, p, out, pick);
    PublishKeepsTags(w, a, out, pick);
    forall b | b in w'.pubs ensures PubOk(w'.repo, b, w'.pubs[b]) {
      if b == a {
        StepKeepsSelf(w.repo, a, p, out, pick);
      } else {
        StepKeepsOther(w.repo, a, p, out, pick, b, w.pubs[b]);
      }
    }
  }

  /** A listed group whose claim is gone belongs to an attempt that has ended. */
  lemma {:induction false} InspectKeeps(w: World, j: nat, g: nat)
    requires Inv(w)
    ensures Inv(Step(w, Inspect(j, g)))
  {
    forall a | a in w.pubs && w.repo.claim.None? && Claimed(w.pubs, a) ensures Over(w.pubs, a) {
      assert PubOk(w.repo, a, w.pubs[a]);
    }
  }

  lemma SweepKeeps(w: World, j: nat, k: StagingKey)
    requires Inv(w)
    ensures Inv(Step(w, Sweep(j, k)))
  {
    var w' := Step(w, Sweep(j, k));
    forall b | b in w'.pubs ensures PubOk(w'.repo, b, w'.pubs[b]) {
      assert PubOk(w.repo, b, w.pubs[b]);
    }
  }

  lemma {:induction false} StepKeeps(w: World, e: Event)
    requires Inv(w)
    ensures Inv(Step(w, e))
  {
    match e
    case Begin(a, m) => BeginKeeps(w, a, m);
    case Publish(a, out, pick) =>
      if a in w.pubs {
        PublishKeeps(w, a, out, pick);
      }
    case List(j) =>
    case Inspect(j, g) => InspectKeeps(w, j, g);
    case Sweep(j, k) => SweepKeeps(w, j, k);
  }

  lemma BeginKeeps(w: World, a: nat, m: Manifest)
    requires Inv(w)
    ensures Inv(Step(w, Begin(a, m)))
  {
    var w' := Step(w, Begin(a, m));
    forall b | b in w'.pubs ensures PubOk(w'.repo, b, w'.pubs[b]) {
      assert b in w.pubs ==> PubOk(w.repo, b, w.pubs[b]);
    }
  }

  // ---------- whole runs ----------

  function Empty(): World {
    World(Repo(None, None, map[], map[]), map[], map[])
  }

  /** The state after the first events of a run. */
  ghost function After(events: seq<Event>): (w: World)
    ensures Inv(w)
  {
    if events == [] then Empty()
    else
      var w := After(events[..|events| - 1]);
      StepKeeps(w, events[|events| - 1]);
      Step(w, events[|events| - 1])
  }

  /** A visible marker: its claim, its manifest and every declared file with the content it
      declares are in place, all from the attempt the marker names, and nothing else is. */
  ghost predicate Published(r: Repo, c: Claim) {
    && r.marker == Some(c) && r.claim == Some(c)
    && ManifestFile in r.committed && r.committed[ManifestFile] == Stored(c.attempt, ManifestObject(c.manifest))
    && (forall p :: p in c.manifest.paths ==>
          && p in c.manifest.content && File(p) in r.committed
          && r.committed[File(p)] == Stored(c.attempt, FileObject(c.manifest.content[p])))
    && (forall p :: File(p) in r.committed ==> p in c.manifest.paths)
  }

  lemma MarkerPublishes(r: Repo)
    requires RepoOk(r) && r.marker.Some?
    ensures Published(r, r.marker.value)
  {
    var m := r.marker.value.manifest;
    forall p | p in m.paths ensures File(p) in Names(m) && ManifestFile in Names(m) {
    }
    assert ManifestFile in Names(m);
  }

  /** The manifest that attempt a was asked to publish: that of its first complete request. */
  function Asked(events: seq<Event>, a: nat): Option<Manifest> {
    if events == [] then None
    else
      var before, e := Asked(events[..|events| - 1], a), events[|events| - 1];
      if before.None? && e.Begin? && e.attempt == a && (forall p :: p in e.manifest.paths ==> p in e.manifest.content)
      then Some(e.manifest) else before
  }

  /** Every publisher, and the claim, carry the manifest that was asked for. */
  ghost predicate CarriesAsked(events: seq<Event>, w: World) {
    && (forall a :: a in w.pubs <==> Asked(events, a).Some?)
    && (forall a :: a in w.pubs ==> Asked(events, a) == Some(w.pubs[a].manifest))
    && (w.repo.claim.Some? ==> Asked(events, w.repo.claim.value.attempt) == Some(w.repo.claim.value.manifest))
  }

  lemma ClaimStep(r: Repo, a: nat, p: Publisher, out: Outcome, pick: Target)
    requires WellFormed(p.manifest)
    ensures var r' := StepRepo(r, a, p, out, pick);
            r'.claim == r.claim || r'.claim.None? || r'.claim == Some(Claim(a, p.manifest))
  {
  }

  lemma AskedMore(events: seq<Event>, e: Event, a: nat)
    ensures Asked(events + [e], a) ==
            if Asked(events, a).None? && e.Begin? && e.attempt == a && WellFormed(e.manifest) then Some(e.manifest)
            else Asked(events, a)
  {
    assert (events + [e])[..|events|] == events;
  }

  lemma AskedStep(events: seq<Event>, w: World, e: Event)
    requires CarriesAsked(events, w) && forall a :: a in w.pubs ==> WellFormed(w.pubs[a].manifest)
    ensures CarriesAsked(events + [e], Step(w, e))
  {
    hide StepRepo, StepPc, Asked, WellFormed;
    forall a ensures Asked(events + [e], a) ==
      if Asked(events, a).None? && e.Begin? && e.attempt == a && WellFormed(e.manifest) then Some(e.manifest)
      else Asked(events, a)
    {
      AskedMore(events, e, a);
    }
    if e.Publish? && e.attempt in w.pubs {
      ClaimStep(w.repo, e.attempt, w.pubs[e.attempt], e.out, e.pick);
    }
  }

  lemma WellFormedPubs(w: World)
    requires Inv(w)
    ensures forall a :: a in w.pubs ==> WellFormed(w.pubs[a].manifest)
  {
    forall a | a in w.pubs ensures WellFormed(w.pubs[a].manifest) {
      assert PubOk(w.repo, a, w.pubs[a]);
    }
  }

  lemma Last(events: seq<Event>, e: Event)
    ensures After(events + [e]) == Step(After(events), e)
  {
    assert (events + [e])[..|events|] == events;
  }

  lemma {:induction false} RunCarriesAsked(events: seq<Event>)
    ensures CarriesAsked(events, After(events))
  {
    if events == [] {
      StartCarriesAsked();
    } else {
      hide Inv, After, Step, CarriesAsked;
      var n := |events| - 1;
      RunCarriesAsked(events[..n]);
      WellFormedPubs(After(events[..n]));
      AskedStep(events[..n], After(events[..n]), events[n]);
      Last(events[..n], events[n]);
      assert events == events[..n] + [events[n]];
    }
  }

  lemma StartCarriesAsked()
    ensures CarriesAsked([], Empty()) && After([]) == Empty()
  {
  }

  /** In every reachable state a visible marker is a publication of what its attempt was asked
      for. */
  lemma {:induction false} MarkerMeansPublished(events: seq<Event>)
    ensures var r := After(events).repo;
            r.marker.Some? ==> Published(r, r.marker.value) && Asked(events, r.marker.value.attempt) == Some(r.marker.value.manifest)
  {
    RunCarriesAsked(events);
    if After(events).repo.marker.Some? {
      MarkerPublishes(After(events).repo);
    }
  }

  /** No event takes a visible marker away. */
  lemma MarkerStays(w: World, e: Event)
    requires Inv(w) && w.repo.marker.Some?
    ensures Step(w, e).repo.marker == w.repo.marker
  {
  }

  lemma {:induction false} MarkerLasts(events: seq<Event>, later: seq<Event>, c: Claim)
    requires After(events).repo.marker == Some(c)
    ensures After(events + later).repo.marker == Some(c)
  {
    hide Inv, After, Step;
    if later == [] {
      assert events + later == events;
    } else {
      var n := |later| - 1;
      MarkerLasts(events, later[..n], c);
      MarkerStays(After(events + later[..n]), later[n]);
      Last(events + later[..n], later[n]);
      assert events + later == (events + later[..n]) + [later[n]];
    }
  }

  lemma InvRepo(w: World)
    requires Inv(w)
    ensures RepoOk(w.repo)
  {
  }

  /** Once a marker is visible, every later state of the run has the same publication in
      place. */
  lemma {:induction false} PublishedForever(events: seq<Event>, later: seq<Event>, c: Claim)
    requires After(events).repo.marker == Some(c)
    ensures Published(After(events + later).repo, c)
  {
    hide Inv, After, RepoOk, Published;
    MarkerLasts(events, later, c);
    InvRepo(After(events + later));
    MarkerPublishes(After(events + later).repo);
  }

  /** A Publish that reports success: the manifest it was asked for is published, whichever attempt
      did it; so two successful publishers agree on the contents. */
  lemma {:induction false} SuccessMeansPublished(events: seq<Event>, a: nat)
    requires a in After(events).pubs && After(events).pubs[a].pc == Done(true)
    ensures var r := After(events).repo;
            r.marker.Some? && Published(r, r.marker.value) && Asked(events, a) == Some(r.marker.value.manifest)
  {
    RunCarriesAsked(events);
    assert PubOk(After(events).repo, a, After(events).pubs[a]);
    MarkerPublishes(After(events).repo);
  }

  // ---------- an undisturbed publisher ----------

  /** n successful operations of one publisher with nobody else around. */
  function Alone(r: Repo, a: nat, m: Manifest, pc: Pc, n: nat): (Repo, Pc)
    requires WellFormed(m)
    decreases n
  {
    if n == 0 then (r, pc)
    else Alone(Effect(r, a, m, pc, Staged(ManifestFile)), a, m, OnGood(r, a, m, pc, Staged(ManifestFile)), n - 1)
  }

  lemma {:induction false} AloneMore(r: Repo, a: nat, m: Manifest, pc: Pc, n: nat, k: nat)
    requires WellFormed(m)
    ensures Alone(r, a, m, pc, n + k) == var (r', pc') := Alone(r, a, m, pc, n); Alone(r', a, m, pc', k)
    decreases n
  {
    if n > 0 {
      AloneMore(Effect(r, a, m, pc, Staged(ManifestFile)), a, m, OnGood(r, a, m, pc, Staged(ManifestFile)), n - 1, k);
    }
  }

  lemma StageOne(r: Repo, a: nat, m: Manifest, i: nat)
    requires WellFormed(m) && i < |Names(m)| && StagedTo(r, a, m, i)
    ensures var next := Effect(r, a, m, Stage(i), Staged(ManifestFile));
            && StagedTo(next, a, m, i + 1)
            && next.claim == r.claim && next.marker == r.marker && next.committed == r.committed
    ensures OnGood(r, a, m, Stage(i), Staged(ManifestFile)) == if i + 1 < |Names(m)| then Stage(i + 1) else Verify
  {
  }

  lemma {:induction false} StagesAlone(r: Repo, a: nat, m: Manifest, i: nat) returns (n: nat, r': Repo)
    requires WellFormed(m) && i < |Names(m)| && StagedTo(r, a, m, i)
    ensures Alone(r, a, m, Stage(i), n) == (r', Verify) && StagedTo(r', a, m, |Names(m)|)
    ensures r'.claim == r.claim && r'.marker == r.marker && r'.committed == r.committed
    decreases |Names(m)| - i
  {
    hide Effect, OnGood, StagedTo, Alone;
    StageOne(r, a, m, i);
    OneStep(r, a, m, Stage(i));
    n, r' := 1, Effect(r, a, m, Stage(i), Staged(ManifestFile));
    if i + 1 < |Names(m)| {
      n, r' := StagesAlone(r', a, m, i + 1);
      AloneMore(r, a, m, Stage(i), 1, n);
      n := 1 + n;
    }
  }

  lemma CopyOne(r: Repo, a: nat, m: Manifest, i: nat)
    requires WellFormed(m) && i < |Names(m)| && StagedTo(r, a, m, |Names(m)|) && CopiedTo(r, a, m, i)
    ensures var next := Effect(r, a, m, Copy(i), Staged(ManifestFile));
            && StagedTo(next, a, m, |Names(m)|) && CopiedTo(next, a, m, i + 1)
            && next.claim == r.claim && next.marker == r.marker
    ensures OnGood(r, a, m, Copy(i), Staged(ManifestFile)) == if i + 1 < |Names(m)| then Copy(i + 1) else VerifyAgain
  {
    assert StagingKey(a, Names(m)[i]) in r.staging;
  }

  lemma {:induction false} CopiesAlone(r: Repo, a: nat, m: Manifest, i: nat) returns (n: nat, r': Repo)
    requires WellFormed(m) && i < |Names(m)| && StagedTo(r, a, m, |Names(m)|) && CopiedTo(r, a, m, i)
    ensures Alone(r, a, m, Copy(i), n) == (r', VerifyAgain) && CopiedTo(r', a, m, |Names(m)|)
    ensures r'.claim == r.claim && r'.marker == r.marker
    decreases |Names(m)| - i
  {
    hide Effect, OnGood, StagedTo, CopiedTo, Alone;
    CopyOne(r, a, m, i);
    OneStep(r, a, m, Copy(i));
    n, r' := 1, Effect(r, a, m, Copy(i), Staged(ManifestFile));
    if i + 1 < |Names(m)| {
      n, r' := CopiesAlone(r', a, m, i + 1);
      AloneMore(r, a, m, Copy(i), 1, n);
      n := 1 + n;
    }
  }

  /** From a complete staging area: verify, copy, verify again, put the marker. */
  lemma FinishesAlone(r: Repo, a: nat, m: Manifest) returns (n: nat, r': Repo)
    requires WellFormed(m) && StagedTo(r, a, m, |Names(m)|) && r.claim == Some(Claim(a, m)) && r.marker.None?
    ensures Alone(r, a, m, Verify, n) == (r', Done(true)) && r'.marker == Some(Claim(a, m))
  {
    OneStep(r, a, m, Verify);
    var j, copied := CopiesAlone(r, a, m, 0);
    AloneMore(r, a, m, Verify, 1, j);
    OneStep(copied, a, m, VerifyAgain);
    AloneMore(r, a, m, Verify, 1 + j, 1);
    OneStep(copied, a, m, PutMarker);
    AloneMore(r, a, m, Verify, 2 + j, 1);
    n, r' := 3 + j, copied.(marker := Some(Claim(a, m)));
  }

  lemma ReachesMarker(r: Repo, a: nat, m: Manifest) returns (n: nat, r': Repo)
    requires WellFormed(m) && r.claim.None? && r.marker.None?
    ensures Alone(r, a, m, CheckMarker(false), n) == (r', Done(true)) && r'.marker == Some(Claim(a, m))
  {
    var claimed := r.(claim := Some(Claim(a, m)));
    assert StagedTo(claimed, a, m, 0);
    hide Effect, OnGood, StagedTo, Alone;
    TwoSteps(r, a, m);
    var k, staged := StagesAlone(claimed, a, m, 0);
    AloneMore(r, a, m, CheckMarker(false), 2, k);
    n, r' := FinishesAlone(staged, a, m);
    AloneMore(r, a, m, CheckMarker(false), 2 + k, n);
    n := 2 + k + n;
  }

  /** n faultless operations of attempt a as events. */
  function Steps(a: nat, n: nat): (e: seq<Event>)
    ensures |e| == n && forall i :: 0 <= i < n ==> e[i] == Publish(a, Good, Staged(ManifestFile))
  {
    seq(n, _ => Publish(a, Good, Staged(ManifestFile)))
  }

  lemma GoodStep(w: World, a: nat, pick: Target)
    requires Inv(w) && a in w.pubs
    ensures var p, w' := w.pubs[a], Step(w, Publish(a, Good, pick));
            && WellFormed(p.manifest)
            && w'.repo == Effect(w.repo, a, p.manifest, p.pc, pick) && w'.pubs.Keys == w.pubs.Keys
            && w'.pubs[a] == Publisher(p.manifest, OnGood(w.repo, a, p.manifest, p.pc, pick))
  {
    WellFormedPubs(w);
  }

  lemma {:induction false} AloneInRun(events: seq<Event>, a: nat, n: nat)
    requires a in After(events).pubs
    ensures var w, w' := After(events), After(events + Steps(a, n));
            && a in w'.pubs && WellFormed(w.pubs[a].manifest) && w'.pubs[a].manifest == w.pubs[a].manifest
            && (w'.repo, w'.pubs[a].pc) == Alone(w.repo, a, w.pubs[a].manifest, w.pubs[a].pc, n)
  {
    hide Inv, After, Step, Effect, OnGood, WellFormed;
    var w := After(events);
    WellFormedPubs(w);
    if n == 0 {
      assert events + Steps(a, 0) == events;
    } else {
      AloneInRun(events, a, n - 1);
      var p, before, e := w.pubs[a], events + Steps(a, n - 1), Publish(a, Good, Staged(ManifestFile));
      assert events + Steps(a, n) == before + [e];
      Last(before, e);
      GoodStep(After(before), a, Staged(ManifestFile));
      AloneMore(w.repo, a, p.manifest, p.pc, n - 1, 1);
      OneStep(After(before).repo, a, p.manifest, After(before).pubs[a].pc);
    }
  }

  lemma Begins(events: seq<Event>, a: nat, m: Manifest)
    requires WellFormed(m) && a !in After(events).pubs
    ensures var w, w' := After(events), After(events + [Begin(a, m)]);
            w' == w.(pubs := w.pubs[a := Publisher(m, CheckMarker(false))])
  {
    Last(events, Begin(a, m));
  }

  /** After any history that has left no claim and no marker, a new attempt that meets no fault and
      no other publisher publishes its manifest and reports success. */
  lemma {:induction false} PublishesAlone(events: seq<Event>, a: nat, m: Manifest) returns (n: nat)
    requires After(events).repo.claim.None? && After(events).repo.marker.None? && a !in After(events).pubs
    requires forall p :: p in m.paths ==> p in m.content
    ensures var w := After(events + [Begin(a, m)] + Steps(a, n));
            a in w.pubs && w.pubs[a].pc == Done(true) && Published(w.repo, Claim(a, m))
  {
    hide Effect, OnGood, Published, PubOk, TagsOk;
    Begins(events, a, m);
    var w := After(events + [Begin(a, m)]);
    var r';
    n, r' := ReachesMarker(w.repo, a, m);
    AloneInRun(events + [Begin(a, m)], a, n);
    MarkerPublishes(After(events + [Begin(a, m)] + Steps(a, n)).repo);
  }

  /** A backup that is already published: a new attempt changes nothing, and reports success
      exactly for the manifest that is there. */
  lemma {:induction false} RepublishAlone(events: seq<Event>, a: nat, m: Manifest)
    requires After(events).repo.marker.Some? && a !in After(events).pubs
    requires forall p :: p in m.paths ==> p in m.content
    ensures var w, w' := After(events), After(events + [Begin(a, m)] + Steps(a, 3));
            && w'.repo == w.repo && a in w'.pubs
            && w'.pubs[a].pc == Done(m == w.repo.marker.value.manifest)
  {
    hide PubOk, TagsOk;
    Begins(events, a, m);
    var r := After(events).repo;
    var c := r.marker.value;
    MarkerPublishes(r);
    OneStep(r, a, m, CheckMarker(false));
    OneStep(r, a, m, CheckClaim(false, c));
    OneStep(r, a, m, CheckManifest(false, c));
    AloneMore(r, a, m, CheckMarker(false), 1, 1);
    AloneMore(r, a, m, CheckMarker(false), 2, 1);
    AloneInRun(events + [Begin(a, m)], a, 3);
  }

  /** A marker put that reports an error: left alone, the publisher finds out whether it took
      effect, and reports success if it did. */
  lemma {:induction false} AmbiguousMarkerSettled(events: seq<Event>, a: nat, applied: bool)
    requires a in After(events).pubs && After(events).pubs[a].pc == PutMarker
    ensures var w := After(events);
            var put := events + [Publish(a, Bad(applied), Staged(ManifestFile))];
            var w' := After(put + Steps(a, if applied then 3 else 1));
            && a in w'.pubs && w'.repo == After(put).repo
            && (if applied then w'.pubs[a].pc == Done(true) && Published(w'.repo, Claim(a, w.pubs[a].manifest))
                else w'.pubs[a].pc == CleanVerify && w'.repo == w.repo)
  {
    hide Inv, After, Step, Published, Alone, RepoOk;
    var w := After(events);
    var e := Publish(a, Bad(applied), Staged(ManifestFile));
    FailedPut(w, a, applied);
    Last(events, e);
    var put := After(events + [e]);
    Reconciles(put.repo, a, w.pubs[a].manifest);
    AloneInRun(events + [e], a, if applied then 3 else 1);
    if applied {
      InvRepo(put);
      MarkerPublishes(put.repo);
    }
  }

  lemma FailedPut(w: World, a: nat, applied: bool)
    requires Inv(w) && a in w.pubs && w.pubs[a].pc == PutMarker
    ensures var m, w' := w.pubs[a].manifest, Step(w, Publish(a, Bad(applied), Staged(ManifestFile)));
            && WellFormed(m) && a in w'.pubs && w'.pubs[a] == Publisher(m, ReadMarker)
            && w'.repo == (if applied then w.repo.(marker := Some(Claim(a, m))) else w.repo)
            && w.repo.marker.None? && w.repo.claim == Some(Claim(a, m))
            && ManifestFile in w.repo.committed && w.repo.committed[ManifestFile].body == ManifestObject(m)
  {
    assert PubOk(w.repo, a, w.pubs[a]);
    var m := w.pubs[a].manifest;
    CopiedAll(w.repo, a, m);
    assert ManifestFile in Names(m);
  }

  lemma Reconciles(r: Repo, a: nat, m: Manifest)
    requires WellFormed(m) && r.claim == Some(Claim(a, m)) && (r.marker.None? || r.marker == Some(Claim(a, m)))
    requires ManifestFile in r.committed && r.committed[ManifestFile].body == ManifestObject(m)
    ensures r.marker.None? ==> Alone(r, a, m, ReadMarker, 1) == (r, CleanVerify)
    ensures r.marker.Some? ==> Alone(r, a, m, ReadMarker, 3) == (r, Done(true))
  {
    hide Alone;
    OneStep(r, a, m, ReadMarker);
    OneStep(r, a, m, RereadClaim);
    OneStep(r, a, m, RereadManifest);
    AloneMore(r, a, m, ReadMarker, 1, 1);
    AloneMore(r, a, m, ReadMarker, 2, 1);
  }

  // ---------- cleaning up ----------

  /** The deletions of a cleanup, in any order. */
  function Cleaning(a: nat, picks: seq<Target>): (e: seq<Event>)
    ensures |e| == |picks| && forall i :: 0 <= i < |e| ==> e[i] == Publish(a, Good, picks[i])
  {
    seq(|picks|, i requires 0 <= i < |picks| => Publish(a, Good, picks[i]))
  }

  function Gone(picks: seq<Target>): set<Target> { set t | t in picks }

  /** What is left of a repository after those deletions. */
  ghost predicate Left(r: Repo, r': Repo, a: nat, picks: seq<Target>) {
    && r'.claim == r.claim && r'.marker == r.marker
    && r'.committed == (map n | n in r.committed && Committed(n) !in picks :: r.committed[n])
    && r'.staging == (map k | k in r.staging && !(k.attempt == a && Staged(k.name) in picks) :: r.staging[k])
  }

  /** One more deletion. */
  lemma CleanStep(r: Repo, r': Repo, a: nat, m: Manifest, before: seq<Target>, t: Target)
    requires WellFormed(m) && Left(r, r', a, before) && t in Targets(m)
    ensures Left(r, Effect(r', a, m, Clean(Gone(before)), t), a, before + [t])
    ensures OnGood(r', a, m, Clean(Gone(before)), t) ==
            if Targets(m) <= Gone(before + [t]) then CleanVerifyAgain else Clean(Gone(before + [t]))
  {
    hide Targets;
    assert Gone(before + [t]) == Gone(before) + {t};
  }

  lemma {:induction false} CleansPart(events: seq<Event>, a: nat, m: Manifest, picks: seq<Target>)
    requires a in After(events).pubs && After(events).pubs[a] == Publisher(m, Clean({}))
    requires forall t :: t in picks ==> t in Targets(m)
    requires picks == [] || !(Targets(m) <= Gone(picks[..|picks| - 1]))
    ensures var w, w' := After(events), After(events + Cleaning(a, picks));
            && a in w'.pubs && Left(w.repo, w'.repo, a, picks)
            && w'.pubs[a] ==
               Publisher(m, if picks != [] && Targets(m) <= Gone(picks) then CleanVerifyAgain else Clean(Gone(picks)))
  {
    hide Targets, Inv, After, Step, Effect, OnGood, Left, Gone;
    if picks == [] {
      assert events + Cleaning(a, picks) == events;
      NothingGone(After(events).repo, a);
    } else {
      var n := |picks| - 1;
      var before, t := picks[..n], picks[n];
      GoneLess(picks);
      CleansPart(events, a, m, before);
      var mid := events + Cleaning(a, before);
      assert events + Cleaning(a, picks) == mid + [Publish(a, Good, t)];
      assert t in picks && picks == before + [t];
      Last(mid, Publish(a, Good, t));
      GoodStep(After(mid), a, t);
      CleanStep(After(events).repo, After(mid).repo, a, m, before, t);
    }
  }

  lemma NothingGone(r: Repo, a: nat)
    ensures Left(r, r, a, []) && Gone([]) == {}
  {
  }

  lemma GoneLess(picks: seq<Target>)
    ensures 2 <= |picks| ==> Gone(picks[..|picks| - 1][..|picks| - 2]) <= Gone(picks[..|picks| - 1])
  {
  }

  /** A failed attempt that still holds the claim and is left alone: the cleanup deletes, in
      whatever order, its staged and committed objects and then its claim, and nothing else, so
      that the backup can be published by another attempt. */
  lemma {:induction false} CleansAlone(events: seq<Event>, a: nat, picks: seq<Target>)
    requires a in After(events).pubs && After(events).pubs[a].pc == CleanVerify
    requires forall t :: t in picks <==> t.name.ManifestFile? || t.name.path in After(events).pubs[a].manifest.paths
    requires forall i, j :: 0 <= i < j < |picks| ==> picks[i] != picks[j]
    ensures var m := After(events).pubs[a].manifest;
            var r, w' := After(events).repo, After(events + Steps(a, 1) + Cleaning(a, picks) + Steps(a, 2));
            && a in w'.pubs && w'.pubs[a].pc == Done(false) && Cleaned(r, w'.repo, a, m)
  {
    hide Inv, After, Step, Left, Gone, Targets, RepoOk;
    var w := After(events);
    var m := w.pubs[a].manifest;
    ClaimHeld(w, a);
    AllPicked(picks, m);
    OneStep(w.repo, a, m, CleanVerify);
    AloneInRun(events, a, 1);
    var start := events + Steps(a, 1);
    CleansPart(start, a, m, picks);
    var w2 := After(start + Cleaning(a, picks));
    assert w2.pubs[a].pc == CleanVerifyAgain;
    LeftClaim(w.repo, w2.repo, a, picks);
    OneStep(w2.repo, a, m, CleanVerifyAgain);
    OneStep(w2.repo, a, m, CleanClaim);
    AloneMore(w2.repo, a, m, CleanVerifyAgain, 1, 1);
    AloneInRun(start + Cleaning(a, picks), a, 2);
    var w' := After(start + Cleaning(a, picks) + Steps(a, 2));
    InvRepo(w');
    LeftIsCleaned(w.repo, w2.repo, w'.repo, a, m, picks);
  }

  /** No claim, no marker, nothing committed; of the staged objects only those of this attempt
      are gone. */
  ghost predicate Cleaned(r: Repo, r': Repo, a: nat, m: Manifest) {
    && r'.claim.None? && r'.marker.None? && r'.committed == map[]
    && (forall k :: k in r'.staging ==> k in r.staging && r'.staging[k] == r.staging[k])
    && (forall k :: k in r.staging && k.attempt != a ==> k in r'.staging)
    && (forall p :: p in m.paths ==> StagingKey(a, File(p)) !in r'.staging)
    && StagingKey(a, ManifestFile) !in r'.staging
  }

  lemma ClaimHeld(w: World, a: nat)
    requires Inv(w) && a in w.pubs && w.pubs[a].pc == CleanVerify
    ensures WellFormed(w.pubs[a].manifest) && w.repo.claim == Some(Claim(a, w.pubs[a].manifest)) && w.repo.marker.None?
  {
    assert PubOk(w.repo, a, w.pubs[a]);
  }

  lemma LeftClaim(r: Repo, r': Repo, a: nat, picks: seq<Target>)
    requires Left(r, r', a, picks)
    ensures r'.claim == r.claim && r'.marker == r.marker
  {
  }

  lemma LeftIsCleaned(r: Repo, left: Repo, r': Repo, a: nat, m: Manifest, picks: seq<Target>)
    requires Left(r, left, a, picks) && r' == left.(claim := None) && r.marker.None? && RepoOk(r')
    requires forall t :: t in picks <==> t.name.ManifestFile? || t.name.path in m.paths
    ensures Cleaned(r, r', a, m)
  {
    assert forall n :: n !in r'.committed;
    forall p | p in m.paths ensures Staged(File(p)) in picks {
    }
    assert Staged(ManifestFile) in picks;
  }

  lemma AllPicked(picks: seq<Target>, m: Manifest)
    requires forall t :: t in picks <==> t.name.ManifestFile? || t.name.path in m.paths
    requires forall i, j :: 0 <= i < j < |picks| ==> picks[i] != picks[j]
    ensures picks != [] && Gone(picks) == Targets(m) && !(Targets(m) <= Gone(picks[..|picks| - 1]))
    ensures forall t :: t in picks ==> t in Targets(m)
  {
    assert Staged(ManifestFile) in picks;
    var n := |picks| - 1;
    forall t ensures t in Targets(m) <==> t in picks {
      assert t in Targets(m) <==> t.name in Names(m);
    }
    assert picks[n] in Gone(picks) && picks[n] !in Gone(picks[..n]);
  }

  /** The janitor deletes a staged object it has listed, exactly when it then finds no claim. */
  lemma JanitorSweeps(events: seq<Event>, j: nat, k: StagingKey)
    requires k in After(events).repo.staging
    ensures var r := After(events).repo;
            After(events + [List(j)] + [Inspect(j, k.attempt)] + [Sweep(j, k)]).repo ==
            if r.claim.None? then r.(staging := r.staging - {k}) else r
  {
    hide Inv, After, StepRepo, StepPc;
    var listed := events + [List(j)];
    var inspected := listed + [Inspect(j, k.attempt)];
    WellFormedPubs(After(events));
    WellFormedPubs(After(listed));
    WellFormedPubs(After(inspected));
    Last(events, List(j));
    Last(listed, Inspect(j, k.attempt));
    Last(inspected, Sweep(j, k));
    var w := After(inspected);
    assert j in w.janitors;
    assert k in w.janitors[j].listed;
    assert k in w.janitors[j].doomed <==> w.repo.claim.None?;
  }

  lemma OneStep(r: Repo, a: nat, m: Manifest, pc: Pc)
    requires WellFormed(m)
    ensures Alone(r, a, m, pc, 1) == (Effect(r, a, m, pc, Staged(ManifestFile)), OnGood(r, a, m, pc, Staged(ManifestFile)))
  {
    var next, to := Effect(r, a, m, pc, Staged(ManifestFile)), OnGood(r, a, m, pc, Staged(ManifestFile));
    assert Alone(next, a, m, to, 0) == (next, to);
  }

  lemma TwoSteps(r: Repo, a: nat, m: Manifest)
    requires WellFormed(m) && r.marker.None? && r.claim.None?
    ensures Alone(r, a, m, CheckMarker(false), 2) == (r.(claim := Some(Claim(a, m))), Stage(0))
  {
    OneStep(r, a, m, CheckMarker(false));
    OneStep(r, a, m, PutClaim);
    AloneMore(r, a, m, CheckMarker(false), 1, 1);
  }
}
