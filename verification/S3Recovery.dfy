/**
 What becomes of a backup whose publication was disturbed: which histories leave it publishable,
 and which leave a claim that nobody will ever release.
 */
module S3Recovery {
  import opened Bytes
  import opened S3Publish

  // ---------- one disturbed attempt ----------

  lemma OneGood(events: seq<Event>, a: nat, pick: Target)
    requires a in After(events).pubs
    ensures var w, w' := After(events), After(events + [Publish(a, Good, pick)]);
            var p := w.pubs[a];
            && WellFormed(p.manifest) && a in w'.pubs && w'.repo == Effect(w.repo, a, p.manifest, p.pc, pick)
            && w'.pubs[a] == Publisher(p.manifest, OnGood(w.repo, a, p.manifest, p.pc, pick))
  {
    hide Inv, After, Step;
    Last(events, Publish(a, Good, pick));
    GoodStep(After(events), a, pick);
  }

  /** An attempt that loses the race for the claim changes nothing; it reports success exactly if its
      own manifest is published by then. */
  lemma {:induction false} LosesRace(events: seq<Event>, a: nat)
    requires a in After(events).pubs && After(events).pubs[a].pc == PutClaim && After(events).repo.claim.Some?
    ensures var w, w' := After(events), After(events + Steps(a, 4));
            && w'.repo == w.repo && a in w'.pubs
            && w'.pubs[a].pc == Done(w.repo.marker.Some? && w.repo.marker.value.manifest == w.pubs[a].manifest)
  {
    hide PubOk, TagsOk;
    var w := After(events);
    var r, m := w.repo, w.pubs[a].manifest;
    WellFormedPubs(w);
    OneStep(r, a, m, PutClaim);
    OneStep(r, a, m, CheckMarker(true));
    AloneMore(r, a, m, PutClaim, 1, 1);
    if r.marker.Some? {
      MarkerPublishes(r);
      OneStep(r, a, m, CheckClaim(true, r.marker.value));
      OneStep(r, a, m, CheckManifest(true, r.marker.value));
    } else {
      OneStep(r, a, m, Done(false));
    }
    AloneMore(r, a, m, PutClaim, 2, 1);
    AloneMore(r, a, m, PutClaim, 3, 1);
    AloneInRun(events, a, 4);
  }

  /** Whichever operation between the claim and the marker fails, and whether or not it took effect:
      left alone, the attempt deletes what it put there and then its claim. */
  lemma {:induction false} AnyFailureCleans(events: seq<Event>, a: nat, applied: bool, picks: seq<Target>)
    requires a in After(events).pubs
    requires var pc := After(events).pubs[a].pc; pc.Stage? || pc.Verify? || pc.Copy? || pc.VerifyAgain?
    requires forall t :: t in picks <==> t.name.ManifestFile? || t.name.path in After(events).pubs[a].manifest.paths
    requires forall i, j :: 0 <= i < j < |picks| ==> picks[i] != picks[j]
    ensures var failed := events + [Publish(a, Bad(applied), Staged(ManifestFile))];
            var w' := After(failed + Steps(a, 1) + Cleaning(a, picks) + Steps(a, 2));
            && a in w'.pubs && w'.pubs[a].pc == Done(false)
            && Cleaned(After(failed).repo, w'.repo, a, After(events).pubs[a].manifest)
  {
    hide Inv, After, Cleaned, Effect;
    var e := Publish(a, Bad(applied), Staged(ManifestFile));
    WellFormedPubs(After(events));
    Last(events, e);
    CleansAlone(events + [e], a, picks);
  }

  // ---------- abandoned claims ----------

  /** The claim is held by an attempt that has ended without putting its marker. */
  predicate Abandoned(w: World) {
    && w.repo.marker.None? && w.repo.claim.Some?
    && w.repo.claim.value.attempt in w.pubs && w.pubs[w.repo.claim.value.attempt].pc.Done?
  }

  lemma AbandonedStays(w: World, e: Event)
    requires Inv(w) && Abandoned(w)
    ensures Abandoned(Step(w, e)) && Step(w, e).repo.claim == w.repo.claim
  {
    hide RepoOk, TagsOk, Progress;
    if e.Publish? && e.attempt in w.pubs {
      assert PubOk(w.repo, e.attempt, w.pubs[e.attempt]);
    }
  }

  lemma {:induction false} AbandonedForever(events: seq<Event>, later: seq<Event>)
    requires Abandoned(After(events))
    ensures Abandoned(After(events + later)) && After(events + later).repo.claim == After(events).repo.claim
  {
    hide Inv, After, Step, Abandoned;
    if later == [] {
      assert events + later == events;
    } else {
      var n := |later| - 1;
      AbandonedForever(events, later[..n]);
      AbandonedStays(After(events + later[..n]), later[n]);
      Last(events + later[..n], later[n]);
      assert events + later == (events + later[..n]) + [later[n]];
    }
  }

  /** A claim put that takes effect and reports an error is such a claim. */
  lemma LostClaimReply(m: Manifest, run: seq<Event>)
    requires WellFormed(m)
    requires run == [Begin(0, m)] + Steps(0, 1) + [Publish(0, Bad(true), Staged(ManifestFile))]
    ensures Abandoned(After(run)) && After(run).repo.claim == Some(Claim(0, m))
  {
    StartCarriesAsked();
    hide Inv, After;
    Begins([], 0, m);
    assert [] + [Begin(0, m)] == [Begin(0, m)];
    AloneInRun([Begin(0, m)], 0, 1);
    OneStep(Empty().repo, 0, m, CheckMarker(false));
    WellFormedPubs(After([Begin(0, m)] + Steps(0, 1)));
    Last([Begin(0, m)] + Steps(0, 1), Publish(0, Bad(true), Staged(ManifestFile)));
  }

  // ---------- every other history recovers ----------

  lemma {:induction false} FreshAttempt(used: set<nat>) returns (a: nat)
    ensures forall x :: x in used ==> x < a
    decreases |used|
  {
    a := 0;
    if used != {} {
      var x :| x in used;
      a := FreshAttempt(used - {x});
      assert forall y :: y in used ==> y == x || y in used - {x};
      a := if x < a then a else x + 1;
    }
  }

  /** Where no claim is held a new attempt can publish. */
  lemma FreePublishes(events: seq<Event>) returns (more: seq<Event>)
    requires After(events).repo.claim.None? && After(events).repo.marker.None?
    ensures After(events + more).repo.marker.Some?
  {
    var a := FreshAttempt(After(events).pubs.Keys);
    var m := Manifest([], map[]);
    var n := PublishesAlone(events, a, m);
    more := [Begin(a, m)] + Steps(a, n);
    assert events + more == events + [Begin(a, m)] + Steps(a, n);
  }

  /** The holder of the claim, by where it is. */
  lemma Holder(w: World, a: nat)
    requires Inv(w) && a in w.pubs && Owning(w.pubs[a].pc) && w.repo.marker.None?
    ensures var m, r := w.pubs[a].manifest, w.repo;
            WellFormed(m) && r.claim == Some(Claim(a, m)) && Progress(r, a, m, w.pubs[a].pc)
  {
    assert PubOk(w.repo, a, w.pubs[a]);
  }

  lemma MarksAlone(r: Repo, a: nat, m: Manifest, pc: Pc) returns (n: nat, r': Repo)
    requires WellFormed(m) && r.claim == Some(Claim(a, m)) && r.marker.None? && (pc.VerifyAgain? || pc.PutMarker?)
    ensures Alone(r, a, m, pc, n) == (r', Done(true)) && r'.marker.Some?
  {
    n, r' := 1, r.(marker := Some(Claim(a, m)));
    OneStep(r, a, m, PutMarker);
    if pc.VerifyAgain? {
      OneStep(r, a, m, VerifyAgain);
      AloneMore(r, a, m, VerifyAgain, 1, 1);
      n := 2;
    }
  }

  lemma ForwardAlone(r: Repo, a: nat, m: Manifest, pc: Pc) returns (n: nat, r': Repo)
    requires WellFormed(m) && r.claim == Some(Claim(a, m)) && r.marker.None? && Progress(r, a, m, pc)
    requires pc.Stage? || pc.Verify? || pc.Copy? || pc.VerifyAgain? || pc.PutMarker?
    ensures Alone(r, a, m, pc, n) == (r', Done(true)) && r'.marker.Some?
  {
    hide Alone, StagedTo, CopiedTo, Effect, OnGood;
    var k, mid := 0, r;
    if pc.Stage? {
      k, mid := StagesAlone(r, a, m, pc.i);
      n, r' := FinishesAlone(mid, a, m);
      AloneMore(r, a, m, pc, k, n);
    } else if pc.Verify? {
      n, r' := FinishesAlone(r, a, m);
    } else if pc.Copy? {
      k, mid := CopiesAlone(r, a, m, pc.i);
      n, r' := MarksAlone(mid, a, m, VerifyAgain);
      AloneMore(r, a, m, pc, k, n);
    } else {
      n, r' := MarksAlone(r, a, m, pc);
    }
    n := k + n;
  }

  lemma ForwardPublishes(events: seq<Event>, a: nat) returns (more: seq<Event>)
    requires a in After(events).pubs && After(events).repo.marker.None?
    requires var pc := After(events).pubs[a].pc; pc.Stage? || pc.Verify? || pc.Copy? || pc.VerifyAgain? || pc.PutMarker?
    ensures After(events + more).repo.marker.Some?
  {
    hide Inv, After, Alone, Progress;
    var w := After(events);
    Holder(w, a);
    var n, r' := ForwardAlone(w.repo, a, w.pubs[a].manifest, w.pubs[a].pc);
    AloneInRun(events, a, n);
    more := Steps(a, n);
  }

  /** A cleanup that has deleted everything releases the claim. */
  lemma Releases(events: seq<Event>, a: nat) returns (more: seq<Event>)
    requires a in After(events).pubs && After(events).pubs[a].pc == CleanVerifyAgain && After(events).repo.marker.None?
    ensures After(events + more).repo.claim.None? && After(events + more).repo.marker.None?
  {
    hide Inv, After, Progress;
    var e := Publish(a, Good, Staged(ManifestFile));
    Holder(After(events), a);
    OneGood(events, a, e.pick);
    OneGood(events + [e], a, e.pick);
    more := [e] + [e];
    assert events + more == events + [e] + [e];
  }

  lemma CleanNext(events: seq<Event>, a: nat, gone: set<Target>, t: Target)
    requires a in After(events).pubs && After(events).pubs[a].pc == Clean(gone) && After(events).repo.marker.None?
    requires t in Targets(After(events).pubs[a].manifest)
    ensures var m, w' := After(events).pubs[a].manifest, After(events + [Publish(a, Good, t)]);
            && a in w'.pubs && w'.pubs[a].manifest == m && w'.repo.marker.None?
            && w'.pubs[a].pc == if Targets(m) <= gone + {t} then CleanVerifyAgain else Clean(gone + {t})
  {
    hide Inv, After, Targets;
    OneGood(events, a, t);
  }

  lemma NextTarget(m: Manifest, gone: set<Target>) returns (t: Target)
    ensures t in Targets(m)
    ensures Targets(m) <= gone + {t} || |Targets(m) - (gone + {t})| < |Targets(m) - gone|
  {
    t := Staged(ManifestFile);
    assert t.name in Names(m);
    if x :| x in Targets(m) - gone {
      t := x;
      assert x !in Targets(m) - (gone + {x});
      Smaller(Targets(m) - (gone + {x}), Targets(m) - gone);
    }
  }

  /** A cleanup left alone deletes what is left, and releases the claim. */
  lemma {:induction false} Drains(events: seq<Event>, a: nat, m: Manifest, gone: set<Target>) returns (more: seq<Event>)
    requires a in After(events).pubs && After(events).pubs[a] == Publisher(m, Clean(gone))
    requires After(events).repo.marker.None?
    ensures After(events + more).repo.claim.None? && After(events + more).repo.marker.None?
    decreases |Targets(m) - gone|
  {
    hide Inv, After, Targets;
    var t := NextTarget(m, gone);
    CleanNext(events, a, gone, t);
    var next := events + [Publish(a, Good, t)];
    if Targets(m) <= gone + {t} {
      more := Releases(next, a);
    } else {
      more := Drains(next, a, m, gone + {t});
    }
    Joined(events, Publish(a, Good, t), more);
    more := [Publish(a, Good, t)] + more;
  }

  lemma Joined(events: seq<Event>, e: Event, more: seq<Event>)
    ensures events + ([e] + more) == events + [e] + more
  {
  }

  lemma Smaller(s: set<Target>, t: set<Target>)
    requires s < t
    ensures |s| < |t|
  {
    var x :| x in t && x !in s;
    assert s <= t - {x};
    NotLarger(s, t - {x});
  }

  lemma {:induction false} NotLarger(s: set<Target>, t: set<Target>)
    requires s <= t
    ensures |s| <= |t|
    decreases s
  {
    if x :| x in s {
      NotLarger(s - {x}, t - {x});
    }
  }

  /** A holder that is cleaning up releases the claim. */
  lemma CleanupReleases(events: seq<Event>, a: nat) returns (more: seq<Event>)
    requires a in After(events).pubs && After(events).repo.marker.None?
    requires var pc := After(events).pubs[a].pc;
             pc.ReadMarker? || pc.CleanVerify? || pc.Clean? || pc.CleanVerifyAgain? || pc.CleanClaim?
    ensures After(events + more).repo.claim.None? && After(events + more).repo.marker.None?
  {
    hide Inv, After, Progress;
    var pc := After(events).pubs[a].pc;
    var e := Publish(a, Good, Staged(ManifestFile));
    Holder(After(events), a);
    if pc.Clean? {
      more := Drains(events, a, After(events).pubs[a].manifest, pc.gone);
    } else if pc.CleanVerifyAgain? {
      more := Releases(events, a);
    } else {
      OneGood(events, a, e.pick);
      if pc.CleanClaim? {
        more := [e];
      } else if pc.CleanVerify? {
        more := Drains(events + [e], a, After(events).pubs[a].manifest, {});
        assert events + ([e] + more) == events + [e] + more;
        more := [e] + more;
      } else {
        Holder(After(events + [e]), a);
        OneGood(events + [e], a, e.pick);
        more := Drains(events + [e] + [e], a, After(events).pubs[a].manifest, {});
        assert events + ([e] + [e] + more) == events + [e] + [e] + more;
        more := [e] + [e] + more;
      }
    }
  }

  lemma {:induction false} Recovers(events: seq<Event>) returns (more: seq<Event>)
    requires !Abandoned(After(events))
    ensures After(events + more).repo.marker.Some?
  {
    hide Inv, After;
    var w := After(events);
    if w.repo.marker.Some? {
      more := [];
      assert events + more == events;
    } else if w.repo.claim.None? {
      more := FreePublishes(events);
    } else {
      var a := w.repo.claim.value.attempt;
      HolderOwns(w);
      var pc := w.pubs[a].pc;
      if pc.Stage? || pc.Verify? || pc.Copy? || pc.VerifyAgain? || pc.PutMarker? {
        more := ForwardPublishes(events, a);
      } else {
        var freed := CleanupReleases(events, a);
        more := FreePublishes(events + freed);
        assert events + (freed + more) == events + freed + more;
        more := freed + more;
      }
    }
  }

  lemma HolderOwns(w: World)
    requires Inv(w) && !Abandoned(w) && w.repo.marker.None? && w.repo.claim.Some?
    ensures var a := w.repo.claim.value.attempt;
            a in w.pubs && Owning(w.pubs[a].pc) && !w.pubs[a].pc.RereadClaim? && !w.pubs[a].pc.RereadManifest?
  {
    assert PubOk(w.repo, w.repo.claim.value.attempt, w.pubs[w.repo.claim.value.attempt]);
  }

  /** After any history of publishers, faults, crashes and janitors, the backup is published or can
      still be if and only if its claim is not held by an attempt that has ended without a
      marker. */
  lemma {:induction false} PublishableIff(events: seq<Event>)
    ensures (exists more :: After(events + more).repo.marker.Some?) <==> !Abandoned(After(events))
  {
    hide Inv, After;
    if Abandoned(After(events)) {
      forall more ensures After(events + more).repo.marker.None? {
        AbandonedForever(events, more);
      }
    } else {
      var more := Recovers(events);
    }
  }
}
