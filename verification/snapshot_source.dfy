/** Lock, snapshot, release, clone
    (internal/bucketstorage/snapshotsource.go), step by step against a world in
    which every step can fail. Each method is proved to make exactly the calls
    of SnapshotCalls; what those add up to is proved there. */
module SnapshotSource {
  import opened Outcome
  import opened SnapshotCalls
  import opened SnapshotWorld

  const NOT_ASKED := CutAnswers(false, false, Refused, false, Refused, false)

  ghost predicate IsCut(w: World, name: string)
    reads w
  {
    name in w.snapshots && w.snapshots[name].cut
  }

  /** The new snapshot is cut, and the database was locked when that happened. */
  ghost predicate CutUnderLock(w: World, name: string)
    reads w
  {
    && IsCut(w, name)
    && (w.kind.SessionKind? || w.kind.PairKind? ==> w.snapshots[name].locked)
    && (w.kind.PairKind? ==> w.leaked == 0 && w.count == 0)
  }

  predicate Seen(a: CutAnswers) { a.created == Done && a.cut }

  /** The calls from the creation to the explicit release. */
  function BodyCalls(req: Request, a: CutAnswers): seq<Call> {
    MadeCalls(req, a) + (if Seen(a) && !req.flush.NoFlush? then [Release(a.released)] else [])
  }

  lemma BodyIs(req: Request, a: CutAnswers, log: seq<Call>)
    ensures var create := Create(NewSnapshot(req), !req.keepSnapshot, a.created);
            var cut := WaitCut(NewSnapshot(req), a.cut);
            log + BodyCalls(req, a) ==
            if a.created != Done then log + [create]
            else if !a.cut then log + [create] + [cut] + [DeleteSnapshot(NewSnapshot(req), a.uncutGone)]
            else if req.flush.NoFlush? then log + [create] + [cut]
            else log + [create] + [cut] + [Release(a.released)]
  {}

  lemma BodySame(req: Request, a: CutAnswers, b: CutAnswers)
    requires b == a.(quiesced := b.quiesced, released := b.released)
    requires Seen(a) && !req.flush.NoFlush? ==> b.released == a.released
    ensures BodyCalls(req, a) == BodyCalls(req, b)
  {}

  lemma CutIs(req: Request, a: CutAnswers, log: seq<Call>)
    requires req.flush.NoFlush? || a.quiesced
    ensures log + CutCalls(req, a) ==
            if req.flush.NoFlush? then log + [] + BodyCalls(req, a)
            else if Seen(a) then log + [Quiesce(true)] + BodyCalls(req, a)
            else log + [Quiesce(true)] + BodyCalls(req, a) + [Release(a.released)]
  {
    var made := MadeCalls(req, a);
    assert !req.flush.NoFlush? ==> CutCalls(req, a) == [Quiesce(true)] + made + [Release(a.released)];
  }

  /** From the creation to the explicit release, with the deletion deferred for
      a snapshot that never cut. */
  method CreateAndCut(w: World, req: Request, unlock: Unlocker, password: Option<string>, timeout: nat)
    returns (ok: bool, ghost a: CutAnswers)
    requires w.Valid() && w.kind == req.flush && !unlock.released && w.Protected()
    requires w.before == w.snapshots.Keys && (w.kind.SessionKind? ==> w.session != null)
    modifies w, w.session, unlock
    ensures w.Valid() && w.session == old(w.session) && w.claims == old(w.claims)
    ensures w.log == old(w.log) + BodyCalls(req, a)
    ensures a.created != Refused ==> NewSnapshot(req) !in old(w.snapshots)
    ensures unlock.released == (Seen(a) && !req.flush.NoFlush?)
    ensures unlock.released && w.kind.SessionKind? ==> w.session.phase.Reported?
    ensures ok == (Seen(a) && (req.flush.NoFlush? || a.released))
    ensures Seen(a) ==> IsCut(w, NewSnapshot(req))
    ensures ok ==> CutUnderLock(w, NewSnapshot(req))
  {
    var name := NewSnapshot(req);
    var answer := w.Create(name, !req.keepSnapshot);
    a := NOT_ASKED.(created := answer);
    if answer != Done {
      BodyIs(req, a, old(w.log));
      return false, a;
    }
    var cut := w.WaitForCut(name, timeout);
    a := a.(cut := cut);
    ok, a := SettleCut(w, req, unlock, password, cut, a);
    BodyIs(req, a, old(w.log));
  }

  /** What follows the wait: the release if the snapshot cut, its deletion if
      not. A failed release says nothing about the snapshot. */
  method SettleCut(w: World, req: Request, unlock: Unlocker, password: Option<string>, cut: bool,
                   ghost asked: CutAnswers)
    returns (ok: bool, ghost a: CutAnswers)
    requires w.Valid() && w.kind == req.flush && !unlock.released && w.Protected()
    requires w.kind.SessionKind? ==> w.session != null
    requires asked.cut == cut && NewSnapshot(req) !in w.before
    requires cut ==> IsCut(w, NewSnapshot(req))
    modifies w, w.session, unlock
    ensures w.Valid() && w.session == old(w.session) && w.claims == old(w.claims)
    ensures a == asked.(released := a.released, uncutGone := a.uncutGone)
    ensures w.log == old(w.log) + (if !cut then [DeleteSnapshot(NewSnapshot(req), a.uncutGone)]
                                   else if req.flush.NoFlush? then [] else [Release(a.released)])
    ensures unlock.released == (cut && !req.flush.NoFlush?)
    ensures unlock.released && w.kind.SessionKind? ==> w.session.phase.Reported?
    ensures ok == (cut && (req.flush.NoFlush? || a.released))
    ensures cut ==> IsCut(w, NewSnapshot(req))
    ensures ok ==> CutUnderLock(w, NewSnapshot(req))
  {
    a := asked;
    if !cut {
      var gone := w.DeleteSnapshot(NewSnapshot(req));
      return false, a.(uncutGone := gone);
    }
    ok := w.Unlock(unlock, password);
    a := a.(released := ok);
  }

  /** A snapshot cut between quiesce and release. Whatever goes wrong behind the
      quiesce, the deferred unlock still runs. */
  method CutSnapshot(w: World, req: Request, password: Option<string>, deadline: nat, timeout: nat)
    returns (ok: bool, ghost a: CutAnswers)
    requires w.Valid() && w.kind == req.flush
    modifies w, w.session
    ensures w.Valid() && (w.session == old(w.session) || fresh(w.session)) && w.claims == old(w.claims)
    ensures w.log == old(w.log) + CutCalls(req, a) && ok == CutOk(req, a)
    ensures Seen(a) && (req.flush.NoFlush? || a.quiesced) ==> IsCut(w, NewSnapshot(req))
    ensures a.created != Refused ==> NewSnapshot(req) !in old(w.snapshots)
    ensures ok ==> CutUnderLock(w, NewSnapshot(req))
    ensures w.session != old(w.session) ==> w.session != null && w.session.phase.Reported?
  {
    var quiesced := w.Quiesce(password, deadline);
    if quiesced.None? {
      return false, NOT_ASKED;
    }
    var unlock := quiesced.value;
    ghost var start, body := w.log, NOT_ASKED;
    ok, body := CreateAndCut(w, req, unlock, password, timeout);
    ghost var early := unlock.released;
    var unlocked := w.Unlock(unlock, password);
    a := body.(quiesced := true, released := if early then body.released else unlocked);
    BodySame(req, body, a);
    assert w.log == start + BodyCalls(req, a) + (if early || req.flush.NoFlush? then [] else [Release(a.released)]);
    if !unlocked && ok {
      ok := false;
    }
    CutIs(req, a, old(w.log));
  }

  /** The snapshot the clone reads, and whether it is this run's own. The class
      is looked up first, so that a wrong one costs the database nothing. */
  method EnsureSnapshot(w: World, req: Request, password: Option<string>, deadline: nat, timeout: nat)
    returns (ok: bool, name: string, created: bool, ghost a: CutAnswers)
    requires w.Valid() && w.kind == req.flush
    modifies w, w.session
    ensures w.Valid() && (w.session == old(w.session) || fresh(w.session)) && w.claims == old(w.claims)
    ensures w.log == old(w.log) + EnsureCalls(req, a) && ok == EnsureOk(req, a)
    ensures a.created != Refused ==> NewSnapshot(req) !in old(w.snapshots)
    ensures EnsuredCut(req, a) ==> IsCut(w, NewSnapshot(req))
    ensures ok ==> name == SnapshotName(req) && created == req.fromSnapshot.None?
    ensures ok && req.fromSnapshot.Some? ==> name == req.fromSnapshot.value
    ensures ok && created ==> CutUnderLock(w, name) && name !in old(w.snapshots)
  {
    if req.fromSnapshot.Some? {
      a := NOT_ASKED;
      assert w.log == old(w.log) + [];
      return true, req.fromSnapshot.value, false, a;
    }
    name, created := NewSnapshot(req), true;
    var checked := w.CheckClass();
    if !checked {
      return false, name, false, NOT_ASKED;
    }
    ghost var asked;
    ok, asked := CutSnapshot(w, req, password, deadline, timeout);
    a := asked.(checked := true);
    CheckedIs(req, asked, a, old(w.log));
  }

  lemma CheckedIs(req: Request, a: CutAnswers, b: CutAnswers, log: seq<Call>)
    requires b == a.(checked := true) && req.fromSnapshot.None?
    ensures log + [CheckClass(true)] + CutCalls(req, a) == log + EnsureCalls(req, b)
    ensures CutOk(req, a) == EnsureOk(req, b)
  {
    PartsOf(log, [CheckClass(true)], CutCalls(req, a));
  }

  /** The clone itself: made, and then read back. */
  method CloneSnapshot(w: World, claim: string, snapshot: string)
    returns (ok: bool, created: bool, ghost cloned: Answer)
    requires w.Valid()
    modifies w, w.session
    ensures w.Valid() && w.session == old(w.session) && w.CutsKept()
    ensures cloned != Refused ==> claim !in old(w.claims)
    ensures created == (cloned == Done) && (ok ==> created)
    ensures created ==> claim in w.claims && w.claims[claim] == CloneOf(snapshot)
    ensures w.snapshots.Keys == old(w.snapshots.Keys)
    ensures w.log == old(w.log) + ([Clone(claim, snapshot, cloned)] + (if created then [Lookup(claim, ok)] else []))
  {
    var answer := w.Clone(claim, snapshot);
    cloned := answer;
    ok, created := false, false;
    if answer == Done {
      ok := w.Lookup(claim);
      created := true;
    }
  }

  /** Takes back what a failed preparation made, going on to the snapshot even
      if the claim stays. */
  method RollbackSnapshotSource(w: World, req: Request, snapshot: string, cloneCreated: bool)
    returns (ghost claimGone: Answer, ghost snapshotGone: Answer)
    requires w.Valid() && snapshot == SnapshotName(req)
    modifies w, w.session
    ensures w.Valid() && w.session == old(w.session) && w.CutsKept()
    ensures w.log == old(w.log) + RollbackLog(req, cloneCreated, claimGone, snapshotGone)
  {
    claimGone, snapshotGone := Refused, Refused;
    if cloneCreated {
      var answer := w.DeleteClaim(CloneName(req));
      claimGone := answer;
    }
    ghost var log := w.log;
    assert log == old(w.log) + (if cloneCreated then [DeleteClaim(CloneName(req), claimGone)] else []);
    if RemovesSnapshot(req) {
      var answer := w.DeleteSnapshot(snapshot);
      snapshotGone := answer;
    }
    assert w.log == log + (if RemovesSnapshot(req) then [DeleteSnapshot(SnapshotName(req), snapshotGone)] else []);
  }

  function RollbackLog(req: Request, cloneCreated: bool, claimGone: Answer, snapshotGone: Answer): seq<Call> {
    Rollback(req, cloneCreated, CloneAnswers(false, Refused, false, claimGone, snapshotGone))
  }

  /** The calls of the clone's part, in the order they are made. */
  lemma CloneIs(req: Request, a: CloneAnswers, log: seq<Call>)
    ensures var ready := WaitReady(SnapshotName(req), a.ready);
            var clone := [Clone(CloneName(req), SnapshotName(req), a.cloned)];
            log + CloneCalls(req, a) ==
            if !a.ready then log + [ready] + Rollback(req, false, a)
            else if CloneOk(a) then log + [ready] + (clone + [Lookup(CloneName(req), true)])
            else if a.cloned == Done then
              log + [ready] + (clone + [Lookup(CloneName(req), false)]) + Rollback(req, true, a)
            else log + [ready] + (clone + []) + Rollback(req, false, a)
  {}

  /** Waits until the snapshot can be cloned, and clones it. A failure here takes
      back what the run has made. */
  method ProvisionClone(w: World, req: Request, snapshot: string, timeout: nat)
    returns (ok: bool, ghost a: CloneAnswers)
    requires w.Valid() && snapshot == SnapshotName(req)
    modifies w, w.session
    ensures w.Valid() && w.session == old(w.session) && w.CutsKept()
    ensures w.log == old(w.log) + CloneCalls(req, a) && ok == CloneOk(a)
    ensures a.cloned != Refused ==> CloneName(req) !in old(w.claims)
    ensures ok ==> CloneName(req) in w.claims && w.claims[CloneName(req)] == CloneOf(snapshot)
    ensures ok ==> w.snapshots.Keys == old(w.snapshots.Keys)
  {
    var ready := w.WaitReady(snapshot, timeout);
    var cloneCreated := false;
    ok := false;
    ghost var cloned, claimGone, snapshotGone := Refused, Refused, Refused;
    if ready {
      ok, cloneCreated, cloned := CloneSnapshot(w, CloneName(req), snapshot);
    }
    if !ok {
      claimGone, snapshotGone := RollbackSnapshotSource(w, req, snapshot, cloneCreated);
    }
    a := CloneAnswers(ready, cloned, ok, claimGone, snapshotGone);
    CloneIs(req, a, old(w.log));
  }

  /** The new snapshot, as long as it exists, is the one that was cut, and cut
      under the lock if the run could go on. */
  ghost predicate StillAsCut(w: World, req: Request, a: CutAnswers)
    reads w
  {
    EnsuredCut(req, a) && NewSnapshot(req) in w.snapshots ==>
      var snap := w.snapshots[NewSnapshot(req)];
      snap.cut && (EnsureOk(req, a) && (w.kind.SessionKind? || w.kind.PairKind?) ==> snap.locked)
  }

  /** The claim reads the snapshot the user named, or one that was not there
      before and was cut under the lock. */
  ghost predicate ReadsSource(w: World, req: Request, claim: string, before: set<string>)
    reads w
  {
    claim in w.claims && w.claims[claim].from.Some? &&
    var from := w.claims[claim].from.value;
    match req.fromSnapshot
    case Some(name) => from == name
    case None =>
      from !in before && IsCut(w, from) && (w.kind.SessionKind? || w.kind.PairKind? ==> w.snapshots[from].locked)
  }

  /** The whole preparation of a snapshot-backed run. */
  method PrepareSnapshotSource(w: World, req: Request, password: Option<string>, deadline: nat, timeout: nat)
    returns (ok: bool, ghost a: Answers)
    requires w.Valid() && w.kind == req.flush
    modifies w, w.session
    ensures w.Valid() && (w.session == old(w.session) || fresh(w.session))
    ensures w.log == old(w.log) + PrepareCalls(req, a) && ok == PrepareOk(req, a)
    ensures Consistent(req, a, old(w.Existing()))
    ensures StillAsCut(w, req, a.cutting)
    ensures ok ==> ReadsSource(w, req, CloneName(req), old(w.snapshots).Keys)
  {
    var name, created;
    ghost var cutting, cloning, log := NOT_ASKED, CloneAnswers(false, Refused, false, Refused, Refused), w.log;
    ok, name, created, cutting := EnsureSnapshot(w, req, password, deadline, timeout);
    if ok {
      ok, cloning := ProvisionClone(w, req, name, timeout);
    }
    a := Answers(cutting, cloning, false);
    PrepareIs(req, a, log);
  }

  lemma PrepareIs(req: Request, a: Answers, log: seq<Call>)
    ensures log + PrepareCalls(req, a) ==
            if EnsureOk(req, a.cutting) then log + EnsureCalls(req, a.cutting) + CloneCalls(req, a.cloning)
            else log + EnsureCalls(req, a.cutting)
  {
    PartsOf(log, EnsureCalls(req, a.cutting), CloneCalls(req, a.cloning));
  }

  lemma PartsOf(log: seq<Call>, a: seq<Call>, b: seq<Call>)
    ensures log + (a + b) == log + a + b && a + [] == a
  {}

  /** Deletes the clone, then the snapshot; a claim that stays keeps its
      snapshot. */
  method RemoveSnapshotSource(w: World, req: Request)
    returns (ok: bool, ghost claimGone: Answer, ghost snapshotGone: Answer)
    requires w.Valid()
    modifies w, w.session
    ensures w.Valid() && w.session == old(w.session) && w.CutsKept()
    ensures w.log == old(w.log) + TeardownCalls(req.(detach := false, noCleanup := false), false,
                                                CloneAnswers(true, Done, true, claimGone, snapshotGone))
  {
    var answer := w.DeleteClaim(CloneName(req));
    claimGone, snapshotGone := answer, Refused;
    ghost var log := w.log;
    ok := answer == Done;
    if ok && RemovesSnapshot(req) {
      answer := w.DeleteSnapshot(SnapshotName(req));
      snapshotGone, ok := answer, answer == Done;
    }
    assert old(w.log) + ([DeleteClaim(CloneName(req), claimGone)] + [DeleteSnapshot(SnapshotName(req), snapshotGone)])
        == old(w.log) + [DeleteClaim(CloneName(req), claimGone)] + [DeleteSnapshot(SnapshotName(req), snapshotGone)];
    assert [DeleteClaim(CloneName(req), claimGone)] + [] == [DeleteClaim(CloneName(req), claimGone)];
  }

  /** The teardown at the end of a backup, unless things are to stay. */
  method ReleaseSnapshotSource(w: World, req: Request, failed: bool)
    returns (ghost claimGone: Answer, ghost snapshotGone: Answer)
    requires w.Valid()
    modifies w, w.session
    ensures w.Valid() && w.session == old(w.session) && w.CutsKept()
    ensures w.log == old(w.log) + TeardownCalls(req, failed, CloneAnswers(true, Done, true, claimGone, snapshotGone))
  {
    claimGone, snapshotGone := Refused, Refused;
    if req.detach || req.noCleanup || (failed && req.noCleanupOnFailure) {
      assert w.log == old(w.log) + [];
      return;
    }
    var removed;
    removed, claimGone, snapshotGone := RemoveSnapshotSource(w, req);
  }

  /** A clone of what the user named, or of what the calls created and saw cut. */
  predicate ClonedFrom(req: Request, calls: seq<Call>, clone: Volume) {
    clone.from.Some? &&
    match req.fromSnapshot
    case Some(name) => clone.from.value == name
    case None =>
      Create(clone.from.value, !req.keepSnapshot, Done) in calls && WaitCut(clone.from.value, true) in calls
  }

  /** What is left of a run's clone is what its calls cloned. */
  lemma CloneComesFrom(req: Request, a: Answers, o: Objects)
    requires Consistent(req, a, o)
    ensures var now := Account(req, RunCalls(req, a), o);
            CloneName(req) in now.claims && CloneName(req) !in o.claims ==>
              ClonedFrom(req, RunCalls(req, a), now.claims[CloneName(req)])
  {
    var calls := RunCalls(req, a);
    CallsAreOfTheRun(req, a);
    if MakesClaim(calls) {
      var i :| 0 <= i < |calls| && calls[i].Clone?;
      assert calls[i] in calls && calls[i].snapshot == SnapshotName(req);
      if req.fromSnapshot.Some? {
        GivenSnapshotIsCloned(req, a, req.fromSnapshot.value);
      } else {
        NewSnapshotIsCloned(req, a);
      }
    }
  }

  lemma RunIs(req: Request, a: Answers, b: Answers, log: seq<Call>)
    requires PrepareOk(req, a) && b.cutting == a.cutting
    requires b.cloning == a.cloning.(cloneGone := b.cloning.cloneGone, snapshotGone := b.cloning.snapshotGone)
    ensures log + PrepareCalls(req, a) + TeardownCalls(req, !b.backedUp, b.cloning) == log + RunCalls(req, b)
  {
    assert PrepareCalls(req, a) == PrepareCalls(req, b);
  }

  /** A run from start to end: prepare the clone, back it up, tear down. What is
      left of it in the cluster is what SnapshotCalls says: a snapshot a wait saw
      cut was cut while the database was locked, and one that is not cut is
      there because its creation or its deletion was misreported or refused. */
  method Run(w: World, req: Request, password: Option<string>, deadline: nat, timeout: nat)
    returns (ok: bool, ghost a: Answers)
    requires w.Valid() && w.kind == req.flush
    modifies w, w.session
    ensures w.Valid() && (w.session == old(w.session) || fresh(w.session))
    ensures w.log == old(w.log) + RunCalls(req, a) && ok == (PrepareOk(req, a) && a.backedUp)
    ensures Consistent(req, a, old(w.Existing()))
    ensures w.Existing() == Account(req, RunCalls(req, a), old(w.Existing()))
    ensures DeletionsWork(RunCalls(req, a)) ==> w.Existing() == Leftover(req, a, old(w.Existing()))
    ensures StillAsCut(w, req, a.cutting)
    ensures CloneName(req) in w.claims && CloneName(req) !in old(w.claims) ==>
              ClonedFrom(req, RunCalls(req, a), w.claims[CloneName(req)])
    ensures NewSnapshot(req) in w.snapshots && NewSnapshot(req) !in old(w.snapshots) &&
            !w.snapshots[NewSnapshot(req)].cut ==>
              || Create(NewSnapshot(req), !req.keepSnapshot, Lost) in RunCalls(req, a)
              || DeleteSnapshot(NewSnapshot(req), Refused) in RunCalls(req, a)
  {
    ghost var log, prepared := w.log, w.Existing();
    ok, a := PrepareSnapshotSource(w, req, password, deadline, timeout);
    if ok {
      ghost var first := a;
      w.Pass();
      ok := *;
      ghost var claimGone, snapshotGone := ReleaseSnapshotSource(w, req, !ok);
      a := first.(cloning := first.cloning.(cloneGone := claimGone, snapshotGone := snapshotGone), backedUp := ok);
      TeardownSame(req, !ok, a.cloning);
      RunIs(req, first, a, log);
    } else {
      assert PrepareCalls(req, a) + [] == PrepareCalls(req, a);
    }
    RunReplays(w, req, a, log);
    RunComesTo(req, a, prepared, w.Existing());
    CloneComesFrom(req, a, prepared);
  }

  /** What a run leaves, read off its calls. */
  lemma RunComesTo(req: Request, a: Answers, o: Objects, now: Objects)
    requires Consistent(req, a, o) && now == Replay(o, RunCalls(req, a))
    ensures now == Account(req, RunCalls(req, a), o)
    ensures DeletionsWork(RunCalls(req, a)) ==> now == Leftover(req, a, o)
    ensures NewSnapshot(req) in now.snapshots && NewSnapshot(req) !in o.snapshots && !EnsuredCut(req, a.cutting) ==>
              || Create(NewSnapshot(req), !req.keepSnapshot, Lost) in RunCalls(req, a)
              || DeleteSnapshot(NewSnapshot(req), Refused) in RunCalls(req, a)
  {
    RunIsAccountedFor(req, a, o);
    UncutSurvives(req, a, o);
    CutIsEarly(req, a);
    if DeletionsWork(RunCalls(req, a)) {
      LeftoversAreExact(req, a, o);
    }
  }

  lemma TeardownSame(req: Request, failed: bool, a: CloneAnswers)
    ensures TeardownCalls(req, failed, a) ==
            TeardownCalls(req, failed, CloneAnswers(true, Done, true, a.cloneGone, a.snapshotGone))
  {}

  lemma RunReplays(w: World, req: Request, a: Answers, log: seq<Call>)
    requires w.Valid() && w.log == log + RunCalls(req, a)
    ensures w.Existing() == Replay(Replay(w.start, log), RunCalls(req, a))
  {
    ReplayAppend(w.start, log, RunCalls(req, a));
  }

  /** What pv-migrate cleanup does about a run's claims and snapshots: finds them
      by their label and deletes them, claims first. */
  method DeleteLabeled(w: World) returns (ok: bool, removed: seq<string>)
    requires w.Valid()
    modifies w, w.session
    ensures w.Valid() && w.session == old(w.session)
    ensures ok ==> w.Existing() == CleanedUp(old(w.Existing()))
  {
    removed := [];
    ghost var was := w.Existing();
    var listed: bool := *;
    if !listed {
      return false, removed;
    }
    var todo := set c | c in w.claims && w.claims[c].instance;
    ghost var gone := {};
    assert was.claims - {} == was.claims;
    while todo != {}
      invariant w.Valid() && w.session == old(w.session)
      invariant w.Existing() == Objects(was.snapshots, was.claims - gone)
      invariant gone + todo == set c | c in was.claims && was.claims[c].instance
      decreases todo
    {
      var claim :| claim in todo;
      ghost var log := w.log;
      var answer := w.DeleteClaim(claim);
      Noted(w.start, log, DeleteClaim(claim, answer));
      if answer != Done {
        return false, removed;
      }
      removed := removed + [claim];
      assert was.claims - gone - {claim} == was.claims - (gone + {claim});
      gone, todo := gone + {claim}, todo - {claim};
    }
    listed := *;
    if !listed {
      return false, removed;
    }
    ok, removed := DeleteLabeledSnapshots(w, removed);
    assert was.claims - gone == CleanedUp(was).claims;
  }

  method DeleteLabeledSnapshots(w: World, before: seq<string>) returns (ok: bool, removed: seq<string>)
    requires w.Valid()
    modifies w, w.session
    ensures w.Valid() && w.session == old(w.session)
    ensures ok ==> w.Existing() == old(w.Existing()).(snapshots := CleanedUp(old(w.Existing())).snapshots)
  {
    removed := before;
    ghost var was := w.Existing();
    var todo := set s | s in w.snapshots && w.snapshots[s].instance;
    ghost var gone := {};
    assert was.snapshots - {} == was.snapshots;
    while todo != {}
      invariant w.Valid() && w.session == old(w.session)
      invariant w.Existing() == Objects(was.snapshots - gone, was.claims)
      invariant gone + todo == set s | s in was.snapshots && was.snapshots[s]
      decreases todo
    {
      var name :| name in todo;
      ghost var log := w.log;
      var answer := w.DeleteSnapshot(name);
      Noted(w.start, log, DeleteSnapshot(name, answer));
      if answer != Done {
        return false, removed;
      }
      removed := removed + [name];
      assert was.snapshots - gone - {name} == was.snapshots - (gone + {name});
      gone, todo := gone + {name}, todo - {name};
    }
    ok := true;
    assert was.snapshots - gone == CleanedUp(was).snapshots;
  }
}
