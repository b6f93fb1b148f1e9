/** What a snapshot-backed run asks of the cluster and the database, in order
    (internal/bucketstorage/snapshotsource.go), for every way the calls can be
    answered, and what those calls leave behind. */
module SnapshotCalls {
  import opened Outcome

  /** Which kind of quiesce --flush asks for. */
  datatype Flush = NoFlush | SessionKind | OneShotKind | PairKind

  datatype Request = Request(
    flush: Flush,
    fromSnapshot: Option<string>,
    keepSnapshot: bool,
    detach: bool,
    noCleanup: bool,
    noCleanupOnFailure: bool,
    release: string
  )

  const SNAPSHOT_SUFFIX := "-snap"
  const CLONE_SUFFIX := "-clone"

  function NewSnapshot(req: Request): string { req.release + SNAPSHOT_SUFFIX }

  function CloneName(req: Request): string { req.release + CLONE_SUFFIX }

  function SnapshotName(req: Request): string {
    match req.fromSnapshot
    case None => NewSnapshot(req)
    case Some(name) => name
  }

  /** How a change to the cluster was answered. Lost is an error reported for a
      change that was made all the same. */
  datatype Answer = Done | Refused | Lost

  datatype Call =
    | CheckClass(ok: bool)
    | Quiesce(ok: bool)
    | Create(snapshot: string, instance: bool, answer: Answer)
    | WaitCut(snapshot: string, ok: bool)
    | Release(ok: bool)
    | WaitReady(snapshot: string, ok: bool)
    | Clone(claim: string, snapshot: string, answer: Answer)
    | Lookup(claim: string, ok: bool)
    | DeleteClaim(claim: string, answer: Answer)
    | DeleteSnapshot(snapshot: string, answer: Answer)

  /** The answers of one run, each looked at only if the call is made: up to the
      cut, from there to the end, and whether the backup in between succeeded. */
  datatype CutAnswers = CutAnswers(
    checked: bool, quiesced: bool, created: Answer, cut: bool, uncutGone: Answer, released: bool
  )

  datatype CloneAnswers = CloneAnswers(
    ready: bool, cloned: Answer, found: bool, cloneGone: Answer, snapshotGone: Answer
  )

  datatype Answers = Answers(cutting: CutAnswers, cloning: CloneAnswers, backedUp: bool)

  // ---- the calls

  function MadeCalls(req: Request, a: CutAnswers): seq<Call> {
    var create := Create(NewSnapshot(req), !req.keepSnapshot, a.created);
    var cut := WaitCut(NewSnapshot(req), a.cut);
    if a.created != Done then [create]
    else if a.cut then [create, cut]
    else [create, cut, DeleteSnapshot(NewSnapshot(req), a.uncutGone)]
  }

  function CutCalls(req: Request, a: CutAnswers): seq<Call> {
    var made := MadeCalls(req, a);
    if req.flush.NoFlush? then made
    else if !a.quiesced then [Quiesce(false)]
    else [Quiesce(true)] + made + [Release(a.released)]
  }

  predicate CutOk(req: Request, a: CutAnswers) {
    a.created == Done && a.cut && (req.flush.NoFlush? || (a.quiesced && a.released))
  }

  function EnsureCalls(req: Request, a: CutAnswers): seq<Call> {
    if req.fromSnapshot.Some? then []
    else if !a.checked then [CheckClass(false)]
    else [CheckClass(true)] + CutCalls(req, a)
  }

  predicate EnsureOk(req: Request, a: CutAnswers) { req.fromSnapshot.Some? || (a.checked && CutOk(req, a)) }

  predicate RemovesSnapshot(req: Request) { req.fromSnapshot.None? && !req.keepSnapshot }

  function Rollback(req: Request, cloneCreated: bool, a: CloneAnswers): seq<Call> {
    (if cloneCreated then [DeleteClaim(CloneName(req), a.cloneGone)] else []) +
    (if RemovesSnapshot(req) then [DeleteSnapshot(SnapshotName(req), a.snapshotGone)] else [])
  }

  function CloneCalls(req: Request, a: CloneAnswers): seq<Call> {
    var ready := WaitReady(SnapshotName(req), a.ready);
    var clone := Clone(CloneName(req), SnapshotName(req), a.cloned);
    var lookup := Lookup(CloneName(req), a.found);
    if !a.ready then [ready] + Rollback(req, false, a)
    else if a.cloned != Done then [ready, clone] + Rollback(req, false, a)
    else if !a.found then [ready, clone, lookup] + Rollback(req, true, a)
    else [ready, clone, lookup]
  }

  predicate CloneOk(a: CloneAnswers) { a.ready && a.cloned == Done && a.found }

  function PrepareCalls(req: Request, a: Answers): seq<Call> {
    EnsureCalls(req, a.cutting) + (if EnsureOk(req, a.cutting) then CloneCalls(req, a.cloning) else [])
  }

  predicate PrepareOk(req: Request, a: Answers) { EnsureOk(req, a.cutting) && CloneOk(a.cloning) }

  /** Whether the run leaves its clone and snapshot to a later cleanup. */
  predicate LeavesInPlace(req: Request, failed: bool) {
    req.detach || req.noCleanup || (failed && req.noCleanupOnFailure)
  }

  function TeardownCalls(req: Request, failed: bool, a: CloneAnswers): seq<Call> {
    if LeavesInPlace(req, failed) then []
    else
      [DeleteClaim(CloneName(req), a.cloneGone)] +
      (if a.cloneGone == Done && RemovesSnapshot(req) then [DeleteSnapshot(SnapshotName(req), a.snapshotGone)] else [])
  }

  /** A whole run: prepare, back up, tear down. */
  function RunCalls(req: Request, a: Answers): seq<Call> {
    PrepareCalls(req, a) + (if PrepareOk(req, a) then TeardownCalls(req, !a.backedUp, a.cloning) else [])
  }

  // ---- the order of the calls, and what is cloned

  predicate Before(calls: seq<Call>, j: nat, call: Call) { exists i :: 0 <= i < j && i < |calls| && calls[i] == call }

  predicate CreatedBefore(calls: seq<Call>, j: nat, snapshot: string, instance: bool) {
    Before(calls, j, Create(snapshot, instance, Done))
  }

  /** The class before anything else, the lock before the snapshot, and the
      snapshot before the wait for its cut. */
  predicate InOrder(calls: seq<Call>, locks: bool, instance: bool) {
    forall j :: 0 <= j < |calls| ==>
      && (calls[j].Quiesce? || calls[j].Create? ==> Before(calls, j, CheckClass(true)))
      && (calls[j].Create? && locks ==> Before(calls, j, Quiesce(true)))
      && (calls[j].Quiesce? || calls[j].Release? ==> locks)
      && (calls[j].Release? ==> Before(calls, j, Quiesce(true)))
      && (calls[j].WaitCut? ==> CreatedBefore(calls, j, calls[j].snapshot, instance))
  }

  /** A run without a snapshot of the user's: each step has those it depends on
      behind it, and whatever is waited for and cloned is a snapshot that this
      run created and saw cut. */
  lemma NewSnapshotIsCloned(req: Request, a: Answers)
    requires req.fromSnapshot.None?
    ensures var calls := RunCalls(req, a);
            && InOrder(calls, !req.flush.NoFlush?, !req.keepSnapshot)
            && forall j :: 0 <= j < |calls| && (calls[j].WaitReady? || calls[j].Clone?) ==>
                 CreatedBefore(calls, j, calls[j].snapshot, !req.keepSnapshot) &&
                 Before(calls, j, WaitCut(calls[j].snapshot, true))
  {
    RunIsEnsureAndRest(req, a);
    EnsureInOrder(req, a.cutting);
    RestIsLate(req, a);
    RestReads(req, a);
    var first, rest := EnsureCalls(req, a.cutting), AfterEnsure(req, a);
    OrderJoined(first, rest, !req.flush.NoFlush?, !req.keepSnapshot);
    ReadsJoined(first, rest, NewSnapshot(req), !req.keepSnapshot);
  }

  lemma OrderJoined(first: seq<Call>, rest: seq<Call>, locks: bool, instance: bool)
    requires InOrder(first, locks, instance) && Late(rest)
    ensures InOrder(first + rest, locks, instance)
  {
    forall j | 0 <= j < |first + rest| ensures j < |first| || (first + rest)[j] in rest {}
    forall j, c | 0 <= j <= |first| && Before(first, j, c) ensures Before(first + rest, j, c) {
      Lengthened(first, rest, j, j, c);
    }
  }

  /** Reads of what was created and seen cut before. */
  lemma ReadsJoined(first: seq<Call>, rest: seq<Call>, snapshot: string, instance: bool)
    requires forall c <- first :: !c.WaitReady? && !c.Clone?
    requires forall c <- rest :: c.WaitReady? || c.Clone? ==> c.snapshot == snapshot
    requires rest != [] ==>
               CreatedBefore(first, |first|, snapshot, instance) && Before(first, |first|, WaitCut(snapshot, true))
    ensures var calls := first + rest;
            forall j :: 0 <= j < |calls| && (calls[j].WaitReady? || calls[j].Clone?) ==>
              CreatedBefore(calls, j, calls[j].snapshot, instance) &&
              Before(calls, j, WaitCut(calls[j].snapshot, true))
  {
    var calls := first + rest;
    forall j | 0 <= j < |first| ensures calls[j] in first {}
    forall j | |first| <= j < |calls| && (calls[j].WaitReady? || calls[j].Clone?)
      ensures CreatedBefore(calls, j, calls[j].snapshot, instance) &&
              Before(calls, j, WaitCut(calls[j].snapshot, true))
    {
      assert calls[j] == rest[j - |first|];
      Lengthened(first, rest, |first|, j, Create(snapshot, instance, Done));
      Lengthened(first, rest, |first|, j, WaitCut(snapshot, true));
    }
  }

  lemma EnsureInOrder(req: Request, a: CutAnswers)
    requires req.fromSnapshot.None?
    ensures InOrder(EnsureCalls(req, a), !req.flush.NoFlush?, !req.keepSnapshot)
    ensures forall c <- EnsureCalls(req, a) :: !c.WaitReady? && !c.Clone?
    ensures EnsureOk(req, a) ==>
              CreatedBefore(EnsureCalls(req, a), |EnsureCalls(req, a)|, NewSnapshot(req), !req.keepSnapshot) &&
              Before(EnsureCalls(req, a), |EnsureCalls(req, a)|, WaitCut(NewSnapshot(req), true))
  {
    if a.checked {
      CutInOrder(req, a);
    } else {
      assert InOrder([CheckClass(false)], !req.flush.NoFlush?, !req.keepSnapshot);
    }
  }

  lemma CutInOrder(req: Request, a: CutAnswers)
    ensures var calls := [CheckClass(true)] + CutCalls(req, a);
            && InOrder(calls, !req.flush.NoFlush?, !req.keepSnapshot)
            && (forall c <- calls :: !c.WaitReady? && !c.Clone?)
            && (CutOk(req, a) ==>
                  CreatedBefore(calls, |calls|, NewSnapshot(req), !req.keepSnapshot) &&
                  Before(calls, |calls|, WaitCut(NewSnapshot(req), true)))
  {
    var calls := [CheckClass(true)] + CutCalls(req, a);
    assert calls[0] == CheckClass(true);
    if req.flush.NoFlush? {
      assert calls[1] == Create(NewSnapshot(req), !req.keepSnapshot, a.created);
      assert a.created == Done ==> calls[2] == WaitCut(NewSnapshot(req), a.cut);
    } else if a.quiesced {
      assert calls[1] == Quiesce(true) && calls[2] == Create(NewSnapshot(req), !req.keepSnapshot, a.created);
      assert a.created == Done ==> calls[3] == WaitCut(NewSnapshot(req), a.cut);
    }
  }

  /** Whatever is waited for and cloned after that is one snapshot. */
  lemma RestReads(req: Request, a: Answers)
    ensures forall c <- AfterEnsure(req, a) :: c.WaitReady? || c.Clone? ==> c.snapshot == SnapshotName(req)
  {
    assert forall c <- Rollback(req, true, a.cloning) + Rollback(req, false, a.cloning) :: !c.WaitReady? && !c.Clone?;
    assert forall c <- TeardownCalls(req, !a.backedUp, a.cloning) :: !c.WaitReady? && !c.Clone?;
  }

  lemma Lengthened(first: seq<Call>, rest: seq<Call>, j: nat, later: nat, call: Call)
    requires Before(first, j, call) && j <= later
    ensures Before(first + rest, later, call)
  {
    var i :| 0 <= i < j && i < |first| && first[i] == call;
    assert (first + rest)[i] == call;
  }

  /** A run with a snapshot of the user's waits for that one and clones it, and
      neither locks the database nor makes or deletes a snapshot. */
  lemma GivenSnapshotIsCloned(req: Request, a: Answers, name: string)
    requires req.fromSnapshot == Some(name)
    ensures var calls := RunCalls(req, a);
            && calls != [] && calls[0] == WaitReady(name, a.cloning.ready)
            && (forall c <- calls :: c.WaitReady? || c.Clone? ==> c.snapshot == name)
            && (forall c <- calls :: !c.CheckClass? && !c.Quiesce? && !c.Release?)
            && (forall c <- calls :: !c.Create? && !c.WaitCut? && !c.DeleteSnapshot?)
  {
    RunIsEnsureAndRest(req, a);
    RestIsLate(req, a);
    RestReads(req, a);
    GivenSnapshotSurvives(req, a);
  }

  /** Two releases share neither a snapshot nor a clone. */
  lemma NamesAreOwn(req: Request, other: Request)
    ensures NewSnapshot(req) == NewSnapshot(other) <==> req.release == other.release
    ensures CloneName(req) == CloneName(other) <==> req.release == other.release
  {
    assert forall r: string, s: string :: (r + s)[..|r|] == r;
    assert |NewSnapshot(req)| == |req.release| + 5 && |NewSnapshot(other)| == |other.release| + 5;
    assert |CloneName(req)| == |req.release| + 6 && |CloneName(other)| == |other.release| + 6;
  }

  // ---- the lock is released once, and when

  /** The release happens once, after the wait for the cut has ended and before
      the wait for readiness begins; a run that goes on released it well. */
  predicate ReleasedOnce(calls: seq<Call>, at: nat) {
    && at < |calls| && calls[at].Release?
    && (forall i :: 0 <= i < |calls| && i != at ==> !calls[i].Release?)
    && (forall i :: 0 <= i < |calls| && (calls[i].Create? || calls[i].WaitCut?) ==> i < at)
    && (forall i :: 0 <= i < |calls| && (calls[i].WaitReady? || calls[i].Clone?) ==> at < i && calls[at].ok)
  }

  lemma QuiescedIsReleasedOnce(req: Request, a: Answers)
    requires Quiesce(true) in RunCalls(req, a)
    ensures exists at :: ReleasedOnce(RunCalls(req, a), at)
  {
    var first := EnsureCalls(req, a.cutting);
    RunIsEnsureAndRest(req, a);
    RestIsLate(req, a);
    EnsureReleasesLast(req, a.cutting);
    LateIsAfter(first, AfterEnsure(req, a));
  }

  lemma LateIsAfter(first: seq<Call>, rest: seq<Call>)
    requires Late(rest) && Quiesce(true) in first + rest
    requires Quiesce(true) in first ==> ReleasedOnce(first, |first| - 1) && (rest != [] ==> first[|first| - 1].ok)
    ensures exists at :: ReleasedOnce(first + rest, at)
  {
    var at := |first| - 1;
    assert Quiesce(true) in first;
    forall i | |first| <= i < |first + rest| ensures (first + rest)[i] in rest {}
    assert ReleasedOnce(first + rest, at);
  }

  function AfterEnsure(req: Request, a: Answers): seq<Call> {
    if !EnsureOk(req, a.cutting) then []
    else CloneCalls(req, a.cloning) + (if CloneOk(a.cloning) then TeardownCalls(req, !a.backedUp, a.cloning) else [])
  }

  lemma RunIsEnsureAndRest(req: Request, a: Answers)
    ensures RunCalls(req, a) == EnsureCalls(req, a.cutting) + AfterEnsure(req, a)
  {}

  /** Calls that neither take nor drop a lock, nor make a snapshot. */
  predicate Late(calls: seq<Call>) {
    forall c <- calls :: c.WaitReady? || c.Clone? || c.Lookup? || c.DeleteClaim? || c.DeleteSnapshot?
  }

  lemma RestIsLate(req: Request, a: Answers)
    ensures Late(AfterEnsure(req, a))
  {
    assert Late(Rollback(req, true, a.cloning)) && Late(Rollback(req, false, a.cloning));
    assert Late(CloneCalls(req, a.cloning));
    assert Late(TeardownCalls(req, !a.backedUp, a.cloning));
  }

  lemma EnsureReleasesLast(req: Request, a: CutAnswers)
    ensures var calls := EnsureCalls(req, a);
            Quiesce(true) in calls ==>
              ReleasedOnce(calls, |calls| - 1) && (EnsureOk(req, a) ==> calls[|calls| - 1].ok)
  {}

  // ---- what is left behind

  /** A claim: whether it carries the run's instance label, and the snapshot it
      was cloned from, if any. */
  datatype Volume = Volume(instance: bool, from: Option<string>)

  /** Snapshots and claims by name, and whether each carries the run's instance
      label, which is what a later cleanup finds it by. */
  datatype Objects = Objects(snapshots: map<string, bool>, claims: map<string, Volume>)

  function CloneOf(snapshot: string): Volume { Volume(true, Some(snapshot)) }

  function Apply(o: Objects, call: Call): Objects {
    match call
    case Create(snapshot, instance, answer) =>
      if answer == Refused then o else o.(snapshots := o.snapshots[snapshot := instance])
    case Clone(claim, snapshot, answer) =>
      if answer == Refused then o else o.(claims := o.claims[claim := CloneOf(snapshot)])
    case DeleteClaim(claim, answer) => if answer == Refused then o else o.(claims := o.claims - {claim})
    case DeleteSnapshot(snapshot, answer) =>
      if answer == Refused then o else o.(snapshots := o.snapshots - {snapshot})
    case _ => o
  }

  function Replay(o: Objects, calls: seq<Call>): Objects
    decreases |calls|
  {
    if calls == [] then o else Replay(Apply(o, calls[0]), calls[1..])
  }

  lemma {:induction false} ReplayAppend(o: Objects, a: seq<Call>, b: seq<Call>)
    ensures Replay(o, a + b) == Replay(Replay(o, a), b)
    decreases |a|
  {
    if a == [] {
      assert a + b == b;
    } else {
      assert (a + b)[1..] == a[1..] + b;
      ReplayAppend(Apply(o, a[0]), a[1..], b);
    }
  }

  lemma Replay1(o: Objects, x: Call)
    ensures Replay(o, [x]) == Apply(o, x)
  {
    assert [x][1..] == [];
  }

  /** A create that took effect found its name free. */
  predicate Consistent(req: Request, a: Answers, o: Objects) {
    && (a.cutting.created != Refused ==> NewSnapshot(req) !in o.snapshots)
    && (a.cloning.cloned != Refused ==> CloneName(req) !in o.claims)
  }

  predicate MakesSnapshot(calls: seq<Call>) { exists c <- calls :: c.Create? && c.answer != Refused }

  predicate DropsSnapshot(calls: seq<Call>) { exists c <- calls :: c.DeleteSnapshot? && c.answer != Refused }

  predicate MakesClaim(calls: seq<Call>) { exists c <- calls :: c.Clone? && c.answer != Refused }

  predicate DropsClaim(calls: seq<Call>) { exists c <- calls :: c.DeleteClaim? && c.answer != Refused }

  predicate UndoesSnapshot(calls: seq<Call>) { exists c <- calls :: c.DeleteSnapshot? }

  predicate UndoesClaim(calls: seq<Call>) { exists c <- calls :: c.DeleteClaim? }

  /** What the calls of a run come to, for every pattern of answers: the snapshot
      and the claim it made, unless it deleted them again, and nothing else. */
  function Account(req: Request, calls: seq<Call>, o: Objects): Objects {
    Objects(
      if MakesSnapshot(calls) && !DropsSnapshot(calls)
      then o.snapshots[NewSnapshot(req) := !req.keepSnapshot] else o.snapshots,
      if MakesClaim(calls) && !DropsClaim(calls) then o.claims[CloneName(req) := CloneOf(SnapshotName(req))]
      else o.claims
    )
  }

  /** A name in a map after it may have been put there and may have been taken out. */
  function Fate<T>(m: map<string, T>, made: bool, dropped: bool, name: string, thing: T): map<string, T> {
    if dropped then m - {name} else if made then m[name := thing] else m
  }

  lemma FateGoesOn<T>(m: map<string, T>, made: bool, dropped: bool, name: string, thing: T)
    ensures Fate(m, made, dropped, name, thing) - {name} == m - {name}
    ensures !dropped ==> Fate(m, made, dropped, name, thing)[name := thing] == m[name := thing]
    ensures name !in m ==> m - {name} == m
  {}

  /** Calls about one snapshot, made before it is deleted. */
  predicate OneSnapshot(calls: seq<Call>, name: string, instance: bool) {
    && (forall i :: 0 <= i < |calls| && calls[i].Create? ==> calls[i].snapshot == name && calls[i].instance == instance)
    && (forall i :: 0 <= i < |calls| && calls[i].DeleteSnapshot? ==> calls[i].snapshot == name)
    && (forall i, j :: 0 <= i < j < |calls| && calls[i].DeleteSnapshot? ==> !calls[j].Create?)
  }

  predicate OneClaim(calls: seq<Call>, name: string, from: string) {
    && (forall i :: 0 <= i < |calls| && calls[i].Clone? ==> calls[i].claim == name && calls[i].snapshot == from)
    && (forall i :: 0 <= i < |calls| && calls[i].DeleteClaim? ==> calls[i].claim == name)
    && (forall i, j :: 0 <= i < j < |calls| && calls[i].DeleteClaim? ==> !calls[j].Clone?)
  }

  lemma {:induction false} SnapshotsLeft(o: Objects, calls: seq<Call>, name: string, instance: bool)
    requires OneSnapshot(calls, name, instance)
    ensures Replay(o, calls).snapshots == Fate(o.snapshots, MakesSnapshot(calls), DropsSnapshot(calls), name, instance)
    decreases |calls|
  {
    if calls != [] {
      var front, last := calls[..|calls| - 1], calls[|calls| - 1];
      assert calls == front + [last];
      ReplayLast(o, front, last);
      OneSnapshotBefore(front, last, name, instance);
      SnapshotsLeft(o, front, name, instance);
      Joined(front, [last]);
      Alone(last);
      SnapshotStep(Replay(o, front), o.snapshots, MakesSnapshot(front), DropsSnapshot(front), last, name, instance);
    }
  }

  lemma ReplayLast(o: Objects, front: seq<Call>, last: Call)
    ensures Replay(o, front + [last]) == Apply(Replay(o, front), last)
  {
    ReplayAppend(o, front, [last]);
    Replay1(Replay(o, front), last);
  }

  lemma OneSnapshotBefore(front: seq<Call>, last: Call, name: string, instance: bool)
    requires OneSnapshot(front + [last], name, instance)
    ensures OneSnapshot(front, name, instance)
    ensures last.Create? ==> last.snapshot == name && last.instance == instance && !DropsSnapshot(front)
    ensures last.DeleteSnapshot? ==> last.snapshot == name
  {
    var calls := front + [last];
    assert calls[|front|] == last;
    assert forall i :: 0 <= i < |front| ==> calls[i] == front[i];
  }

  lemma SnapshotStep(o: Objects, m: map<string, bool>, made: bool, dropped: bool, last: Call, name: string,
                     instance: bool)
    requires o.snapshots == Fate(m, made, dropped, name, instance)
    requires last.Create? ==> last.snapshot == name && last.instance == instance && !dropped
    requires last.DeleteSnapshot? ==> last.snapshot == name
    ensures Apply(o, last).snapshots ==
            Fate(m, made || (last.Create? && last.answer != Refused),
                 dropped || (last.DeleteSnapshot? && last.answer != Refused), name, instance)
  {
    FateGoesOn(m, made, dropped, name, instance);
  }

  lemma {:induction false} ClaimsLeft(o: Objects, calls: seq<Call>, name: string, from: string)
    requires OneClaim(calls, name, from)
    ensures Replay(o, calls).claims == Fate(o.claims, MakesClaim(calls), DropsClaim(calls), name, CloneOf(from))
    decreases |calls|
  {
    if calls != [] {
      var front, last := calls[..|calls| - 1], calls[|calls| - 1];
      assert calls == front + [last];
      ReplayLast(o, front, last);
      OneClaimBefore(front, last, name, from);
      ClaimsLeft(o, front, name, from);
      ClaimsJoined(front, [last]);
      Alone(last);
      ClaimStep(Replay(o, front), o.claims, MakesClaim(front), DropsClaim(front), last, name, from);
    }
  }

  lemma OneClaimBefore(front: seq<Call>, last: Call, name: string, from: string)
    requires OneClaim(front + [last], name, from)
    ensures OneClaim(front, name, from)
    ensures last.Clone? ==> last.claim == name && last.snapshot == from && !DropsClaim(front)
    ensures last.DeleteClaim? ==> last.claim == name
  {
    var calls := front + [last];
    assert calls[|front|] == last;
    assert forall i :: 0 <= i < |front| ==> calls[i] == front[i];
  }

  lemma ClaimStep(o: Objects, m: map<string, Volume>, made: bool, dropped: bool, last: Call, name: string,
                  from: string)
    requires o.claims == Fate(m, made, dropped, name, CloneOf(from))
    requires last.Clone? ==> last.claim == name && last.snapshot == from && !dropped
    requires last.DeleteClaim? ==> last.claim == name
    ensures Apply(o, last).claims ==
            Fate(m, made || (last.Clone? && last.answer != Refused),
                 dropped || (last.DeleteClaim? && last.answer != Refused), name, CloneOf(from))
  {
    FateGoesOn(m, made, dropped, name, CloneOf(from));
  }

  lemma Joined(a: seq<Call>, b: seq<Call>)
    ensures MakesSnapshot(a + b) <==> MakesSnapshot(a) || MakesSnapshot(b)
    ensures DropsSnapshot(a + b) <==> DropsSnapshot(a) || DropsSnapshot(b)
    ensures UndoesSnapshot(a + b) <==> UndoesSnapshot(a) || UndoesSnapshot(b)
  {
    assert forall c <- a :: c in a + b;
    assert forall c <- b :: c in a + b;
  }

  lemma ClaimsJoined(a: seq<Call>, b: seq<Call>)
    ensures MakesClaim(a + b) <==> MakesClaim(a) || MakesClaim(b)
    ensures DropsClaim(a + b) <==> DropsClaim(a) || DropsClaim(b)
    ensures UndoesClaim(a + b) <==> UndoesClaim(a) || UndoesClaim(b)
  {
    assert forall c <- a :: c in a + b;
    assert forall c <- b :: c in a + b;
  }

  lemma Alone(x: Call)
    ensures MakesSnapshot([x]) <==> x.Create? && x.answer != Refused
    ensures DropsSnapshot([x]) <==> x.DeleteSnapshot? && x.answer != Refused
    ensures UndoesSnapshot([x]) <==> x.DeleteSnapshot?
    ensures MakesClaim([x]) <==> x.Clone? && x.answer != Refused
    ensures DropsClaim([x]) <==> x.DeleteClaim? && x.answer != Refused
    ensures UndoesClaim([x]) <==> x.DeleteClaim?
  {
    assert x in [x];
  }

  /** The whole account of a run, whatever was answered. */
  lemma RunIsAccountedFor(req: Request, a: Answers, o: Objects)
    requires Consistent(req, a, o)
    ensures Replay(o, RunCalls(req, a)) == Account(req, RunCalls(req, a), o)
  {
    var calls := RunCalls(req, a);
    RunIsAboutOne(req, a);
    SnapshotsLeft(o, calls, NewSnapshot(req), !req.keepSnapshot);
    ClaimsLeft(o, calls, CloneName(req), SnapshotName(req));
    NamesWereFree(req, a, o);
    FateGoesOn(o.snapshots, true, true, NewSnapshot(req), !req.keepSnapshot);
    FateGoesOn(o.claims, true, true, CloneName(req), CloneOf(SnapshotName(req)));
  }

  /** What a run deletes it has made, so its name was free before. */
  lemma NamesWereFree(req: Request, a: Answers, o: Objects)
    requires Consistent(req, a, o)
    ensures var calls := RunCalls(req, a);
            && (MakesSnapshot(calls) || DropsSnapshot(calls) ==> NewSnapshot(req) !in o.snapshots)
            && (MakesClaim(calls) || DropsClaim(calls) ==> CloneName(req) !in o.claims)
  {
    RunDeletesItsOwn(req, a);
    CallsAreOfTheRun(req, a);
  }

  lemma CallsAreOfTheRun(req: Request, a: Answers)
    ensures forall c <- RunCalls(req, a) ::
              && (c.Create? ==> c == Create(NewSnapshot(req), !req.keepSnapshot, a.cutting.created))
              && (c.Clone? ==> c == Clone(CloneName(req), SnapshotName(req), a.cloning.cloned))
  {
    RunIsEnsureAndRest(req, a);
    RestIsLate(req, a);
    EnsureMakes(req, a.cutting);
    RestShape(req, a);
  }

  lemma RunIsAboutOne(req: Request, a: Answers)
    ensures OneSnapshot(RunCalls(req, a), NewSnapshot(req), !req.keepSnapshot)
    ensures OneClaim(RunCalls(req, a), CloneName(req), SnapshotName(req))
  {
    RunIsEnsureAndRest(req, a);
    RestIsLate(req, a);
    EnsureMakes(req, a.cutting);
    RestShape(req, a);
    var first, rest := EnsureCalls(req, a.cutting), AfterEnsure(req, a);
    forall i | 0 <= i < |rest| ensures rest[i] in rest {}
    SnapshotsJoined(first, rest, NewSnapshot(req), !req.keepSnapshot);
    OneClaimJoined(first, rest, CloneName(req), SnapshotName(req));
  }

  lemma SnapshotsJoined(first: seq<Call>, rest: seq<Call>, name: string, instance: bool)
    requires OneSnapshot(first, name, instance)
    requires forall i :: 0 <= i < |rest| ==> !rest[i].Create? && (rest[i].DeleteSnapshot? ==> rest[i].snapshot == name)
    ensures OneSnapshot(first + rest, name, instance)
  {}

  lemma OneClaimJoined(first: seq<Call>, rest: seq<Call>, name: string, from: string)
    requires NoClones(first) && OneClaim(rest, name, from)
    ensures OneClaim(first + rest, name, from)
  {}

  // ---- which calls those are

  predicate WasCut(req: Request, a: Answers) { WaitCut(NewSnapshot(req), true) in RunCalls(req, a) }

  /** A run that found its clone and was told not to tear it down. */
  predicate StaysInPlace(req: Request, a: Answers) {
    Lookup(CloneName(req), true) in RunCalls(req, a) &&
    (req.detach || req.noCleanup || (!a.backedUp && req.noCleanupOnFailure))
  }

  lemma FoundIsPrepared(req: Request, a: Answers)
    ensures Lookup(CloneName(req), true) in RunCalls(req, a) <==> PrepareOk(req, a)
  {
    var lookup := Lookup(CloneName(req), true);
    RunIsEnsureAndRest(req, a);
    EnsureLooksUpNone(req, a.cutting);
    assert forall c <- Rollback(req, true, a.cloning) + Rollback(req, false, a.cloning) :: !c.Lookup?;
    assert lookup !in TeardownCalls(req, !a.backedUp, a.cloning);
    if PrepareOk(req, a) {
      assert CloneCalls(req, a.cloning)[2] == lookup;
    }
  }

  lemma EnsureLooksUpNone(req: Request, a: CutAnswers)
    ensures forall c <- EnsureCalls(req, a) :: !c.Lookup?
  {}

  predicate DeletionsWork(calls: seq<Call>) {
    forall c <- calls :: (c.DeleteSnapshot? || c.DeleteClaim?) ==> c.answer == Done
  }

  /** The snapshot a run leaves when its deletions work: one it was told it had
      not made, uncut; or one that was cut, and was asked for, or cut under a
      lock whose release failed, or is left with its clone for later. */
  predicate LeavesSnapshot(req: Request, a: Answers) {
    || Create(NewSnapshot(req), !req.keepSnapshot, Lost) in RunCalls(req, a)
    || (WasCut(req, a) && (req.keepSnapshot || Release(false) in RunCalls(req, a) || StaysInPlace(req, a)))
  }

  predicate LeavesClone(req: Request, a: Answers) {
    Clone(CloneName(req), SnapshotName(req), Lost) in RunCalls(req, a) || StaysInPlace(req, a)
  }

  function Leftover(req: Request, a: Answers, o: Objects): Objects {
    Objects(
      if LeavesSnapshot(req, a) then o.snapshots[NewSnapshot(req) := !req.keepSnapshot] else o.snapshots,
      if LeavesClone(req, a) then o.claims[CloneName(req) := CloneOf(SnapshotName(req))] else o.claims
    )
  }

  /** Whatever fails on the way but a deletion: the leftovers are exactly these. */
  lemma LeftoversAreExact(req: Request, a: Answers, o: Objects)
    requires Consistent(req, a, o) && DeletionsWork(RunCalls(req, a))
    ensures Replay(o, RunCalls(req, a)) == Leftover(req, a, o)
  {
    RunIsAccountedFor(req, a, o);
    SnapshotIsAskedFor(req, a);
    CloneIsAskedFor(req, a);
    CutIsEarly(req, a);
    LostIsSeen(req, a);
    LostCloneIsSeen(req, a);
    FoundIsPrepared(req, a);
    AskedToGo(RunCalls(req, a));
    if RollsBackClone(req, a) && CloneOk(a.cloning) {
      CloneIsGone(req, a);
    }
  }

  lemma AskedToGo(calls: seq<Call>)
    requires DeletionsWork(calls)
    ensures DropsSnapshot(calls) <==> UndoesSnapshot(calls)
    ensures DropsClaim(calls) <==> UndoesClaim(calls)
  {}

  /** The snapshot of the run that no wait has seen cut is left exactly if its
      creation took effect and was reported failed, or its deletion was refused. */
  lemma UncutSurvives(req: Request, a: Answers, o: Objects)
    requires Consistent(req, a, o)
    ensures NewSnapshot(req) in Replay(o, RunCalls(req, a)).snapshots && NewSnapshot(req) !in o.snapshots &&
            !WasCut(req, a) <==>
              || Create(NewSnapshot(req), !req.keepSnapshot, Lost) in RunCalls(req, a)
              || (!WasCut(req, a) && DeleteSnapshot(NewSnapshot(req), Refused) in RunCalls(req, a))
  {
    RunIsAccountedFor(req, a, o);
    NamesWereFree(req, a, o);
    SnapshotIsAskedFor(req, a);
    LostIsSeen(req, a);
    CutIsEarly(req, a);
    if AsksForSnapshot(req, a.cutting) && !EnsuredCut(req, a.cutting) {
      UncutIsUndone(req, a);
    }
  }

  /** A failed creation that took effect: nobody is told to take it back. */
  lemma LostCreationStays()
    ensures var req := Request(NoFlush, None, false, false, false, false, "r");
            var a := Answers(CutAnswers(true, true, Lost, true, Done, true),
                             CloneAnswers(true, Done, true, Done, Done), true);
            && DeletionsWork(RunCalls(req, a)) && !WasCut(req, a) && !PrepareOk(req, a)
            && NewSnapshot(req) in Replay(Objects(map[], map[]), RunCalls(req, a)).snapshots
  {
    var req := Request(NoFlush, None, false, false, false, false, "r");
    var a := Answers(CutAnswers(true, true, Lost, true, Done, true), CloneAnswers(true, Done, true, Done, Done), true);
    assert RunCalls(req, a)[1] == Create(NewSnapshot(req), true, Lost);
    UncutSurvives(req, a, Objects(map[], map[]));
  }

  /** The snapshot is asked for once the class is known and the lock is held. */
  predicate AsksForSnapshot(req: Request, a: CutAnswers) {
    req.fromSnapshot.None? && a.checked && (req.flush.NoFlush? || a.quiesced)
  }

  predicate EnsuredCut(req: Request, a: CutAnswers) { AsksForSnapshot(req, a) && a.created == Done && a.cut }

  /** The part of SnapshotIsAskedFor that concerns the deletion after the cut. */
  predicate RollsBackSnapshot(req: Request, a: Answers) {
    && EnsureOk(req, a.cutting) && RemovesSnapshot(req)
    && (CloneOk(a.cloning) ==> !LeavesInPlace(req, !a.backedUp) && a.cloning.cloneGone == Done)
  }

  predicate RollsBackClone(req: Request, a: Answers) {
    && EnsureOk(req, a.cutting) && a.cloning.ready && a.cloning.cloned == Done
    && (a.cloning.found ==> !LeavesInPlace(req, !a.backedUp))
  }

  lemma SnapshotIsAskedFor(req: Request, a: Answers)
    ensures var calls := RunCalls(req, a);
            && (MakesSnapshot(calls) <==> AsksForSnapshot(req, a.cutting) && a.cutting.created != Refused)
            && (UndoesSnapshot(calls) <==>
                  (AsksForSnapshot(req, a.cutting) && a.cutting.created == Done && !a.cutting.cut) ||
                  RollsBackSnapshot(req, a))
  {
    RunIsEnsureAndRest(req, a);
    Joined(EnsureCalls(req, a.cutting), AfterEnsure(req, a));
    EnsureAsks(req, a.cutting);
    RestAsksForNone(req, a);
    RestUndoesSnapshot(req, a);
  }

  lemma LostIsSeen(req: Request, a: Answers)
    ensures Create(NewSnapshot(req), !req.keepSnapshot, Lost) in RunCalls(req, a) <==>
              AsksForSnapshot(req, a.cutting) && a.cutting.created == Lost
  {
    var create := Create(NewSnapshot(req), !req.keepSnapshot, Lost);
    CallsAreOfTheRun(req, a);
    SnapshotIsAskedFor(req, a);
    if create in RunCalls(req, a) {
      assert create.answer != Refused && MakesSnapshot(RunCalls(req, a));
    }
  }

  lemma EnsureAsks(req: Request, a: CutAnswers)
    ensures var calls := EnsureCalls(req, a);
            && (MakesSnapshot(calls) <==> AsksForSnapshot(req, a) && a.created != Refused)
            && (UndoesSnapshot(calls) <==> AsksForSnapshot(req, a) && a.created == Done && !a.cut)
  {
    var made := MadeCalls(req, a);
    MadeAsks(req, a);
    Alone(CheckClass(true));
    Alone(CheckClass(false));
    Alone(Quiesce(true));
    Alone(Quiesce(false));
    Alone(Release(a.released));
    Joined([Quiesce(true)], made);
    Joined([Quiesce(true)] + made, [Release(a.released)]);
    Joined([CheckClass(true)], CutCalls(req, a));
  }

  lemma MadeAsks(req: Request, a: CutAnswers)
    ensures MakesSnapshot(MadeCalls(req, a)) <==> a.created != Refused
    ensures UndoesSnapshot(MadeCalls(req, a)) <==> a.created == Done && !a.cut
  {
    assert MadeCalls(req, a)[0].answer == a.created;
    assert a.created == Done && !a.cut ==> MadeCalls(req, a)[2].DeleteSnapshot?;
  }

  lemma RestAsksForNone(req: Request, a: Answers)
    ensures !MakesSnapshot(AfterEnsure(req, a))
  {
    RestIsLate(req, a);
  }

  lemma RollbackUndoes(req: Request, cloneCreated: bool, a: CloneAnswers)
    ensures UndoesSnapshot(Rollback(req, cloneCreated, a)) <==> RemovesSnapshot(req)
    ensures UndoesClaim(Rollback(req, cloneCreated, a)) <==> cloneCreated
    ensures !MakesClaim(Rollback(req, cloneCreated, a))
  {
    var unclone, unsnap := DeleteClaim(CloneName(req), a.cloneGone), DeleteSnapshot(SnapshotName(req), a.snapshotGone);
    Alone(unclone);
    Alone(unsnap);
    Joined(if cloneCreated then [unclone] else [], if RemovesSnapshot(req) then [unsnap] else []);
    ClaimsJoined(if cloneCreated then [unclone] else [], if RemovesSnapshot(req) then [unsnap] else []);
  }

  lemma CloneCallsUndo(req: Request, a: CloneAnswers)
    ensures UndoesSnapshot(CloneCalls(req, a)) <==> !CloneOk(a) && RemovesSnapshot(req)
    ensures UndoesClaim(CloneCalls(req, a)) <==> a.ready && a.cloned == Done && !a.found
    ensures MakesClaim(CloneCalls(req, a)) <==> a.ready && a.cloned != Refused
  {
    var ready := WaitReady(SnapshotName(req), a.ready);
    var clone := Clone(CloneName(req), SnapshotName(req), a.cloned);
    var lookup := Lookup(CloneName(req), a.found);
    Alone(ready);
    Alone(clone);
    Alone(lookup);
    TwoOrThree(ready, clone, lookup);
    var undo := Rollback(req, a.ready && a.cloned == Done, a);
    RollbackUndoes(req, a.ready && a.cloned == Done, a);
    var calls := if !a.ready then [ready] else if a.cloned != Done then [ready, clone] else [ready, clone, lookup];
    Joined(calls, undo);
    ClaimsJoined(calls, undo);
  }

  lemma TwoOrThree(x: Call, y: Call, z: Call)
    requires x.WaitReady? && y.Clone? && z.Lookup?
    ensures !UndoesSnapshot([x, y]) && !UndoesClaim([x, y]) && (MakesClaim([x, y]) <==> y.answer != Refused)
    ensures !UndoesSnapshot([x, y, z]) && !UndoesClaim([x, y, z]) && (MakesClaim([x, y, z]) <==> y.answer != Refused)
  {
    assert y in [x, y] && y in [x, y, z];
  }

  lemma TeardownUndoes(req: Request, failed: bool, a: CloneAnswers)
    ensures UndoesSnapshot(TeardownCalls(req, failed, a)) <==>
              !LeavesInPlace(req, failed) && a.cloneGone == Done && RemovesSnapshot(req)
    ensures UndoesClaim(TeardownCalls(req, failed, a)) <==> !LeavesInPlace(req, failed)
    ensures !MakesClaim(TeardownCalls(req, failed, a))
  {
    var unclone, unsnap := DeleteClaim(CloneName(req), a.cloneGone), DeleteSnapshot(SnapshotName(req), a.snapshotGone);
    Alone(unclone);
    Alone(unsnap);
    Joined([unclone], [unsnap]);
    ClaimsJoined([unclone], [unsnap]);
    Joined([unclone], []);
    ClaimsJoined([unclone], []);
  }

  lemma RestUndoesSnapshot(req: Request, a: Answers)
    ensures UndoesSnapshot(AfterEnsure(req, a)) <==> RollsBackSnapshot(req, a)
  {
    CloneCallsUndo(req, a.cloning);
    TeardownUndoes(req, !a.backedUp, a.cloning);
    Joined(CloneCalls(req, a.cloning), if CloneOk(a.cloning) then TeardownCalls(req, !a.backedUp, a.cloning) else []);
  }

  lemma CloneIsAskedFor(req: Request, a: Answers)
    ensures var calls := RunCalls(req, a);
            && (MakesClaim(calls) <==> EnsureOk(req, a.cutting) && a.cloning.ready && a.cloning.cloned != Refused)
            && (UndoesClaim(calls) <==> RollsBackClone(req, a))
  {
    RunIsEnsureAndRest(req, a);
    EnsureMakes(req, a.cutting);
    assert !MakesClaim(EnsureCalls(req, a.cutting)) && !UndoesClaim(EnsureCalls(req, a.cutting));
    ClaimsJoined(EnsureCalls(req, a.cutting), AfterEnsure(req, a));
    CloneCallsUndo(req, a.cloning);
    TeardownUndoes(req, !a.backedUp, a.cloning);
    ClaimsJoined(CloneCalls(req, a.cloning),
                 if CloneOk(a.cloning) then TeardownCalls(req, !a.backedUp, a.cloning) else []);
  }

  lemma LostCloneIsSeen(req: Request, a: Answers)
    ensures Clone(CloneName(req), SnapshotName(req), Lost) in RunCalls(req, a) <==>
              EnsureOk(req, a.cutting) && a.cloning.ready && a.cloning.cloned == Lost
  {
    var clone := Clone(CloneName(req), SnapshotName(req), Lost);
    CallsAreOfTheRun(req, a);
    CloneIsAskedFor(req, a);
    if clone in RunCalls(req, a) {
      assert clone.answer != Refused && MakesClaim(RunCalls(req, a));
    }
  }

  /** A claim deleted in a run whose deletions work is gone. */
  lemma CloneIsGone(req: Request, a: Answers)
    requires DeletionsWork(RunCalls(req, a)) && RollsBackClone(req, a) && CloneOk(a.cloning)
    ensures a.cloning.cloneGone == Done
  {
    RunIsEnsureAndRest(req, a);
    var down := TeardownCalls(req, !a.backedUp, a.cloning);
    assert down[0] == DeleteClaim(CloneName(req), a.cloning.cloneGone) && down[0] in CloneCalls(req, a.cloning) + down;
    assert down[0] in AfterEnsure(req, a) && down[0] in RunCalls(req, a);
  }

  lemma CutIsEarly(req: Request, a: Answers)
    ensures WasCut(req, a) <==> EnsuredCut(req, a.cutting)
    ensures Release(false) in RunCalls(req, a) <==> Release(false) in EnsureCalls(req, a.cutting)
    ensures EnsuredCut(req, a.cutting) ==> (Release(false) in RunCalls(req, a) <==> !EnsureOk(req, a.cutting))
  {
    RunIsEnsureAndRest(req, a);
    RestIsLate(req, a);
    CutInEnsure(req, a.cutting);
  }

  lemma CutInEnsure(req: Request, a: CutAnswers)
    ensures WaitCut(NewSnapshot(req), true) in EnsureCalls(req, a) <==> EnsuredCut(req, a)
    ensures EnsuredCut(req, a) ==> (Release(false) in EnsureCalls(req, a) <==> !EnsureOk(req, a))
  {
    var create, cut := Create(NewSnapshot(req), !req.keepSnapshot, a.created), WaitCut(NewSnapshot(req), a.cut);
    assert EnsuredCut(req, a) ==> cut == [create, cut][1] && cut in CutCalls(req, a);
    assert EnsuredCut(req, a) && !req.flush.NoFlush? ==> CutCalls(req, a)[3] == Release(a.released);
  }

  /** Without a cut there is one deletion, that of the uncut snapshot. */
  lemma UncutIsUndone(req: Request, a: Answers)
    requires !EnsuredCut(req, a.cutting) && AsksForSnapshot(req, a.cutting)
    ensures forall c <- RunCalls(req, a) :: c.DeleteSnapshot? ==>
            c == DeleteSnapshot(NewSnapshot(req), a.cutting.uncutGone)
  {
    RunIsEnsureAndRest(req, a);
    assert AfterEnsure(req, a) == [];
  }

  /** What a cleanup finds by the instance label and removes. */
  function CleanedUp(o: Objects): Objects {
    Objects(Unlabelled(o.snapshots), UnlabelledClaims(o.claims))
  }

  function Unlabelled(m: map<string, bool>): map<string, bool> { map k | k in m && !m[k] :: false }

  function UnlabelledClaims(m: map<string, Volume>): map<string, Volume> { map k | k in m && !m[k].instance :: m[k] }

  /** Whatever was answered during a run, a cleanup by label that succeeds brings
      the cluster back to where it was, but for a snapshot that was to be kept. */
  lemma CleanupFinishes(req: Request, a: Answers, o: Objects)
    requires Consistent(req, a, o) && CleanedUp(o) == o
    ensures var calls := RunCalls(req, a);
            CleanedUp(Replay(o, calls)) ==
            if req.keepSnapshot && MakesSnapshot(calls) && !DropsSnapshot(calls)
            then o.(snapshots := o.snapshots[NewSnapshot(req) := false]) else o
  {
    RunIsAccountedFor(req, a, o);
    NamesWereFree(req, a, o);
    CleanedMore(o.snapshots, NewSnapshot(req), !req.keepSnapshot);
    ClaimCleaned(o.claims, CloneName(req), CloneOf(SnapshotName(req)));
  }

  lemma CleanedMore(m: map<string, bool>, name: string, labelled: bool)
    requires Unlabelled(m) == m
    ensures name !in m ==> Unlabelled(m[name := labelled]) == if labelled then m else m[name := false]
  {
    assert forall k <- Unlabelled(m) :: !Unlabelled(m)[k];
  }

  lemma ClaimCleaned(m: map<string, Volume>, name: string, clone: Volume)
    requires UnlabelledClaims(m) == m && clone.instance
    ensures name !in m ==> UnlabelledClaims(m[name := clone]) == m
  {
    assert forall k <- UnlabelledClaims(m) :: !UnlabelledClaims(m)[k].instance;
  }

  // ---- only what the run made is deleted, the clone before its snapshot

  predicate Made(calls: seq<Call>, j: nat, snapshot: string) {
    exists i ::
      0 <= i < j && i < |calls| && calls[i].Create? && calls[i].snapshot == snapshot && calls[i].answer == Done
  }

  predicate Cloned(calls: seq<Call>, j: nat, claim: string) {
    exists i :: 0 <= i < j && i < |calls| && calls[i].Clone? && calls[i].claim == claim && calls[i].answer == Done
  }

  predicate Freed(calls: seq<Call>, i: nat, j: nat, claim: string) {
    exists k :: i < k < j && k < |calls| && calls[k].DeleteClaim? && calls[k].claim == claim
  }

  /** Deletions are of things the run itself made before, and a snapshot goes
      only once the clone that reads it was told to. */
  predicate DeletesItsOwn(calls: seq<Call>) {
    && (forall j :: 0 <= j < |calls| && calls[j].DeleteSnapshot? ==> Made(calls, j, calls[j].snapshot))
    && (forall j :: 0 <= j < |calls| && calls[j].DeleteClaim? ==> Cloned(calls, j, calls[j].claim))
    && (forall i, j ::
          0 <= i < j < |calls| && calls[i].Clone? && calls[i].answer == Done && calls[j].DeleteSnapshot? ==>
          Freed(calls, i, j, calls[i].claim))
  }

  lemma RunDeletesItsOwn(req: Request, a: Answers)
    ensures DeletesItsOwn(RunCalls(req, a))
  {
    RunIsEnsureAndRest(req, a);
    EnsureDeletesItsOwn(req, a.cutting);
    EnsureMakes(req, a.cutting);
    RestDeletesItsOwn(req, a);
    OwnJoined(EnsureCalls(req, a.cutting), AfterEnsure(req, a), NewSnapshot(req));
  }

  /** A snapshot the user named is never deleted, whatever it is called. */
  lemma GivenSnapshotSurvives(req: Request, a: Answers)
    requires req.fromSnapshot.Some?
    ensures forall c <- RunCalls(req, a) :: !c.DeleteSnapshot?
  {
    RunDeletesItsOwn(req, a);
    RunIsEnsureAndRest(req, a);
    RestIsLate(req, a);
    assert forall c <- RunCalls(req, a) :: !c.Create?;
  }

  predicate NoClones(calls: seq<Call>) {
    forall i :: 0 <= i < |calls| ==> !calls[i].Clone? && !calls[i].DeleteClaim?
  }

  lemma EnsureDeletesItsOwn(req: Request, a: CutAnswers)
    ensures DeletesItsOwn(EnsureCalls(req, a))
    ensures NoClones(EnsureCalls(req, a))
  {
    EnsureMakes(req, a);
    UndoIsOwn(EnsureCalls(req, a), if req.flush.NoFlush? then 1 else 2, NewSnapshot(req));
  }

  /** Where the snapshot is made, and that only it is deleted, afterwards. */
  lemma EnsureMakes(req: Request, a: CutAnswers)
    ensures NoClones(EnsureCalls(req, a))
    ensures var at := if req.flush.NoFlush? then 1 else 2;
            forall j :: 0 <= j < |EnsureCalls(req, a)| && EnsureCalls(req, a)[j].DeleteSnapshot? ==>
              at < j && EnsureCalls(req, a)[j].snapshot == NewSnapshot(req) &&
              EnsureCalls(req, a)[at] == Create(NewSnapshot(req), !req.keepSnapshot, Done)
    ensures var at := if req.flush.NoFlush? then 1 else 2;
            forall j :: 0 <= j < |EnsureCalls(req, a)| && EnsureCalls(req, a)[j].Create? ==>
              j == at && EnsureCalls(req, a)[j] == Create(NewSnapshot(req), !req.keepSnapshot, a.created)
    ensures EnsureOk(req, a) && req.fromSnapshot.None? ==>
              Made(EnsureCalls(req, a), |EnsureCalls(req, a)|, NewSnapshot(req))
  {
    var calls := EnsureCalls(req, a);
    if req.fromSnapshot.None? && a.checked {
      var at := if req.flush.NoFlush? then 1 else 2;
      assert a.created == Done && |calls| > at ==> calls[at] == Create(NewSnapshot(req), !req.keepSnapshot, Done);
    }
  }

  lemma UndoIsOwn(calls: seq<Call>, at: nat, snapshot: string)
    requires NoClones(calls)
    requires forall j :: 0 <= j < |calls| && calls[j].DeleteSnapshot? ==>
               at < j && calls[j].snapshot == snapshot &&
               calls[at].Create? && calls[at].snapshot == snapshot && calls[at].answer == Done
    ensures DeletesItsOwn(calls)
  {}

  /** After the snapshot is ensured, only it and the clone are deleted. */
  predicate OwnRest(rest: seq<Call>, snapshot: string, removes: bool) {
    && (forall j :: 0 <= j < |rest| && rest[j].DeleteSnapshot? ==> removes && rest[j].snapshot == snapshot)
    && (forall j :: 0 <= j < |rest| && rest[j].DeleteClaim? ==> Cloned(rest, j, rest[j].claim))
    && (forall i, j :: 0 <= i < j < |rest| && rest[i].Clone? && rest[i].answer == Done && rest[j].DeleteSnapshot? ==>
          Freed(rest, i, j, rest[i].claim))
  }

  lemma RestDeletesItsOwn(req: Request, a: Answers)
    ensures OwnRest(AfterEnsure(req, a), NewSnapshot(req), EnsureOk(req, a.cutting) && RemovesSnapshot(req))
  {
    var rest, removes := AfterEnsure(req, a), EnsureOk(req, a.cutting) && RemovesSnapshot(req);
    RestShape(req, a);
    if |rest| > 3 && rest[3].DeleteClaim? {
      assert forall j :: 3 < j < |rest| ==> Freed(rest, 1, j, CloneName(req));
      assert forall j :: 0 <= j < |rest| && rest[j].DeleteClaim? ==> Cloned(rest, j, CloneName(req));
    }
    assert OwnRest(rest, NewSnapshot(req), removes);
  }

  /** A clone that was made is the second call, and its deletion the fourth;
      nothing but the snapshot is deleted after it. */
  lemma RestShape(req: Request, a: Answers)
    ensures var rest := AfterEnsure(req, a); var removes := EnsureOk(req, a.cutting) && RemovesSnapshot(req);
            forall j :: 0 <= j < |rest| ==>
              && (rest[j].DeleteSnapshot? ==> removes && rest[j].snapshot == NewSnapshot(req))
              && (rest[j].DeleteClaim? ==>
                    j == 3 && rest[3].claim == CloneName(req) &&
                    rest[1] == Clone(CloneName(req), SnapshotName(req), Done))
              && (rest[j].Clone? ==> j == 1 && rest[1] == Clone(CloneName(req), SnapshotName(req), a.cloning.cloned))
              && (rest[j].Clone? && rest[1].answer == Done && |rest| > 3 ==>
                    rest[3].DeleteClaim? && rest[3].claim == CloneName(req) && !rest[2].DeleteSnapshot?)
  {}

  lemma OwnJoined(first: seq<Call>, rest: seq<Call>, snapshot: string)
    requires DeletesItsOwn(first) && NoClones(first)
    requires OwnRest(rest, snapshot, Made(first, |first|, snapshot))
    ensures DeletesItsOwn(first + rest)
  {
    var all, n := first + rest, |first|;
    forall j | 0 <= j < |all| && all[j].DeleteSnapshot? ensures Made(all, j, all[j].snapshot) {
      MadeLonger(first, rest, if j < n then j else n, j, all[j].snapshot);
    }
    forall j | 0 <= j < |all| && all[j].DeleteClaim? ensures Cloned(all, j, all[j].claim) {
      ClonedLater(first, rest, j - n, all[j].claim);
    }
    forall i, j | 0 <= i < j < |all| && all[i].Clone? && all[i].answer == Done && all[j].DeleteSnapshot?
      ensures Freed(all, i, j, all[i].claim)
    {
      FreedLater(first, rest, i - n, j - n, all[i].claim);
    }
  }

  lemma MadeLonger(first: seq<Call>, rest: seq<Call>, j: nat, later: nat, snapshot: string)
    requires Made(first, j, snapshot) && j <= later
    ensures Made(first + rest, later, snapshot)
  {
    var i :| 0 <= i < j && i < |first| && first[i].Create? && first[i].snapshot == snapshot && first[i].answer == Done;
    assert (first + rest)[i] == first[i];
  }

  lemma ClonedLater(first: seq<Call>, rest: seq<Call>, j: nat, claim: string)
    requires Cloned(rest, j, claim)
    ensures Cloned(first + rest, |first| + j, claim)
  {
    var i :| 0 <= i < j && i < |rest| && rest[i].Clone? && rest[i].claim == claim && rest[i].answer == Done;
    assert (first + rest)[|first| + i] == rest[i];
  }

  lemma FreedLater(first: seq<Call>, rest: seq<Call>, i: nat, j: nat, claim: string)
    requires Freed(rest, i, j, claim)
    ensures Freed(first + rest, |first| + i, |first| + j, claim)
  {
    var k :| i < k < j && k < |rest| && rest[k].DeleteClaim? && rest[k].claim == claim;
    assert (first + rest)[|first| + k] == rest[k];
  }
}
