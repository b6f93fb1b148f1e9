/** The cluster and the database a snapshot-backed run works against
    (internal/snapshot/snapshot.go and the database's side of internal/flush).
    Any call may fail, the storage system cuts a snapshot when it likes, a
    server may restart and a session may break at any time. */
module SnapshotWorld {
  import opened FlushClient
  import opened FlushPair
  import opened FlushSession
  import opened FlushSpec
  import opened Outcome
  import opened SnapshotCalls
  import opened Text
  import opened Trim

  /** A snapshot: whether it carries the run's label, whether the storage system
      has cut it, and whether the database was locked at that moment. */
  datatype Snap = Snap(instance: bool, cut: bool, locked: bool)

  /** Whether each snapshot carries the run's instance label. */
  function Instances(snapshots: map<string, Snap>): map<string, bool> {
    map s | s in snapshots :: snapshots[s].instance
  }

  lemma InstancesStay(m: map<string, Snap>, n: map<string, Snap>)
    requires m.Keys == n.Keys && forall s :: s in m ==> m[s].instance == n[s].instance
    ensures Instances(m) == Instances(n)
  {}

  lemma InstanceAdded(m: map<string, Snap>, name: string, snap: Snap)
    ensures Instances(m[name := snap]) == Instances(m)[name := snap.instance]
  {}

  lemma InstanceRemoved(m: map<string, Snap>, name: string)
    ensures Instances(m - {name}) == Instances(m) - {name}
  {}

  class World {
    const kind: Flush
    ghost const start: Objects
    var snapshots: map<string, Snap>
    var claims: map<string, Volume>
    var session: Session?        // the client a session kind keeps open
    var lock: Lock               // what that session was told to take
    var ran: Session?            // the client last started and waited for
    var count: nat               // the server's lock count, for a pair kind
    ghost var log: seq<Call>
    ghost var before: set<string>  // the snapshots there were at the quiesce
    ghost var leaked: nat          // the server's lock count at that time

    constructor (kind: Flush, snapshots: map<string, Snap>, claims: map<string, Volume>, count: nat)
      ensures Valid() && this.kind == kind && log == [] && session == null
      ensures this.snapshots == snapshots && this.claims == claims && this.count == count
    {
      this.kind, this.snapshots, this.claims, this.count := kind, snapshots, claims, count;
      start := Objects(Instances(snapshots), claims);
      session, lock, ran, log, before, leaked := null, READ_LOCK, null, [], {}, 0;
    }

    ghost function Existing(): Objects
      reads this
    {
      Objects(Instances(snapshots), claims)
    }

    ghost predicate Valid()
      reads this, session
    {
      && (session != null ==> session.Valid())
      && Existing() == Replay(start, log)
    }

    // ---- the lock

    predicate LockHeld()
      reads this, session
    {
      match kind
      case SessionKind => session != null && session.client.held != Nothing
      case PairKind => count > 0
      case _ => false
    }

    /** The lock was confirmed, and nothing but time has passed since. */
    ghost predicate Guarded()
      reads this, session
    {
      match kind
      case SessionKind => session != null && lock in LOCKS && Confirmed(session.client, lock)
      case PairKind => count == 0 || count == leaked + 1
      case _ => true
    }

    /** The server was told what --flush asks for, by a client that was given the
        password: one that holds the lock it calls for, or one that ran to its
        end and well. */
    ghost predicate Obeyed(password: Option<string>)
      reads this, session, ran
    {
      match kind
      case NoFlush => true
      case SessionKind => session != null && Chosen(session.output, lock) && session.LoggedIn(password)
      case _ => RanWell(ran, password)
    }

    /** What held the lock is gone, and the release will tell. */
    ghost predicate Broken()
      reads this, session
    {
      match kind
      case SessionKind => session == null || !Alive(session.client)
      case PairKind => count == 0
      case _ => true
    }

    /** A snapshot cut since the quiesce was cut under the lock, or the lock has
        broken. */
    ghost predicate Protected()
      reads this, session
    {
      Guarded() &&
      forall s :: s in snapshots && s !in before && snapshots[s].cut && !snapshots[s].locked ==> Broken()
    }

    /** Only time has passed for the database. */
    twostate predicate LeftAlone()
      reads this, session
    {
      && session == old(session) && lock == old(lock) && leaked == old(leaked) && before == old(before)
      && (session != null ==> Later(old(session.client), session.client))
      && (count == old(count) || count == 0)
    }

    /** A snapshot once cut stays as it was cut. */
    twostate predicate CutsStay()
      reads this
    {
      forall s :: s in old(snapshots) && old(snapshots)[s].cut && s in snapshots ==> snapshots[s] == old(snapshots)[s]
    }

    /** No snapshot is new, and those there are have kept their cut. */
    twostate predicate CutsKept()
      reads this
    {
      CutsStay() && snapshots.Keys <= old(snapshots.Keys)
    }

    twostate lemma BrokenStays()
      requires LeftAlone() && old(Guarded())
      requires session != null ==> session.Valid()
      ensures Guarded() && (old(Broken()) ==> Broken()) && (LockHeld() || Broken())
    {
      if kind == SessionKind {
        ConfirmedHolds(old(session.client), session.client, lock);
      }
    }

    /** The database goes on by itself; a restart drops every lock it counted. */
    method PassInDatabase()
      requires Valid()
      modifies this`count, session
      ensures Valid() && LeftAlone()
      ensures old(Guarded()) ==> Guarded() && (old(Broken()) ==> Broken()) && (LockHeld() || Broken())
    {
      if session != null {
        session.Pass(false);
      }
      var restarts: bool := *;
      if restarts {
        count := 0;
      }
      if old(Guarded()) {
        BrokenStays();
      }
    }

    /** The storage system cuts what snapshots it likes. */
    method CutSome()
      requires Valid()
      modifies this`snapshots
      ensures Valid() && CutsStay() && snapshots.Keys == old(snapshots.Keys)
      ensures forall s :: s in snapshots && snapshots[s] != old(snapshots)[s] ==> snapshots[s].locked == LockHeld()
    {
      var cuts: set<string> := *;
      var held := LockHeld();
      snapshots := map s | s in snapshots ::
        if s in cuts && !snapshots[s].cut then snapshots[s].(cut := true, locked := held) else snapshots[s];
      InstancesStay(old(snapshots), snapshots);
    }

    /** Time passes. */
    method Pass()
      requires Valid()
      modifies this`snapshots, this`count, session
      ensures Valid() && LeftAlone() && CutsStay() && snapshots.Keys == old(snapshots.Keys)
      ensures old(Protected()) ==> Protected()
    {
      PassInDatabase();
      CutSome();
    }

    // ---- the calls the program makes

    /** A call was answered: time passed, and the call is on record. */
    twostate predicate Called(call: Call)
      reads this, session
    {
      LeftAlone() && CutsStay() && log == old(log) + [call]
    }

    method CheckClass() returns (ok: bool)
      requires Valid()
      modifies this, session
      ensures Valid() && Called(Call.CheckClass(ok)) && snapshots.Keys == old(snapshots.Keys)
      ensures claims == old(claims)
      ensures old(Protected()) ==> Protected()
    {
      Pass();
      ok := *;
      Noted(start, log, Call.CheckClass(ok));
      log := log + [Call.CheckClass(ok)];
    }

    method Create(name: string, instance: bool) returns (answer: Answer)
      requires Valid()
      modifies this, session
      ensures Valid() && Called(Call.Create(name, instance, answer))
      ensures claims == old(claims)
      ensures answer != Refused ==> name !in old(snapshots) && name in snapshots
      ensures old(Protected()) ==> Protected()
    {
      Pass();
      answer := *;
      if name in snapshots {
        answer := Refused;
      }
      InstanceAdded(snapshots, name, Snap(instance, false, false));
      if answer != Refused {
        snapshots := snapshots[name := Snap(instance, false, false)];
      }
      Noted(start, log, Call.Create(name, instance, answer));
      log := log + [Call.Create(name, instance, answer)];
    }

    /** Polls until the snapshot is seen to be cut. A read may fail, and may not
        yet show what has happened. */
    method WaitForCut(name: string, timeout: nat) returns (ok: bool)
      requires Valid()
      modifies this, session
      ensures Valid() && Called(WaitCut(name, ok)) && snapshots.Keys == old(snapshots.Keys)
      ensures claims == old(claims)
      ensures ok ==> name in snapshots && snapshots[name].cut
      ensures old(Protected()) ==> Protected()
    {
      ok := false;
      var polls := timeout;
      while polls > 0 && !ok
        invariant Valid() && LeftAlone() && CutsStay() && log == old(log) && snapshots.Keys == old(snapshots.Keys)
        invariant claims == old(claims)
        invariant ok ==> name in snapshots && snapshots[name].cut
        invariant old(Protected()) ==> Protected()
        decreases polls
      {
        Pass();
        var read: bool, shown: bool := *, *;
        if !read || name !in snapshots {
          break;
        }
        ok := snapshots[name].cut && shown;
        polls := polls - 1;
      }
      Noted(start, log, WaitCut(name, ok));
      log := log + [WaitCut(name, ok)];
    }

    /** As above, for a snapshot ready to be cloned from. */
    method WaitReady(name: string, timeout: nat) returns (ok: bool)
      requires Valid()
      modifies this, session
      ensures Valid() && Called(Call.WaitReady(name, ok)) && snapshots.Keys == old(snapshots.Keys)
      ensures claims == old(claims)
    {
      ok := false;
      var polls := timeout;
      while polls > 0 && !ok
        invariant Valid() && LeftAlone() && CutsStay() && log == old(log) && snapshots.Keys == old(snapshots.Keys)
        invariant claims == old(claims)
        decreases polls
      {
        Pass();
        var read: bool, ready: bool := *, *;
        if !read || name !in snapshots {
          break;
        }
        ok := ready;
        polls := polls - 1;
      }
      Noted(start, log, Call.WaitReady(name, ok));
      log := log + [Call.WaitReady(name, ok)];
    }

    method Clone(claim: string, snapshot: string) returns (answer: Answer)
      requires Valid()
      modifies this, session
      ensures Valid() && Called(Call.Clone(claim, snapshot, answer)) && snapshots.Keys == old(snapshots.Keys)
      ensures answer != Refused ==> claim !in old(claims)
      ensures claims == if answer == Refused then old(claims) else old(claims)[claim := CloneOf(snapshot)]
    {
      Pass();
      answer := *;
      if claim in claims {
        answer := Refused;
      }
      if answer != Refused {
        claims := claims[claim := CloneOf(snapshot)];
      }
      Noted(start, log, Call.Clone(claim, snapshot, answer));
      log := log + [Call.Clone(claim, snapshot, answer)];
    }

    method Lookup(claim: string) returns (ok: bool)
      requires Valid()
      modifies this, session
      ensures Valid() && Called(Call.Lookup(claim, ok)) && snapshots.Keys == old(snapshots.Keys)
      ensures claims == old(claims)
    {
      Pass();
      ok := *;
      Noted(start, log, Call.Lookup(claim, ok));
      log := log + [Call.Lookup(claim, ok)];
    }

    /** Deleting what is not there succeeds. */
    method DeleteClaim(claim: string) returns (answer: Answer)
      requires Valid()
      modifies this, session
      ensures Valid() && Called(Call.DeleteClaim(claim, answer)) && snapshots.Keys == old(snapshots.Keys)
    {
      Pass();
      answer := *;
      if answer != Refused {
        claims := claims - {claim};
      }
      Noted(start, log, Call.DeleteClaim(claim, answer));
      log := log + [Call.DeleteClaim(claim, answer)];
    }

    method DeleteSnapshot(name: string) returns (answer: Answer)
      requires Valid()
      modifies this, session
      ensures Valid() && Called(Call.DeleteSnapshot(name, answer)) && snapshots.Keys <= old(snapshots.Keys)
      ensures claims == old(claims)
      ensures old(Protected()) ==> Protected()
    {
      Pass();
      answer := *;
      InstanceRemoved(snapshots, name);
      if answer != Refused {
        snapshots := snapshots - {name};
      }
      Noted(start, log, Call.DeleteSnapshot(name, answer));
      log := log + [Call.DeleteSnapshot(name, answer)];
    }

    // ---- taking the lock

    /** A client started for one exec and waited for. */
    method Run(password: Option<string>) returns (ok: bool)
      modifies this`ran
      ensures ok ==> fresh(ran) && RanWell(ran, password)
    {
      var opens: bool := *;
      if !opens {
        return false;
      }
      var once := new Session.Open();
      if password.Some? {
        var failed := once.WriteSecret(password.value);
        if failed.Some? {
          var _ := once.Close();
          return false;
        }
      }
      var exit := once.Close();
      ran := once;
      ok := exit == Success;
    }

    method QuiesceSession(password: Option<string>, deadline: nat) returns (ok: bool)
      requires Valid()
      modifies this`session, this`lock
      ensures Valid() && (session == old(session) || fresh(session))
      ensures ok ==> session != null && lock in LOCKS && Confirmed(session.client, lock)
      ensures ok ==> Chosen(session.output, lock) && session.LoggedIn(password)
      ensures !ok && session != old(session) ==> session != null && session.phase.Reported?
    {
      var client, taken := OpenLocked(password, deadline);
      if client != null {
        session := client;
      }
      ok := taken.Some?;
      if ok {
        lock := taken.value;
      }
    }

    method QuiescePair(password: Option<string>) returns (ok: bool)
      requires Valid()
      modifies this`count, this`leaked, this`ran, session
      ensures Valid() && session == old(session)
      ensures ok ==> count == 0 || count == leaked + 1
      ensures ok ==> fresh(ran) && RanWell(ran, password)
    {
      PassInDatabase();
      leaked := count;
      var takes: bool := *;
      if takes {
        count := count + 1;
      }
      var exits := Run(password);
      var banner := Banner(LOCK_MARKER);
      var message := Banner(LOCK_MARKER);
      LockMarkerMeansTaken(banner, takes, message);
      ok := exits && Contains(LockOutput(banner, takes, message), LOCK_MARKER);
      PassInDatabase();
    }

    /** The lock of the kind that --flush asks for. */
    method Hold(password: Option<string>, deadline: nat) returns (ok: bool)
      requires Valid() && !kind.NoFlush?
      modifies this`session, this`lock, this`count, this`leaked, this`ran, session
      ensures Valid() && (session == old(session) || fresh(session))
      ensures !kind.SessionKind? ==> session == old(session)
      ensures !ok && session != old(session) ==> session != null && session.phase.Reported?
      ensures ok ==> Guarded() && Obeyed(password)
      ensures ok && !kind.SessionKind? ==> fresh(ran)
    {
      match kind {
        case SessionKind => ok := QuiesceSession(password, deadline);
        case OneShotKind => ok := Run(password);
        case PairKind => ok := QuiescePair(password);
      }
    }

    // ---- releasing it

    /** The unlock, end of input, and the exit that tells how it went. */
    method ReleaseSession() returns (ok: bool)
      requires Valid() && session != null
      modifies session
      ensures Valid() && session.phase.Reported?
      ensures ok && lock in LOCKS && old(Confirmed(session.client, lock)) ==>
                old(Alive(session.client)) && Unlocked(session.client, lock)
    {
      ghost var held, written, after := session.client, session.client, session.client;
      var failed;
      failed, written := session.Write(lock.unlock);
      after := session.client;
      var exit := session.Close();
      ok := failed.None? && exit == Success;
      if ok && Confirmed(held, lock) {
        CleanVouches(held, written, after, session.client, lock.unlock);
        if lock in LOCKS {
          CleanIsUnlocked(held, written, after, session.client, lock);
        }
      }
    }

    /** Undoes one lock, if there is one, and reads what that leaves. */
    method ReleasePair(password: Option<string>) returns (ok: bool)
      requires Valid()
      modifies this`count, this`ran, session
      ensures Valid() && session == old(session)
      ensures ok ==> old(count) == 1 && count == 0
      ensures ok ==> fresh(ran) && RanWell(ran, password)
    {
      PassInDatabase();
      var undoes: bool := *;
      var left := None;
      if undoes && count > 0 {
        count := count - 1;
        left := Some(count);
      }
      var exits := Run(password);
      var banner := Banner(RELEASE_MARKER);
      ReleaseMarkerMeansNone(banner, left);
      ok := exits && Contains(ReleaseOutput(banner, left), RELEASE_MARKER);
    }

    // ---- both, as the run sees them

    /** Takes the database's lock if --flush asks for it, and hands back what
        releases it. */
    method Quiesce(password: Option<string>, deadline: nat) returns (unlock: Option<Unlocker>)
      requires Valid()
      modifies this, session
      ensures Valid() && (session == old(session) || fresh(session))
      ensures snapshots == old(snapshots) && claims == old(claims)
      ensures log == old(log) + (if kind.NoFlush? then [] else [Call.Quiesce(unlock.Some?)])
      ensures kind.NoFlush? ==> unlock.Some?
      ensures !kind.SessionKind? ==> session == old(session)
      ensures unlock.None? && session != old(session) ==> session != null && session.phase.Reported?
      ensures unlock.Some? ==> fresh(unlock.value) && !unlock.value.released
      ensures unlock.Some? ==> Protected() && before == snapshots.Keys && (kind.SessionKind? ==> session != null)
      ensures unlock.Some? && !kind.NoFlush? ==> Obeyed(password) && (!kind.SessionKind? ==> fresh(ran))
    {
      before := snapshots.Keys;
      if kind.NoFlush? {
        var none := new Unlocker();
        return Some(none);
      }
      var prepared: bool := *;
      if prepared {
        prepared := Hold(password, deadline);
      }
      Noted(start, log, Call.Quiesce(prepared));
      log := log + [Call.Quiesce(prepared)];
      if !prepared {
        return None;
      }
      var release := new Unlocker();
      unlock := Some(release);
    }

    /** The release itself. If it succeeds, the lock was there all along. */
    method ReleaseLock(password: Option<string>) returns (ok: bool)
      requires Valid() && (kind.SessionKind? ==> session != null)
      modifies this, session
      ensures Valid() && session == old(session) && claims == old(claims) && before == old(before)
      ensures CutsStay() && snapshots.Keys == old(snapshots.Keys)
      ensures log == old(log) + [Call.Release(ok)]
      ensures kind.SessionKind? ==> session.phase.Reported?
      ensures ok && old(Protected()) ==> old(Unbroken())
      ensures ok && kind.PairKind? && old(Protected()) ==> leaked == 0 && count == 0
    {
      ok := true;
      if kind.SessionKind? {
        ok := ReleaseSession();
      } else if kind.PairKind? {
        ok := ReleasePair(password);
      }
      CutSome();
      Noted(start, log, Call.Release(ok));
      log := log + [Call.Release(ok)];
    }

    /** Every snapshot cut since the quiesce was cut while the database was
        locked. */
    ghost predicate Unbroken()
      reads this, session
    {
      kind.SessionKind? || kind.PairKind? ==>
        forall s :: s in snapshots && s !in before && snapshots[s].cut ==> snapshots[s].locked
    }

    /** Calling it again does nothing, so a deferred call may follow. */
    method Unlock(unlock: Unlocker, password: Option<string>) returns (ok: bool)
      requires Valid() && (kind.SessionKind? ==> session != null)
      modifies this, session, unlock
      ensures Valid() && session == old(session) && claims == old(claims) && before == old(before)
      ensures CutsStay() && snapshots.Keys == old(snapshots.Keys)
      ensures kind.NoFlush? || old(unlock.released) ==>
                ok && unlock.released == old(unlock.released) && log == old(log) &&
                snapshots == old(snapshots) && count == old(count) && leaked == old(leaked) &&
                (session != null ==> session.phase == old(session.phase))
      ensures !kind.NoFlush? && !old(unlock.released) ==>
                unlock.released && log == old(log) + [Call.Release(ok)] &&
                (kind.SessionKind? ==> session.phase.Reported?) &&
                (ok && old(Protected()) ==> old(Unbroken()) && (kind.PairKind? ==> leaked == 0 && count == 0))
    {
      if kind.NoFlush? || unlock.released {
        return true;
      }
      unlock.released := true;
      ok := ReleaseLock(password);
    }
  }

  /** The function a quiesce hands back. */
  class Unlocker {
    var released: bool

    constructor ()
      ensures !released
    {
      released := false;
    }
  }

  /** A client that was told the password, if there is one, and then ended by
      itself and well. */
  ghost predicate RanWell(client: Session?, password: Option<string>)
    reads client
  {
    client != null && client.LoggedIn(password) && Clean(client.client)
  }

  /** What a client prints of its own, which does not hold the marker. */
  method Banner(marker: string) returns (banner: string)
    requires marker != ""
    ensures !Contains(banner, marker)
  {
    TooShort("", marker);
    banner :| !Contains(banner, marker);
  }

  /** The password, if there is one to send. */
  method LogIn(session: Session, password: Option<string>) returns (ok: bool)
    requires session.Valid() && session.client == STARTED && session.secrets == []
    modifies session
    ensures session.Valid() && !session.client.eof && Fed(session.client, [])
    ensures ok ==> session.LoggedIn(password)
  {
    ok := true;
    if password.Some? {
      var failed := session.WriteSecret(password.value);
      ok := failed.None?;
    }
  }

  /** One statement on its way to a client that was fed the script before. */
  method Feed(session: Session, statement: string, ghost script: seq<string>) returns (sent: bool)
    requires session.Valid() && !session.client.eof && Fed(session.client, script)
    modifies session
    ensures session.Valid() && !session.client.eof && old(session.output) <= session.output
    ensures session.secrets == old(session.secrets)
    ensures sent ==> Fed(session.client, script + [statement])
  {
    ghost var was, at := session.client, session.client;
    var failed;
    failed, at := session.Write(statement);
    sent := failed.None?;
    FedFurther(was, at, script, statement);
    if sent {
      FedFurther(Deliver(at, statement), session.client, script + [statement], "");
    }
  }

  /** The lock that fits what the server answered. */
  method ChooseLock(session: Session, deadline: nat) returns (lock: Option<Lock>)
    requires session.Valid() && !session.client.eof && Fed(session.client, [])
    modifies session
    ensures session.Valid() && !session.client.eof
    ensures session.secrets == old(session.secrets)
    ensures lock.Some? ==> lock.value in LOCKS && Fed(session.client, [IDENTIFY])
    ensures lock.Some? ==> Chosen(session.output, lock.value)
  {
    var sent := Feed(session, IDENTIFY, []);
    if !sent {
      return None;
    }
    ghost var fed := session.client;
    assert [] + [IDENTIFY] == [IDENTIFY];
    var failed := session.WaitFor(IDENTITY_END, deadline);
    if failed.Some? {
      return None;
    }
    FedFurther(fed, session.client, [IDENTIFY], "");
    var identity := ParseIdentity(TrimSpace(session.output));
    lock := if identity.Ok? then ChooseMySQLLock(identity.value) else None;
    LockForIsChosen(session.output);
  }

  /** Sends the lock and the probe, and waits for the marker. */
  method TakeLock(session: Session, lock: Lock, deadline: nat) returns (ok: bool)
    requires session.Valid() && !session.client.eof && Fed(session.client, [IDENTIFY]) && lock in LOCKS
    modifies session
    ensures session.Valid() && old(session.output) <= session.output
    ensures session.secrets == old(session.secrets)
    ensures ok ==> Confirmed(session.client, lock)
  {
    var statements := [lock.statement, PROBE];
    assert [IDENTIFY] + statements[..0] == [IDENTIFY];
    for i := 0 to 2
      invariant session.Valid() && !session.client.eof && Fed(session.client, [IDENTIFY] + statements[..i])
      invariant old(session.output) <= session.output && session.secrets == old(session.secrets)
    {
      var sent := Feed(session, statements[i], [IDENTIFY] + statements[..i]);
      assert [IDENTIFY] + statements[..i] + [statements[i]] == [IDENTIFY] + statements[..i + 1];
      if !sent {
        return false;
      }
    }
    assert [IDENTIFY] + statements[..2] == Script(lock);
    ghost var fed := session.client;
    var failed := session.WaitFor(MARKER, deadline);
    FedFurther(fed, session.client, Script(lock), "");
    ok := failed.None?;
    if ok {
      MarkerConfirms(session.client, lock);
    }
  }

  /** A client with the lock its server calls for, or one that was closed again,
      or none. */
  method OpenLocked(password: Option<string>, deadline: nat) returns (client: Session?, taken: Option<Lock>)
    ensures client != null ==> fresh(client) && client.Valid()
    ensures taken.Some? ==>
              client != null && taken.value in LOCKS && Confirmed(client.client, taken.value) &&
              Chosen(client.output, taken.value) && client.LoggedIn(password)
    ensures taken.None? && client != null ==> client.phase.Reported?
  {
    var opens: bool := *;
    if !opens {
      return null, None;
    }
    client := new Session.Open();
    var ok := LogIn(client, password);
    taken := None;
    if ok {
      taken := LockSession(client, deadline);
    }
    if taken.None? {
      var _ := client.Close();
    }
  }

  /** The lock chosen for the server, taken. */
  method LockSession(session: Session, deadline: nat) returns (taken: Option<Lock>)
    requires session.Valid() && !session.client.eof && Fed(session.client, [])
    modifies session
    ensures session.Valid()
    ensures session.secrets == old(session.secrets)
    ensures taken.Some? ==> taken.value in LOCKS && Confirmed(session.client, taken.value)
    ensures taken.Some? ==> Chosen(session.output, taken.value)
  {
    var chosen := ChooseLock(session, deadline);
    if chosen.None? {
      return None;
    }
    ghost var said := session.output;
    var ok := TakeLock(session, chosen.value, deadline);
    ChosenLater(said, session.output, chosen.value);
    taken := if ok then chosen else None;
  }

  lemma Noted(o: Objects, log: seq<Call>, call: Call)
    ensures Replay(o, log + [call]) == Apply(Replay(o, log), call)
  {
    ReplayAppend(o, log, [call]);
    Replay1(Replay(o, log), call);
  }
}
