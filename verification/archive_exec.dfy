/** What running the built commands guarantees, whatever every program answers
    and wherever the link breaks. */
module ArchiveExec {
  import opened Outcome
  import opened ShellLexer
  import opened ShellSyntax
  import opened ShellExec
  import opened ArchiveWords
  import opened ArchiveNames
  import opened ArchiveParts
  import T = TransferCommand
  import A = ArchiveCommand
  import S = StreamCommand
  import GoPath

  const FRESH := Shell(false, false, [])

  /** This run of a program, on this side, is in the log with status 0. */
  ghost predicate Succeeded(log: seq<Ran>, argv: seq<string>, remote: bool) {
    exists i :: 0 <= i < |log| && log[i].status == 0 && log[i].remote == remote && Args(log[i].command) == Some(argv)
  }

  /** Wherever the program appears in the log, the destination had been made
      before it on the same side, and emptied when asked. */
  ghost predicate Guarded(log: seq<Ran>, argv: seq<string>, path: string, clean: bool) {
    forall i :: 0 <= i < |log| && Args(log[i].command) == Some(argv) ==>
      Succeeded(log[..i], MkdirArgs(path), log[i].remote) &&
      (clean ==> Succeeded(log[..i], CleanArgs(path), log[i].remote))
  }

  ghost predicate Appears(log: seq<Ran>, argv: seq<string>) {
    exists i :: 0 <= i < |log| && Args(log[i].command) == Some(argv)
  }

  /** Two tars that are not the same program. */
  predicate TwoTars(x: seq<string>, y: seq<string>) {
    |x| >= 2 && |y| >= 2 && x[0] == "tar" && y[0] == "tar" && x[1] != y[1]
  }

  // ---- single commands

  /** A program that is neither `set -o pipefail` nor an ssh. */
  predicate Ordinary(c: Command) { !IsSetPipefail(c) && !IsSsh(c) }

  lemma OrdinaryRuns(c: Command, sh: Shell, os: Os, hops: nat)
    requires Ordinary(c)
    ensures EvalPipeline([c], sh, os, hops) == EvalCommand(c, sh, os, hops) == Record(sh, c, os(|sh.log|, c))
  {}

  lemma ProgramIsOrdinary(c: Command, argv: seq<string>)
    requires Is(c, argv) && argv != [] && argv[0] != "ssh" && argv[0] != "set"
    ensures Ordinary(c)
  {
    ArgsFields(c.words, argv);
    assert argv != ["set", "-o", "pipefail"];
  }

  lemma ArgsDiffer(c: Command, d: seq<string>, e: seq<string>)
    requires Is(c, d) && |d| >= 2 && |e| >= 2 && (d[0] != e[0] || d[1] != e[1])
    ensures Args(c) != Some(e)
  {}

  /** `set -o pipefail` as a list of its own changes the shell for what follows. */
  lemma PipefailSet(t: Tree, os: Os, hops: nat)
    requires |t| >= 2 && T.SetsPipefail(t[0])
    ensures EvalTree(t, FRESH, os, hops) == EvalTree(t[1..], FRESH.(pipefail := true), os, hops)
  {
    var c := t[0][0][0];
    assert EvalPipeline(t[0][0], FRESH, os, hops) == EvalCommand(c, FRESH, os, hops);
    assert EvalAnd(t[0], FRESH, os, hops) == EvalPipeline(t[0][0], FRESH, os, hops);
  }

  // ---- pipelines of two under pipefail

  lemma PipeOfTwo(p: Pipeline, sh: Shell, os: Os, hops: nat)
    requires |p| == 2 && sh.pipefail
    ensures var a := EvalCommand(p[0], sh, os, hops);
            var b := EvalCommand(p[1], sh.(log := a.shell.log), os, hops);
            var r := EvalPipeline(p, sh, os, hops);
            r.shell == sh.(log := b.shell.log) && (r.status == 0 <==> a.status == 0 && b.status == 0)
  {
    AllOfTwo(p, sh, os, hops);
    PipefailZero(EvalAll(p, sh, os, hops).1);
  }

  /** Two commands, the second behind the first's log. */
  lemma AllOfTwo(p: Pipeline, sh: Shell, os: Os, hops: nat)
    requires |p| == 2
    ensures var a := EvalCommand(p[0], sh, os, hops);
            var b := EvalCommand(p[1], sh.(log := a.shell.log), os, hops);
            EvalAll(p, sh, os, hops) == (b.shell.log, [a.status, b.status])
  {
    var a := EvalCommand(p[0], sh, os, hops);
    var sh1 := sh.(log := a.shell.log);
    var b := EvalCommand(p[1], sh1, os, hops);
    assert p[1..] == [p[1]] && [p[1]][1..] == [];
    assert EvalAll([], sh1.(log := b.shell.log), os, hops) == (b.shell.log, []);
    assert EvalAll([p[1]], sh1, os, hops) == (b.shell.log, [b.status] + []);
    assert [a.status] + ([b.status] + []) == [a.status, b.status];
  }

  // ---- prepare lists

  /** The log once the guards have all answered 0. */
  function Passed(a: AndList, clean: bool, sh: Shell): seq<Ran>
    requires |a| == Guards(clean) + 1 && |a[0]| == 1 && (clean ==> |a[1]| == 1)
  {
    sh.log + [Ran(a[0][0], 0, sh.remote)] + (if clean then [Ran(a[1][0], 0, sh.remote)] else [])
  }

  predicate OnlyGuards(log: seq<Ran>, path: string) {
    forall i :: 0 <= i < |log| ==> Is(log[i].command, MkdirArgs(path)) || Is(log[i].command, CleanArgs(path))
  }

  lemma GuardsAreOrdinary(a: AndList, path: string, clean: bool)
    requires Prepares(a, path, clean)
    ensures Ordinary(a[0][0]) && (clean ==> Ordinary(a[1][0]))
  {
    assert MkdirArgs(path)[0] == "mkdir" && CleanArgs(path)[0] == "find";
    ProgramIsOrdinary(a[0][0], MkdirArgs(path));
    if clean {
      ProgramIsOrdinary(a[1][0], CleanArgs(path));
    }
  }

  /** An and-list of ordinary commands goes on behind one that answers 0. */
  lemma GoesOn(a: AndList, sh: Shell, os: Os, hops: nat)
    requires |a| >= 2 && |a[0]| == 1 && Ordinary(a[0][0])
    ensures var p := Ran(a[0][0], os(|sh.log|, a[0][0]), sh.remote);
            EvalAnd(a, sh, os, hops) ==
            if p.status == 0 then EvalAnd(a[1..], sh.(log := sh.log + [p]), os, hops)
            else After(sh.(log := sh.log + [p]), p.status)
  {
    OrdinaryRuns(a[0][0], sh, os, hops);
    assert a[0] == [a[0][0]];
  }

  /** Either a guard answers something else and the list ends there, or the
      last pipeline runs behind guards that all answered 0. */
  lemma PreparedRuns(a: AndList, path: string, clean: bool, sh: Shell, os: Os, hops: nat)
    requires Prepares(a, path, clean)
    ensures var r := EvalAnd(a, sh, os, hops);
            || r == EvalPipeline(a[Guards(clean)], sh.(log := Passed(a, clean, sh)), os, hops)
            || (r.status != 0 && |r.shell.log| > |sh.log| && sh.log <= r.shell.log &&
                r.shell.pipefail == sh.pipefail && r.shell.remote == sh.remote &&
                OnlyGuards(r.shell.log[|sh.log|..], path))
  {
    GuardsAreOrdinary(a, path, clean);
    GoesOn(a, sh, os, hops);
    var p := Ran(a[0][0], os(|sh.log|, a[0][0]), sh.remote);
    GuardLogged(sh.log, p, path);
    if clean {
      CleanRuns(a, path, sh.(log := sh.log + [p]), os, hops);
      var q := Ran(a[1][0], os(|sh.log| + 1, a[1][0]), sh.remote);
      BothLogged(sh.log, p, q, path);
    } else {
      assert a[1..] == [a[1]];
      assert sh.log + [p] + [] == sh.log + [p];
    }
  }

  lemma CleanRuns(a: AndList, path: string, sh: Shell, os: Os, hops: nat)
    requires |a| == 3 && |a[1]| == 1 && Ordinary(a[1][0])
    ensures var q := Ran(a[1][0], os(|sh.log|, a[1][0]), sh.remote);
            EvalAnd(a[1..], sh, os, hops) ==
            if q.status == 0 then EvalPipeline(a[2], sh.(log := sh.log + [q]), os, hops)
            else After(sh.(log := sh.log + [q]), q.status)
  {
    assert a[1..][1..] == [a[2]];
    GoesOn(a[1..], sh, os, hops);
  }

  lemma GuardLogged(log: seq<Ran>, p: Ran, path: string)
    requires Is(p.command, MkdirArgs(path))
    ensures OnlyGuards((log + [p])[|log|..], path) && log <= log + [p]
  {
    assert (log + [p])[|log|..] == [p];
  }

  lemma BothLogged(log: seq<Ran>, p: Ran, q: Ran, path: string)
    requires Is(p.command, MkdirArgs(path)) && Is(q.command, CleanArgs(path))
    ensures OnlyGuards((log + [p] + [q])[|log|..], path) && log <= log + [p] + [q]
  {
    assert (log + [p] + [q])[|log|..] == [p, q];
  }

  // ---- the far side of an ssh

  /** An ssh either never reached its target, or ran the whole remote script and
      answers 0 only if the script did. */
  lemma SshRuns(c: Command, sh: Shell, os: Os)
    requires IsSsh(c) && !IsSetPipefail(c) && RemoteScript(c).Some?
    ensures var r := EvalCommand(c, sh, os, 1);
            var far := EvalTree(RemoteScript(c).value, Shell(false, true, sh.log), os, 0);
            || (r.status != 0 && r.shell == sh.(log := sh.log + [Ran(c, SSH_FAILED, sh.remote)]))
            || (r.shell == sh.(log := far.shell.log + [Ran(c, r.status, sh.remote)]) &&
                (r.status == 0 ==> far.status == 0))
  {}

  lemma AnnounceIsOrdinary(a: AndList, path: string)
    requires T.Announces(a, path)
    ensures Ordinary(a[0][0]) && Args(a[0][0]) == None
  {
    var words := a[0][0].words;
    assert words[2][0] == Sub(UsedText(path), true);
    assert Field(words[2]) == None;
    assert words[1..][1..] == [words[2]] && words[1..][0] == words[1];
    assert Collect(Field, words[1..][1..]) == None;
    assert Collect(Field, words[1..]) == None;
  }

  /** The announcement and the tar that creates, one after the other. */
  lemma CreateRuns(t: Tree, srcPath: string, x: seq<string>, sh: Shell, os: Os, hops: nat)
    requires T.CreateTree(t, srcPath, x) && x != [] && x[0] == "tar"
    ensures var r := EvalTree(t, sh, os, hops);
            var p := Ran(t[0][0][0], os(|sh.log|, t[0][0][0]), sh.remote);
            var q := Ran(t[1][0][0], os(|sh.log| + 1, t[1][0][0]), sh.remote);
            r == After(sh.(log := sh.log + [p] + [q]), q.status)
  {
    var announce, create := t[0][0][0], t[1][0][0];
    AnnounceIsOrdinary(t[0], srcPath);
    ProgramIsOrdinary(create, x);
    assert t[0][0] == [announce] && t[1][0] == [create];
    OneThenOne(t, announce, create, sh, os, hops);
  }

  /** Two lists of one ordinary command each. */
  lemma OneThenOne(t: Tree, a: Command, b: Command, sh: Shell, os: Os, hops: nat)
    requires |t| == 2 && |t[0]| == 1 && |t[1]| == 1 && t[0][0] == [a] && t[1][0] == [b] && Ordinary(a) && Ordinary(b)
    ensures var p := Ran(a, os(|sh.log|, a), sh.remote);
            var q := Ran(b, os(|sh.log| + 1, b), sh.remote);
            EvalTree(t, sh, os, hops) == After(sh.(log := sh.log + [p] + [q]), q.status)
  {
    OrdinaryRuns(a, sh, os, hops);
    var first := EvalAnd(t[0], sh, os, hops);
    assert first == EvalPipeline([a], sh, os, hops);
    OrdinaryRuns(b, first.shell, os, hops);
    assert t[1..] == [t[1]];
    assert EvalAnd(t[1], first.shell, os, hops) == EvalPipeline([b], first.shell, os, hops);
  }

  lemma SshIsNotSet(c: Command)
    requires IsSsh(c)
    ensures !IsSetPipefail(c)
  {
    if Args(c) == Some(["set", "-o", "pipefail"]) {
      ArgsFields(c.words, ["set", "-o", "pipefail"]);
    }
  }

  lemma SshArgsDiffer(c: Command, argv: seq<string>)
    requires IsSsh(c) && argv != [] && argv[0] == "tar"
    ensures Args(c) != Some(argv)
  {
    if Args(c) == Some(argv) {
      ArgsFields(c.words, argv);
    }
  }

  // ---- guards, read off the log

  lemma PassedSucceeds(a: AndList, path: string, clean: bool, sh: Shell)
    requires Prepares(a, path, clean)
    ensures Succeeded(Passed(a, clean, sh), MkdirArgs(path), sh.remote)
    ensures clean ==> Succeeded(Passed(a, clean, sh), CleanArgs(path), sh.remote)
  {
    var log := Passed(a, clean, sh);
    assert log[|sh.log|] == Ran(a[0][0], 0, sh.remote);
    if clean {
      assert log[|sh.log| + 1] == Ran(a[1][0], 0, sh.remote);
    }
  }

  lemma GuardedBy(log: seq<Ran>, guards: seq<Ran>, remote: bool, argv: seq<string>, path: string, clean: bool)
    requires guards <= log && Succeeded(guards, MkdirArgs(path), remote) &&
             (clean ==> Succeeded(guards, CleanArgs(path), remote))
    requires forall i :: 0 <= i < |log| && Args(log[i].command) == Some(argv) ==>
               i >= |guards| && log[i].remote == remote
    ensures Guarded(log, argv, path, clean)
  {
    forall i | 0 <= i < |log| && Args(log[i].command) == Some(argv)
      ensures Succeeded(log[..i], MkdirArgs(path), log[i].remote) &&
              (clean ==> Succeeded(log[..i], CleanArgs(path), log[i].remote))
    {
      var k :| 0 <= k < |guards| && guards[k].status == 0 && guards[k].remote == remote &&
        Args(guards[k].command) == Some(MkdirArgs(path));
      assert log[..i][k] == guards[k];
      if clean {
        var m :| 0 <= m < |guards| && guards[m].status == 0 && guards[m].remote == remote &&
                 Args(guards[m].command) == Some(CleanArgs(path));
        assert log[..i][m] == guards[m];
      }
    }
  }

  /** Neither guard is a tar. */
  lemma GuardsAreNotTar(c: Command, path: string, argv: seq<string>)
    requires Is(c, MkdirArgs(path)) || Is(c, CleanArgs(path))
    requires argv != [] && argv[0] == "tar"
    ensures Args(c) != Some(argv)
  {
    assert MkdirArgs(path)[0] == "mkdir" && CleanArgs(path)[0] == "find";
  }

  /** Entries in which a program does not appear. */
  predicate Without(log: seq<Ran>, argv: seq<string>) {
    forall i :: 0 <= i < |log| ==> Args(log[i].command) != Some(argv)
  }

  // ---- pull

  /** What a create tree adds to the log. */
  lemma CreateAdds(t: Tree, srcPath: string, x: seq<string>, y: seq<string>, sh: Shell, os: Os, hops: nat)
    returns (added: seq<Ran>)
    requires T.CreateTree(t, srcPath, x) && TwoTars(x, y)
    ensures var r := EvalTree(t, sh, os, hops);
            r.shell == sh.(log := sh.log + added) && Appears(added, x) &&
            (r.status == 0 ==> Succeeded(added, x, sh.remote))
    ensures Without(added, y)
  {
    CreateRuns(t, srcPath, x, sh, os, hops);
    AnnounceIsOrdinary(t[0], srcPath);
    ArgsDiffer(t[1][0][0], x, y);
    var p := Ran(t[0][0][0], os(|sh.log|, t[0][0][0]), sh.remote);
    var q := Ran(t[1][0][0], os(|sh.log| + 1, t[1][0][0]), sh.remote);
    added := [p] + [q];
    TwoRan(sh.log, p, q, x);
    assert added[1] == q;
  }

  lemma TwoRan(log: seq<Ran>, p: Ran, q: Ran, argv: seq<string>)
    ensures log + [p] + [q] == log + ([p] + [q])
    ensures q.status == 0 && Is(q.command, argv) ==> Succeeded([p] + [q], argv, q.remote)
  {
    assert ([p] + [q])[1] == q;
  }

  /** What an ssh adds, given what its remote script adds. */
  lemma SshAdds(ssh: Command, sh: Shell, os: Os, far: seq<Ran>, argv: seq<string>) returns (added: seq<Ran>)
    requires IsSsh(ssh) && RemoteScript(ssh).Some? && !sh.remote && argv != [] && argv[0] == "tar"
    requires EvalTree(RemoteScript(ssh).value, Shell(false, true, sh.log), os, 0).shell.log == sh.log + far
    ensures var r := EvalCommand(ssh, sh, os, 1);
            r.shell == sh.(log := sh.log + added) &&
            (r.status == 0 ==> EvalTree(RemoteScript(ssh).value, Shell(false, true, sh.log), os, 0).status == 0)
    ensures added == [Ran(ssh, SSH_FAILED, false)] ||
            added == far + [Ran(ssh, EvalCommand(ssh, sh, os, 1).status, false)]
    ensures EvalCommand(ssh, sh, os, 1).status == 0 ==> far <= added
    ensures Args(ssh) != Some(argv)
  {
    SshIsNotSet(ssh);
    SshRuns(ssh, sh, os);
    SshArgsDiffer(ssh, argv);
    var r := EvalCommand(ssh, sh, os, 1);
    if r.status != 0 && r.shell == sh.(log := sh.log + [Ran(ssh, SSH_FAILED, false)]) {
      added := [Ran(ssh, SSH_FAILED, false)];
    } else {
      added := far + [Ran(ssh, r.status, false)];
      assert (sh.log + far) + [Ran(ssh, r.status, false)] == sh.log + added;
    }
  }

  /** What an ssh that creates adds to the log. */
  lemma SshCreates(ssh: Command, srcPath: string, x: seq<string>, y: seq<string>, sh: Shell, os: Os)
    returns (added: seq<Ran>)
    requires !sh.remote && T.SshWithScript(ssh) && T.CreateTree(RemoteScript(ssh).value, srcPath, x) && TwoTars(x, y)
    ensures var r := EvalCommand(ssh, sh, os, 1);
            r.shell == sh.(log := sh.log + added) && (r.status == 0 ==> Succeeded(added, x, true))
    ensures Without(added, y)
  {
    var far := CreateAdds(RemoteScript(ssh).value, srcPath, x, y, Shell(false, true, sh.log), os, 0);
    added := SshAdds(ssh, sh, os, far, y);
    if EvalCommand(ssh, sh, os, 1).status == 0 {
      InFront(far, added, x, true);
    }
  }

  lemma InFront(front: seq<Ran>, log: seq<Ran>, argv: seq<string>, remote: bool)
    requires front <= log && Succeeded(front, argv, remote)
    ensures Succeeded(log, argv, remote)
  {
    var i :| 0 <= i < |front| && front[i].status == 0 && front[i].remote == remote &&
      Args(front[i].command) == Some(argv);
    assert log[i] == front[i];
  }

  /** A pipeline whose last command is the extract, behind any first command. */
  lemma PipeIntoTar(p: Pipeline, sh: Shell, os: Os, added: seq<Ran>, argv: seq<string>)
    requires |p| == 2 && sh.pipefail && Is(p[1], argv) && argv != [] && argv[0] == "tar"
    requires EvalCommand(p[0], sh, os, 1).shell == sh.(log := sh.log + added)
    ensures var r := EvalPipeline(p, sh, os, 1);
            var s := os(|sh.log + added|, p[1]);
            r.shell.log == sh.log + added + [Ran(p[1], s, sh.remote)] &&
            (r.status == 0 <==> s == 0 && EvalCommand(p[0], sh, os, 1).status == 0)
  {
    PipeOfTwo(p, sh, os, 1);
    ProgramIsOrdinary(p[1], argv);
    OrdinaryRuns(p[1], sh.(log := sh.log + added), os, 1);
  }

  /** Guards, then whatever does not hold the program, then the program: the
      whole log of a guarded pipeline that got that far. */
  lemma GuardedPipeline(a: AndList, path: string, clean: bool, sh: Shell, added: seq<Ran>, last: Ran, argv: seq<string>)
    requires Prepares(a, path, clean) && Without(sh.log, argv) && Without(added, argv) && last.remote == sh.remote
    requires argv != [] && argv[0] == "tar"
    ensures Guarded(Passed(a, clean, sh) + added + [last], argv, path, clean)
  {
    PassedSucceeds(a, path, clean, sh);
    var guards := Passed(a, clean, sh);
    var log := guards + added + [last];
    GuardsAreNotTar(a[0][0], path, argv);
    if clean {
      GuardsAreNotTar(a[1][0], path, argv);
    }
    GuardedBy(log, guards, sh.remote, argv, path, clean);
  }

  lemma WithoutIsGuarded(log: seq<Ran>, argv: seq<string>, path: string, clean: bool)
    requires Without(log, argv)
    ensures Guarded(log, argv, path, clean)
  {}

  lemma FailedGuards(before: seq<Ran>, log: seq<Ran>, path: string, argv: seq<string>)
    requires before <= log && OnlyGuards(log[|before|..], path) && Without(before, argv) && argv != [] &&
             argv[0] == "tar"
    ensures Without(log, argv)
  {
    forall i | 0 <= i < |log| ensures Args(log[i].command) != Some(argv) {
      if i >= |before| {
        assert log[i] == log[|before|..][i - |before|];
        GuardsAreNotTar(log[i].command, path, argv);
      } else {
        assert log[i] == before[i];
      }
    }
  }

  /** A prepare list that ends in a pipeline into tar: what it logs, and that
      tar is guarded. */
  lemma PreparedPipe(a: AndList, path: string, clean: bool, sh: Shell, os: Os, added: seq<Ran>, argv: seq<string>)
    requires Prepares(a, path, clean) && sh.pipefail && Without(sh.log, argv) && Without(added, argv)
    requires argv != [] && argv[0] == "tar" && |a[Guards(clean)]| == 2 && Is(a[Guards(clean)][1], argv)
    requires var sh1 := sh.(log := Passed(a, clean, sh));
             EvalCommand(a[Guards(clean)][0], sh1, os, 1).shell == sh1.(log := sh1.log + added)
    ensures var r := EvalAnd(a, sh, os, 1);
            Guarded(r.shell.log, argv, path, clean) &&
            (r.status == 0 ==>
               EvalCommand(a[Guards(clean)][0], sh.(log := Passed(a, clean, sh)), os, 1).status == 0 &&
               r.shell.log == Passed(a, clean, sh) + added + [Ran(a[Guards(clean)][1], 0, sh.remote)])
  {
    var p, sh1 := a[Guards(clean)], sh.(log := Passed(a, clean, sh));
    PreparedRuns(a, path, clean, sh, os, 1);
    PipeIntoTar(p, sh1, os, added, argv);
    var r := EvalAnd(a, sh, os, 1);
    if r == EvalPipeline(p, sh1, os, 1) {
      GuardedPipeline(a, path, clean, sh, added, Ran(p[1], os(|sh1.log + added|, p[1]), sh.remote), argv);
    } else {
      FailedGuards(sh.log, r.shell.log, path, argv);
      WithoutIsGuarded(r.shell.log, argv, path, clean);
    }
  }

  lemma InMiddle(front: seq<Ran>, middle: seq<Ran>, back: seq<Ran>, argv: seq<string>, remote: bool)
    requires Succeeded(middle, argv, remote)
    ensures Succeeded(front + middle + back, argv, remote)
  {
    var i :| 0 <= i < |middle| && middle[i].status == 0 && middle[i].remote == remote &&
      Args(middle[i].command) == Some(argv);
    assert (front + middle + back)[|front| + i] == middle[i];
  }

  lemma PullRuns(t: Tree, srcPath: string, destPath: string, clean: bool, x: seq<string>, y: seq<string>, os: Os)
    requires T.PullForm(t, srcPath, destPath, clean, x, y) && TwoTars(x, y)
    ensures var r := EvalTree(t, FRESH, os, 1);
            Guarded(r.shell.log, y, destPath, clean) &&
            (r.status == 0 ==> Succeeded(r.shell.log, x, true) && Succeeded(r.shell.log, y, false))
  {
    var sh, a := FRESH.(pipefail := true), t[1];
    PipefailSet(t, os, 1);
    assert t[1..] == [a];
    var sh1 := sh.(log := Passed(a, clean, sh));
    var added := SshCreates(a[Guards(clean)][0], srcPath, x, y, sh1, os);
    PreparedPipe(a, destPath, clean, sh, os, added, y);
    var r := EvalAnd(a, sh, os, 1);
    if r.status == 0 {
      BothInLog(sh1.log, added, Ran(a[Guards(clean)][1], 0, false), x, y);
    }
  }

  lemma BothInLog(before: seq<Ran>, added: seq<Ran>, last: Ran, x: seq<string>, y: seq<string>)
    requires Succeeded(added, x, true) && Is(last.command, y) && last.status == 0 && !last.remote
    ensures Succeeded(before + added + [last], x, true) && Succeeded(before + added + [last], y, false)
  {
    InMiddle(before, added, [last], x, true);
    assert (before + added + [last])[|before + added|] == last;
  }

  // ---- push

  /** A list that prepares and then runs tar alone. */
  lemma PreparedTar(a: AndList, path: string, clean: bool, sh: Shell, os: Os, hops: nat, argv: seq<string>)
    returns (added: seq<Ran>)
    requires Prepares(a, path, clean) && Without(sh.log, argv) && argv != [] && argv[0] == "tar"
    requires |a[Guards(clean)]| == 1 && Is(a[Guards(clean)][0], argv)
    ensures var r := EvalAnd(a, sh, os, hops);
            r.shell.log == sh.log + added && Guarded(sh.log + added, argv, path, clean) &&
            (r.status == 0 ==> Succeeded(added, argv, sh.remote))
  {
    var sh1 := sh.(log := Passed(a, clean, sh));
    var tar := a[Guards(clean)][0];
    assert a[Guards(clean)] == [tar];
    PreparedRuns(a, path, clean, sh, os, hops);
    ProgramIsOrdinary(tar, argv);
    OrdinaryRuns(tar, sh1, os, hops);
    var r := EvalAnd(a, sh, os, hops);
    var last := Ran(tar, os(|sh1.log|, tar), sh.remote);
    if r == EvalPipeline([tar], sh1, os, hops) {
      GuardedPipeline(a, path, clean, sh, [], last, argv);
      added := sh1.log[|sh.log|..] + [last];
      PassedTail(sh.log, sh1.log, last);
    } else {
      added := r.shell.log[|sh.log|..];
      FailedGuards(sh.log, r.shell.log, path, argv);
      assert r.shell.log == sh.log + added;
    }
  }

  lemma PassedTail(before: seq<Ran>, passed: seq<Ran>, last: Ran)
    requires before <= passed
    ensures passed + [] + [last] == before + (passed[|before|..] + [last]) == passed + [last]
    ensures last.status == 0 ==> forall argv :: Args(last.command) == Some(argv) ==>
              Succeeded(passed[|before|..] + [last], argv, last.remote)
  {
    assert (passed[|before|..] + [last])[|passed| - |before|] == last;
  }

  /** A list that prepares and then extracts, on the far side. */
  lemma ExtractAdds(t: Tree, destPath: string, clean: bool, y: seq<string>, sh: Shell, os: Os) returns (added: seq<Ran>)
    requires T.ExtractTree(t, destPath, clean, y) && Without(sh.log, y) && y != [] && y[0] == "tar"
    ensures var r := EvalTree(t, sh, os, 0);
            r.shell.log == sh.log + added && Guarded(sh.log + added, y, destPath, clean) &&
            (r.status == 0 ==> Succeeded(added, y, sh.remote))
  {
    assert EvalTree(t, sh, os, 0) == EvalAnd(t[0], sh, os, 0);
    added := PreparedTar(t[0], destPath, clean, sh, os, 0, y);
  }

  lemma GuardedExtended(log: seq<Ran>, more: seq<Ran>, argv: seq<string>, path: string, clean: bool)
    requires Guarded(log, argv, path, clean) && Without(more, argv)
    ensures Guarded(log + more, argv, path, clean)
  {
    var all := log + more;
    forall k | |log| <= k < |all| ensures Args(all[k].command) != Some(argv) {
      assert all[k] == more[k - |log|];
    }
    forall i | 0 <= i < |all| && Args(all[i].command) == Some(argv)
      ensures Succeeded(all[..i], MkdirArgs(path), all[i].remote) &&
              (clean ==> Succeeded(all[..i], CleanArgs(path), all[i].remote))
    {
      assert all[..i] == log[..i];
    }
  }

  /** What an ssh that prepares and extracts adds to the log. */
  lemma SshExtracts(ssh: Command, destPath: string, clean: bool, y: seq<string>, sh: Shell, os: Os)
    returns (added: seq<Ran>)
    requires !sh.remote && T.SshWithScript(ssh) && T.ExtractTree(RemoteScript(ssh).value, destPath, clean, y)
    requires Without(sh.log, y) && y != [] && y[0] == "tar"
    ensures var r := EvalCommand(ssh, sh, os, 1);
            r.shell == sh.(log := sh.log + added) && Guarded(sh.log + added, y, destPath, clean) &&
            (r.status == 0 ==> Succeeded(added, y, true))
  {
    var far := ExtractAdds(RemoteScript(ssh).value, destPath, clean, y, Shell(false, true, sh.log), os);
    added := SshAdds(ssh, sh, os, far, y);
    var last := Ran(ssh, EvalCommand(ssh, sh, os, 1).status, false);
    StaysGuarded(sh.log, far, added, last, ssh, y, destPath, clean);
    if EvalCommand(ssh, sh, os, 1).status == 0 {
      InFront(far, added, y, true);
    }
  }

  lemma StaysGuarded(before: seq<Ran>, far: seq<Ran>, added: seq<Ran>, last: Ran, ssh: Command, y: seq<string>,
                     path: string, clean: bool)
    requires Without(before, y) && Guarded(before + far, y, path, clean) && Args(ssh) != Some(y) && last.command == ssh
    requires added == [Ran(ssh, SSH_FAILED, false)] || added == far + [last]
    ensures Guarded(before + added, y, path, clean)
  {
    if added == far + [last] {
      GuardedExtended(before + far, [last], y, path, clean);
      assert (before + far) + [last] == before + added;
    } else {
      WithoutIsGuarded(before, y, path, clean);
      GuardedExtended(before, added, y, path, clean);
    }
  }

  /** tar here into anything that ends its part of the log guarded. */
  lemma TarIntoGuarded(p: Pipeline, sh: Shell, os: Os, x: seq<string>, y: seq<string>, added: seq<Ran>)
    requires |p| == 2 && sh.pipefail && !sh.remote && Is(p[0], x) && x != [] && x[0] == "tar"
    requires var sh1 := sh.(log := sh.log + [Ran(p[0], os(|sh.log|, p[0]), false)]);
             EvalCommand(p[1], sh1, os, 1).shell == sh1.(log := sh1.log + added) &&
             (EvalCommand(p[1], sh1, os, 1).status == 0 ==> Succeeded(added, y, true))
    ensures var r := EvalPipeline(p, sh, os, 1);
            r.shell.log == sh.log + [Ran(p[0], os(|sh.log|, p[0]), false)] + added &&
            (r.status == 0 ==> Succeeded(r.shell.log, x, false) && Succeeded(r.shell.log, y, true))
  {
    ProgramIsOrdinary(p[0], x);
    OrdinaryRuns(p[0], sh, os, 1);
    var first := [Ran(p[0], os(|sh.log|, p[0]), false)];
    PipeOfTwo(p, sh, os, 1);
    var log := sh.log + first + added;
    if EvalPipeline(p, sh, os, 1).status == 0 {
      assert log[|sh.log|] == first[0];
      assert log + [] == log;
      InMiddle(sh.log + first, added, [], y, true);
    }
  }

  lemma CreateIntoSsh(p: Pipeline, destPath: string, clean: bool, x: seq<string>, y: seq<string>, sh: Shell, os: Os)
    requires |p| == 2 && sh.pipefail && !sh.remote && Is(p[0], x) && TwoTars(x, y) && Without(sh.log, y)
    requires T.SshWithScript(p[1]) && T.ExtractTree(RemoteScript(p[1]).value, destPath, clean, y)
    ensures var r := EvalPipeline(p, sh, os, 1);
            Guarded(r.shell.log, y, destPath, clean) &&
            (r.status == 0 ==> Succeeded(r.shell.log, x, false) && Succeeded(r.shell.log, y, true))
  {
    var first := Ran(p[0], os(|sh.log|, p[0]), false);
    ArgsDiffer(p[0], x, y);
    var added := SshExtracts(p[1], destPath, clean, y, sh.(log := sh.log + [first]), os);
    TarIntoGuarded(p, sh, os, x, y, added);
  }

  lemma PushRuns(t: Tree, srcPath: string, destPath: string, clean: bool, x: seq<string>, y: seq<string>, os: Os)
    requires T.PushForm(t, srcPath, destPath, clean, x, y) && TwoTars(x, y)
    ensures var r := EvalTree(t, FRESH, os, 1);
            Guarded(r.shell.log, y, destPath, clean) &&
            (r.status == 0 ==> Succeeded(r.shell.log, x, false) && Succeeded(r.shell.log, y, true))
  {
    PipefailSet(t, os, 1);
    assert t[1..] == [t[1], t[2]];
    var sh1 := Announced(t[1..], srcPath, FRESH.(pipefail := true), os);
    CreateIntoSsh(t[2][0], destPath, clean, x, y, sh1, os);
  }

  /** A list that announces, then one more list of one pipeline. */
  lemma Announced(t: Tree, path: string, sh: Shell, os: Os) returns (after: Shell)
    requires |t| == 2 && T.Announces(t[0], path) && |t[1]| == 1
    ensures EvalTree(t, sh, os, 1) == EvalPipeline(t[1][0], after, os, 1)
    ensures after.pipefail == sh.pipefail && after.remote == sh.remote
    ensures exists s: nat :: after.log == sh.log + [Ran(t[0][0][0], s, sh.remote)]
    ensures Args(t[0][0][0]) == None
  {
    var announce := t[0][0][0];
    AnnounceIsOrdinary(t[0], path);
    assert t[0][0] == [announce];
    OrdinaryRuns(announce, sh, os, 1);
    after := EvalCommand(announce, sh, os, 1).shell;
    assert EvalAnd(t[0], sh, os, 1) == EvalCommand(announce, sh, os, 1);
    assert t[1..] == [t[1]];
    assert EvalTree([t[1]], after, os, 1) == EvalAnd(t[1], after, os, 1);
  }

  // ---- both ends in one pod

  /** Two programs in a pipeline under pipefail. */
  lemma TwoPrograms(p: Pipeline, sh: Shell, os: Os, x: seq<string>, y: seq<string>)
    requires |p| == 2 && sh.pipefail && Is(p[0], x) && Is(p[1], y) && x != [] && y != [] && x[0] == "tar" &&
             y[0] == "tar"
    ensures var r := EvalPipeline(p, sh, os, 1);
            Appears(r.shell.log, y) &&
            (r.status == 0 ==> Succeeded(r.shell.log, x, sh.remote) && Succeeded(r.shell.log, y, sh.remote))
  {
    ProgramIsOrdinary(p[0], x);
    OrdinaryRuns(p[0], sh, os, 1);
    var first := EvalCommand(p[0], sh, os, 1);
    var added := [Ran(p[0], first.status, sh.remote)];
    PipeIntoTar(p, sh, os, added, y);
    var log := EvalPipeline(p, sh, os, 1).shell.log;
    assert log[|sh.log|] == added[0] && log[|sh.log| + 1].command == p[1];
  }

  /** The announcement behind the guards changes nothing but the log. */
  lemma SameShell(a: AndList, path: string, clean: bool, srcPath: string, sh: Shell, os: Os)
    requires Prepares(a, path, clean) && T.Announces([a[Guards(clean)]], srcPath)
    ensures var r := EvalAnd(a, sh, os, 1).shell; r.pipefail == sh.pipefail && r.remote == sh.remote
  {
    PreparedRuns(a, path, clean, sh, os, 1);
    AnnounceIsOrdinary([a[Guards(clean)]], srcPath);
    assert a[Guards(clean)] == [a[Guards(clean)][0]];
    OrdinaryRuns(a[Guards(clean)][0], sh.(log := Passed(a, clean, sh)), os, 1);
  }

  /** The local form: an exit status of 0 still means both tars succeeded, but
      the extract is started whatever the guards answered. */
  lemma LocalRuns(t: Tree, srcPath: string, destPath: string, clean: bool, x: seq<string>, y: seq<string>, os: Os)
    requires T.LocalForm(t, srcPath, destPath, clean, x, y) && TwoTars(x, y)
    ensures var r := EvalTree(t, FRESH, os, 1);
            Appears(r.shell.log, y) &&
            (r.status == 0 ==> Succeeded(r.shell.log, x, false) && Succeeded(r.shell.log, y, false))
  {
    var sh := FRESH.(pipefail := true);
    LocalEnds(t, sh, os);
    SameShell(t[1], destPath, clean, srcPath, sh, os);
    TwoPrograms(t[2][0], EvalAnd(t[1], sh, os, 1).shell, os, x, y);
  }

  /** After the prepare list, the pipe is all there is to run. */
  lemma LocalEnds(t: Tree, sh: Shell, os: Os)
    requires |t| == 3 && T.SetsPipefail(t[0]) && |t[2]| == 1 && sh == FRESH.(pipefail := true)
    ensures EvalTree(t, FRESH, os, 1) == EvalPipeline(t[2][0], EvalAnd(t[1], sh, os, 1).shell, os, 1)
  {
    PipefailSet(t, os, 1);
    LastOfTwo(t[1..], sh, os);
  }

  lemma LastOfTwo(t: Tree, sh: Shell, os: Os)
    requires |t| == 2 && |t[1]| == 1
    ensures EvalTree(t, sh, os, 1) == EvalPipeline(t[1][0], EvalAnd(t[0], sh, os, 1).shell, os, 1)
  {
    var first := EvalAnd(t[0], sh, os, 1);
    assert t[1..] == [t[1]];
    assert EvalTree([t[1]], first.shell, os, 1) == EvalAnd(t[1], first.shell, os, 1);
  }

  /** The log of the guards asked first, as far as they got. */
  function Asked(a: AndList, clean: bool, os: Os): seq<Ran>
    requires |a| == Guards(clean) + 1 && |a[0]| == 1 && (clean ==> |a[1]| == 1)
  {
    [Ran(a[0][0], os(0, a[0][0]), false)] +
    (if clean && os(0, a[0][0]) == 0 then [Ran(a[1][0], os(1, a[1][0]), false)] else [])
  }

  /** Both guards, or the only one, answer 0. */
  predicate GuardsPass(a: AndList, clean: bool, os: Os)
    requires |a| == Guards(clean) + 1 && |a[0]| == 1 && (clean ==> |a[1]| == 1)
  {
    os(0, a[0][0]) == 0 && (clean ==> os(1, a[1][0]) == 0)
  }

  /** What a prepare list asked first leaves in the log: its guards, and behind
      them its last command if they passed. */
  lemma GuardsAsked(a: AndList, path: string, clean: bool, os: Os)
    requires Prepares(a, path, clean) && |a[Guards(clean)]| == 1 && Ordinary(a[Guards(clean)][0])
    ensures var r := EvalAnd(a, FRESH.(pipefail := true), os, 1);
            r.shell.pipefail && !r.shell.remote && r.shell.log == Asked(a, clean, os) + Reached(a, clean, os)
  {
    GuardsAreOrdinary(a, path, clean);
    if clean {
      CleanAsked(a, os);
    } else {
      MkdirAsked(a, os);
    }
  }

  /** The last command of a list asked first, if it was reached. */
  function Reached(a: AndList, clean: bool, os: Os): seq<Ran>
    requires |a| == Guards(clean) + 1 && |a[0]| == 1 && (clean ==> |a[1]| == 1) && |a[Guards(clean)]| == 1
  {
    var last := a[Guards(clean)][0];
    if GuardsPass(a, clean, os) then [Ran(last, os(Guards(clean), last), false)] else []
  }

  lemma MkdirAsked(a: AndList, os: Os)
    requires |a| == 2 && |a[0]| == 1 && |a[1]| == 1 && Ordinary(a[0][0]) && Ordinary(a[1][0])
    ensures EvalAnd(a, FRESH.(pipefail := true), os, 1).shell ==
            Shell(true, false, Asked(a, false, os) + Reached(a, false, os))
  {
    var p := Ran(a[0][0], os(0, a[0][0]), false);
    TwoOrdinary(a, FRESH.(pipefail := true), os);
    assert [] + [p] == [p] == [p] + [] == [p] + [] + [];
  }

  lemma CleanAsked(a: AndList, os: Os)
    requires |a| == 3 && |a[0]| == 1 && |a[1]| == 1 && |a[2]| == 1
    requires Ordinary(a[0][0]) && Ordinary(a[1][0]) && Ordinary(a[2][0])
    ensures EvalAnd(a, FRESH.(pipefail := true), os, 1).shell ==
            Shell(true, false, Asked(a, true, os) + Reached(a, true, os))
  {
    var p, q := Ran(a[0][0], os(0, a[0][0]), false), Ran(a[1][0], os(1, a[1][0]), false);
    ThreeOrdinary(a, FRESH.(pipefail := true), os);
    assert [] + [p] == [p] == [p] + [] == [p] + [] + [] && [p] + [q] == [p] + [q] + [];
  }

  /** An and-list of two commands starts the second if the first answers 0. */
  lemma TwoOrdinary(a: AndList, sh: Shell, os: Os)
    requires |a| == 2 && |a[0]| == 1 && |a[1]| == 1 && Ordinary(a[0][0]) && Ordinary(a[1][0])
    ensures var p := Ran(a[0][0], os(|sh.log|, a[0][0]), sh.remote);
            var q := Ran(a[1][0], os(|sh.log| + 1, a[1][0]), sh.remote);
            EvalAnd(a, sh, os, 1).shell == sh.(log := if p.status == 0 then sh.log + [p] + [q] else sh.log + [p])
  {
    GoesOn(a, sh, os, 1);
    var sh1 := sh.(log := sh.log + [Ran(a[0][0], os(|sh.log|, a[0][0]), sh.remote)]);
    assert a[1..] == [a[1]] && a[1] == [a[1][0]];
    OrdinaryRuns(a[1][0], sh1, os, 1);
    assert EvalAnd([a[1]], sh1, os, 1) == EvalPipeline(a[1], sh1, os, 1);
  }

  lemma ThreeOrdinary(a: AndList, sh: Shell, os: Os)
    requires |a| == 3 && |a[0]| == 1 && |a[1]| == 1 && |a[2]| == 1
    requires Ordinary(a[0][0]) && Ordinary(a[1][0]) && Ordinary(a[2][0])
    ensures var p := Ran(a[0][0], os(|sh.log|, a[0][0]), sh.remote);
            var q := Ran(a[1][0], os(|sh.log| + 1, a[1][0]), sh.remote);
            var r := Ran(a[2][0], os(|sh.log| + 2, a[2][0]), sh.remote);
            EvalAnd(a, sh, os, 1).shell ==
            sh.(log := if p.status != 0 then sh.log + [p]
                       else if q.status == 0 then sh.log + [p] + [q] + [r] else sh.log + [p] + [q])
  {
    GoesOn(a, sh, os, 1);
    TwoOrdinary(a[1..], sh.(log := sh.log + [Ran(a[0][0], os(|sh.log|, a[0][0]), sh.remote)]), os);
  }

  // ---- successes, read off a log in two parts

  lemma SucceededJoined(u: seq<Ran>, v: seq<Ran>, argv: seq<string>, remote: bool)
    ensures Succeeded(u + v, argv, remote) <==> Succeeded(u, argv, remote) || Succeeded(v, argv, remote)
  {
    if Succeeded(v, argv, remote) {
      InMiddle(u, v, [], argv, remote);
      assert u + v + [] == u + v;
    }
    if Succeeded(u, argv, remote) {
      InFront(u, u + v, argv, remote);
    }
    if Succeeded(u + v, argv, remote) {
      var i :| 0 <= i < |u + v| && (u + v)[i].status == 0 && (u + v)[i].remote == remote &&
        Args((u + v)[i].command) == Some(argv);
      assert i >= |u| ==> (u + v)[i] == v[i - |u|];
    }
  }

  lemma SucceededAlone(p: Ran, argv: seq<string>, remote: bool)
    ensures Succeeded([p], argv, remote) <==> p.status == 0 && p.remote == remote && Args(p.command) == Some(argv)
  {
    assert [p][0] == p;
  }

  /** The tar at the end of a log is guarded exactly by what is before it. */
  lemma GuardedAtEnd(front: seq<Ran>, last: Ran, argv: seq<string>, path: string, clean: bool)
    requires Without(front, argv) && Args(last.command) == Some(argv)
    ensures Guarded(front + [last], argv, path, clean) <==>
              Succeeded(front, MkdirArgs(path), last.remote) &&
              (clean ==> Succeeded(front, CleanArgs(path), last.remote))
  {
    var log := front + [last];
    assert log[..|front|] == front && log[|front|] == last;
    assert forall i :: 0 <= i < |front| ==> log[i] == front[i];
  }

  /** The guards, whatever was announced, a tar that is no guard, and the tar
      that needs them: it is guarded exactly if they passed. */
  lemma GuardedIffPassed(a: AndList, path: string, clean: bool, os: Os, between: seq<Ran>, last: Ran, argv: seq<string>)
    requires Prepares(a, path, clean) && argv != [] && argv[0] == "tar"
    requires Without(between, argv) && Without(between, MkdirArgs(path)) && Without(between, CleanArgs(path))
    requires Args(last.command) == Some(argv) && !last.remote
    ensures Guarded(Asked(a, clean, os) + between + [last], argv, path, clean) <==> GuardsPass(a, clean, os)
  {
    AskedIsNoTar(a, path, clean, os, argv);
    AskedSucceeds(a, path, clean, os);
    var asked := Asked(a, clean, os);
    SucceededJoined(asked, between, MkdirArgs(path), false);
    SucceededJoined(asked, between, CleanArgs(path), false);
    GuardedAtEnd(asked + between, last, argv, path, clean);
  }

  lemma AskedIsNoTar(a: AndList, path: string, clean: bool, os: Os, argv: seq<string>)
    requires Prepares(a, path, clean) && argv != [] && argv[0] == "tar"
    ensures Without(Asked(a, clean, os), argv)
  {
    GuardsAreNotTar(a[0][0], path, argv);
    if clean {
      GuardsAreNotTar(a[1][0], path, argv);
    }
  }

  lemma AskedSucceeds(a: AndList, path: string, clean: bool, os: Os)
    requires Prepares(a, path, clean)
    ensures Succeeded(Asked(a, clean, os), MkdirArgs(path), false) <==> os(0, a[0][0]) == 0
    ensures clean ==>
              (Succeeded(Asked(a, clean, os), CleanArgs(path), false) <==> os(0, a[0][0]) == 0 && os(1, a[1][0]) == 0)
  {
    GuardsDiffer(path);
    if clean {
      TwoGuards(a[0][0], a[1][0], MkdirArgs(path), CleanArgs(path), os(0, a[0][0]), os(1, a[1][0]));
    } else {
      SucceededAlone(Ran(a[0][0], os(0, a[0][0]), false), MkdirArgs(path), false);
      assert Asked(a, clean, os) == [Ran(a[0][0], os(0, a[0][0]), false)];
    }
  }

  lemma GuardsDiffer(path: string)
    ensures MkdirArgs(path) != CleanArgs(path)
  {
    assert MkdirArgs(path)[0] == "mkdir" && CleanArgs(path)[0] == "find";
  }

  lemma TwoGuards(a: Command, b: Command, m: seq<string>, k: seq<string>, s: nat, r: nat)
    requires Is(a, m) && Is(b, k) && m != k
    ensures var asked := [Ran(a, s, false)] + (if s == 0 then [Ran(b, r, false)] else []);
            && (Succeeded(asked, m, false) <==> s == 0)
            && (Succeeded(asked, k, false) <==> s == 0 && r == 0)
  {
    var p, q := Ran(a, s, false), Ran(b, r, false);
    SucceededAlone(p, m, false);
    SucceededAlone(p, k, false);
    SucceededAlone(q, m, false);
    SucceededAlone(q, k, false);
    SucceededJoined([p], [q], m, false);
    SucceededJoined([p], [q], k, false);
    assert [p] + [] == [p];
  }

  /** In one pod the extract is guarded exactly if both guards pass: nothing
      else holds it back. */
  lemma LocalGuardedIff(t: Tree, srcPath: string, destPath: string, clean: bool, x: seq<string>, y: seq<string>, os: Os)
    requires T.LocalForm(t, srcPath, destPath, clean, x, y) && TwoTars(x, y) && NoGuard(x, destPath)
    ensures Guarded(EvalTree(t, FRESH, os, 1).shell.log, y, destPath, clean) <==> GuardsPass(t[1], clean, os)
  {
    var sh := FRESH.(pipefail := true);
    LocalEnds(t, sh, os);
    AnnounceIsOrdinary([t[1][Guards(clean)]], srcPath);
    GuardsAsked(t[1], destPath, clean, os);
    var made, last := CreateIntoExtract(t[2][0], x, y, EvalAnd(t[1], sh, os, 1).shell, os);
    ArgsDiffer(t[2][0][0], x, y);
    LocalLog(t[1], destPath, clean, os, Reached(t[1], clean, os), made, last, y);
  }

  /** A program that is neither of the guards. */
  predicate NoGuard(x: seq<string>, path: string) { x != MkdirArgs(path) && x != CleanArgs(path) }

  /** The guards, an announcement or none, and the two tars. */
  lemma LocalLog(a: AndList, path: string, clean: bool, os: Os, said: seq<Ran>, made: Ran, last: Ran, argv: seq<string>)
    requires Prepares(a, path, clean) && argv != [] && argv[0] == "tar"
    requires forall i :: 0 <= i < |said| ==> Args(said[i].command) == None
    requires Args(made.command) != Some(MkdirArgs(path)) && Args(made.command) != Some(CleanArgs(path))
    requires Args(made.command) != Some(argv) && Args(last.command) == Some(argv) && !last.remote
    ensures Guarded(Asked(a, clean, os) + said + [made] + [last], argv, path, clean) <==> GuardsPass(a, clean, os)
  {
    var asked := Asked(a, clean, os);
    assert asked + said + [made] + [last] == asked + (said + [made]) + [last];
    GuardedIffPassed(a, path, clean, os, said + [made], last, argv);
  }

  /** The local pipe adds the two tars. */
  lemma CreateIntoExtract(p: Pipeline, x: seq<string>, y: seq<string>, sh: Shell, os: Os) returns (made: Ran, last: Ran)
    requires |p| == 2 && sh.pipefail && !sh.remote && Is(p[0], x) && Is(p[1], y) && TwoTars(x, y)
    ensures EvalPipeline(p, sh, os, 1).shell.log == sh.log + [made] + [last]
    ensures made.command == p[0] && last.command == p[1] && !last.remote
  {
    ProgramIsOrdinary(p[0], x);
    OrdinaryRuns(p[0], sh, os, 1);
    made := Ran(p[0], os(|sh.log|, p[0]), false);
    PipeIntoTar(p, sh, os, [made], y);
    last := Ran(p[1], os(|sh.log + [made]|, p[1]), false);
  }

  /** The two programs of a transfer are tars, and no guards. */
  lemma CreateAndExtract(c: T.TransferCmd)
    requires c.Accepted()
    ensures TwoTars(T.CreateArgs(c.Program(), c.srcPath), T.ExtractArgs(c.Decompressor(), c.destPath))
    ensures NoGuard(T.CreateArgs(c.Program(), c.srcPath), c.destPath)
  {
    CreateIsTar(c.Program(), c.srcPath);
    ExtractIsTar(c.Decompressor(), c.destPath);
    TarIsNoGuard(T.CreateArgs(c.Program(), c.srcPath), c.destPath);
  }

  lemma CreateIsTar(program: string, srcPath: string)
    ensures var x := T.CreateArgs(program, srcPath); |x| >= 2 && x[0] == "tar" && x[1] == "-c"
  {}

  lemma ExtractIsTar(program: string, destPath: string)
    ensures var y := T.ExtractArgs(program, destPath); |y| >= 2 && y[0] == "tar" && y[1] == "-x"
  {}

  lemma TarIsNoGuard(x: seq<string>, path: string)
    requires x != [] && x[0] == "tar"
    ensures NoGuard(x, path)
  {
    assert MkdirArgs(path)[0] == "mkdir" && CleanArgs(path)[0] == "find";
  }

  // ---- the theorems about the strings themselves

  /** Whatever the programs answer: if the built command exits 0, the tar that
      reads and the tar that writes both exited 0, each on its own side. */
  lemma TransferExitZero(c: T.TransferCmd, text: string, os: Os)
    requires c.Accepted() && c.IsReadOf(text)
    ensures RunScript(text, os).Some?
    ensures RunScript(text, os).value.status == 0 ==>
              var log := RunScript(text, os).value.shell.log;
              Succeeded(log, T.CreateArgs(c.Program(), c.srcPath), !c.local && !c.push) &&
              Succeeded(log, T.ExtractArgs(c.Decompressor(), c.destPath), !c.local && c.push)
  {
    var t, x, y := Parse(text).value, T.CreateArgs(c.Program(), c.srcPath), T.ExtractArgs(c.Decompressor(), c.destPath);
    CreateAndExtract(c);
    if c.local {
      LocalRuns(t, c.srcPath, c.destPath, c.clean, x, y, os);
    } else if c.push {
      PushRuns(t, c.srcPath, c.destPath, c.clean, x, y, os);
    } else {
      PullRuns(t, c.srcPath, c.destPath, c.clean, x, y, os);
    }
  }

  /** Over ssh, in both directions, tar never extracts unless the destination
      was made, and emptied when that was asked for, on the side it extracts. */
  lemma TransferGuarded(c: T.TransferCmd, text: string, os: Os)
    requires c.Accepted() && c.IsReadOf(text) && !c.local
    ensures RunScript(text, os).Some? &&
            var log := RunScript(text, os).value.shell.log;
            Guarded(log, T.ExtractArgs(c.Decompressor(), c.destPath), c.destPath, c.clean)
  {
    var t, x, y := Parse(text).value, T.CreateArgs(c.Program(), c.srcPath), T.ExtractArgs(c.Decompressor(), c.destPath);
    CreateAndExtract(c);
    if c.push {
      PushRuns(t, c.srcPath, c.destPath, c.clean, x, y, os);
    } else {
      PullRuns(t, c.srcPath, c.destPath, c.clean, x, y, os);
    }
  }

  /** Inside one pod the extract is started whatever happened before. It is
      guarded exactly if mkdir and, when asked for, the clean answer 0: after a
      mkdir that failed, or a clean that stopped half way, tar extracts all the
      same. */
  lemma LocalExtractsAnyway(c: T.TransferCmd, text: string, os: Os)
    requires c.Accepted() && c.IsReadOf(text) && c.local
    ensures RunScript(text, os).Some? && var log := RunScript(text, os).value.shell.log; var t := Parse(text).value;
            Appears(log, T.ExtractArgs(c.Decompressor(), c.destPath)) &&
            (Guarded(log, T.ExtractArgs(c.Decompressor(), c.destPath), c.destPath, c.clean) <==>
             GuardsPass(t[1], c.clean, os))
  {
    var t, x, y := Parse(text).value, T.CreateArgs(c.Program(), c.srcPath), T.ExtractArgs(c.Decompressor(), c.destPath);
    CreateAndExtract(c);
    LocalRuns(t, c.srcPath, c.destPath, c.clean, x, y, os);
    LocalGuardedIff(t, c.srcPath, c.destPath, c.clean, x, y, os);
  }

  // ---- why every form starts with pipefail

  /** Every run of this program fails. */
  ghost predicate Refuses(os: Os, argv: seq<string>) {
    forall n: nat, c: Command :: Args(c) == Some(argv) ==> os(n, c) != 0
  }

  predicate NoSuccess(log: seq<Ran>, argv: seq<string>) {
    forall i :: 0 <= i < |log| && Args(log[i].command) == Some(argv) ==> log[i].status != 0
  }

  /** Whatever is run, here or behind an ssh, a program that always fails has no
      success in the log. */
  lemma {:induction false} CommandNeverSucceeds(c: Command, sh: Shell, os: Os, hops: nat, argv: seq<string>)
    requires Refuses(os, argv) && NoSuccess(sh.log, argv) && argv != [] && argv[0] == "tar"
    ensures NoSuccess(EvalCommand(c, sh, os, hops).shell.log, argv)
    decreases hops, 0
  {
    if IsSsh(c) && hops > 0 && RemoteScript(c).Some? {
      SshArgsDiffer(c, argv);
      TreeNeverSucceeds(RemoteScript(c).value, Shell(false, true, sh.log), os, hops - 1, argv);
    } else if IsSsh(c) {
      SshArgsDiffer(c, argv);
    }
  }

  lemma {:induction false} AllNeverSucceed(p: Pipeline, sh: Shell, os: Os, hops: nat, argv: seq<string>)
    requires Refuses(os, argv) && NoSuccess(sh.log, argv) && argv != [] && argv[0] == "tar"
    ensures NoSuccess(EvalAll(p, sh, os, hops).0, argv)
    decreases hops, 1, |p|
  {
    if p != [] {
      CommandNeverSucceeds(p[0], sh, os, hops, argv);
      AllNeverSucceed(p[1..], sh.(log := EvalCommand(p[0], sh, os, hops).shell.log), os, hops, argv);
    }
  }

  lemma {:induction false} PipelineNeverSucceeds(p: Pipeline, sh: Shell, os: Os, hops: nat, argv: seq<string>)
    requires Refuses(os, argv) && NoSuccess(sh.log, argv) && argv != [] && argv[0] == "tar"
    ensures NoSuccess(EvalPipeline(p, sh, os, hops).shell.log, argv)
    decreases hops, 2
  {
    AllNeverSucceed(p, sh, os, hops, argv);
    if |p| == 1 {
      CommandNeverSucceeds(p[0], sh, os, hops, argv);
    }
  }

  lemma {:induction false} AndNeverSucceeds(a: AndList, sh: Shell, os: Os, hops: nat, argv: seq<string>)
    requires Refuses(os, argv) && NoSuccess(sh.log, argv) && argv != [] && argv[0] == "tar"
    ensures NoSuccess(EvalAnd(a, sh, os, hops).shell.log, argv)
    decreases hops, 3, |a|
  {
    if a != [] {
      PipelineNeverSucceeds(a[0], sh, os, hops, argv);
      if |a| > 1 {
        AndNeverSucceeds(a[1..], EvalPipeline(a[0], sh, os, hops).shell, os, hops, argv);
      }
    }
  }

  lemma {:induction false} TreeNeverSucceeds(t: Tree, sh: Shell, os: Os, hops: nat, argv: seq<string>)
    requires Refuses(os, argv) && NoSuccess(sh.log, argv) && argv != [] && argv[0] == "tar"
    ensures NoSuccess(EvalTree(t, sh, os, hops).shell.log, argv)
    decreases hops, 4, |t|
  {
    if t != [] {
      AndNeverSucceeds(t[0], sh, os, hops, argv);
      if |t| > 1 {
        TreeNeverSucceeds(t[1..], EvalAnd(t[0], sh, os, hops).shell, os, hops, argv);
      }
    }
  }

  /** Everything answers 0 but this one program. */
  function OnlyFails(argv: seq<string>): Os {
    (n: nat, c: Command) => if Args(c) == Some(argv) then 1 else 0
  }

  /** Guards that answer 0 let a list through to its last pipeline. */
  lemma {:induction false} AndReaches(a: AndList, sh: Shell, os: Os, hops: nat) returns (at: Shell)
    requires a != [] && forall i :: 0 <= i < |a| - 1 ==>
               |a[i]| == 1 && Ordinary(a[i][0]) && forall n: nat :: os(n, a[i][0]) == 0
    ensures EvalAnd(a, sh, os, hops) == EvalPipeline(a[|a| - 1], at, os, hops)
    ensures at.pipefail == sh.pipefail && at.remote == sh.remote && sh.log <= at.log
    decreases |a|
  {
    at := sh;
    if |a| > 1 {
      OrdinaryRuns(a[0][0], sh, os, hops);
      assert a[0] == [a[0][0]] && a[1..][|a[1..]| - 1] == a[|a| - 1];
      at := AndReaches(a[1..], EvalPipeline(a[0], sh, os, hops).shell, os, hops);
    }
  }

  /** Without pipefail a pipe of two ends as its second command does. */
  lemma PlainPipe(p: Pipeline, sh: Shell, os: Os, hops: nat)
    requires |p| == 2 && !sh.pipefail
    ensures var second := EvalCommand(p[1], sh.(log := EvalCommand(p[0], sh, os, hops).shell.log), os, hops);
            var r := EvalPipeline(p, sh, os, hops);
            r.status == second.status && r.shell.log == second.shell.log
  {
    AllOfTwo(p, sh, os, hops);
  }

  /** A prepare list gets to its last pipeline if only this tar fails. */
  lemma PreparedReaches(a: AndList, path: string, clean: bool, sh: Shell, hops: nat, argv: seq<string>)
    returns (at: Shell)
    requires Prepares(a, path, clean) && argv != [] && argv[0] == "tar"
    ensures EvalAnd(a, sh, OnlyFails(argv), hops) == EvalPipeline(a[Guards(clean)], at, OnlyFails(argv), hops)
    ensures at.pipefail == sh.pipefail && at.remote == sh.remote && sh.log <= at.log
  {
    GuardsAreOrdinary(a, path, clean);
    GuardsAreNotTar(a[0][0], path, argv);
    if clean {
      GuardsAreNotTar(a[1][0], path, argv);
    }
    at := AndReaches(a, sh, OnlyFails(argv), hops);
  }

  /** It ended well, and the program that fails had been started. */
  ghost predicate EndsWell(r: After, x: seq<string>) { r.status == 0 && Appears(r.shell.log, x) }

  lemma AppearsLater(before: seq<Ran>, log: seq<Ran>, argv: seq<string>)
    requires before <= log && Appears(before, argv)
    ensures Appears(log, argv)
  {
    var i :| 0 <= i < |before| && Args(before[i].command) == Some(argv);
    assert log[i] == before[i];
  }

  lemma AppearsBehind(before: seq<Ran>, added: seq<Ran>, argv: seq<string>)
    requires Appears(added, argv)
    ensures Appears(before + added, argv)
  {
    var i :| 0 <= i < |added| && Args(added[i].command) == Some(argv);
    assert (before + added)[|before| + i] == added[i];
  }

  /** An ssh that answers 0 has run its script, and ends as it does. */
  lemma LinkHolds(ssh: Command, sh: Shell, os: Os)
    requires T.SshWithScript(ssh) && !IsSetPipefail(ssh) && os(|sh.log|, ssh) == 0
    ensures var r := EvalCommand(ssh, sh, os, 1);
            var far := EvalTree(RemoteScript(ssh).value, Shell(false, true, sh.log), os, 0);
            r.status == far.status && far.shell.log <= r.shell.log
  {}

  /** A tar that answers 0 ends what it is the last program of. */
  lemma OtherTarEnds(tar: Command, sh: Shell, hops: nat, x: seq<string>, y: seq<string>)
    requires TwoTars(x, y) && Is(tar, y)
    ensures var r := EvalCommand(tar, sh, OnlyFails(x), hops); r.status == 0 && sh.log <= r.shell.log
    ensures EvalPipeline([tar], sh, OnlyFails(x), hops) == EvalCommand(tar, sh, OnlyFails(x), hops)
  {
    ProgramIsOrdinary(tar, y);
    OrdinaryRuns(tar, sh, OnlyFails(x), hops);
    ArgsDiffer(tar, y, x);
  }

  /** The tar that fails, started here. */
  lemma TarStarts(tar: Command, sh: Shell, os: Os, hops: nat, x: seq<string>)
    requires Is(tar, x) && x != [] && x[0] == "tar"
    ensures Appears(EvalCommand(tar, sh, os, hops).shell.log, x)
  {
    ProgramIsOrdinary(tar, x);
    OrdinaryRuns(tar, sh, os, hops);
    var log := EvalCommand(tar, sh, os, hops).shell.log;
    assert log[|sh.log|].command == tar;
  }

  /** And started behind an ssh, whose link holds. */
  lemma FarTarStarts(ssh: Command, srcPath: string, sh: Shell, x: seq<string>, y: seq<string>)
    requires T.SshWithScript(ssh) && T.CreateTree(RemoteScript(ssh).value, srcPath, x) && TwoTars(x, y)
    ensures Appears(EvalCommand(ssh, sh, OnlyFails(x), 1).shell.log, x)
  {
    var os, far := OnlyFails(x), Shell(false, true, sh.log);
    SshIsNotSet(ssh);
    SshArgsDiffer(ssh, x);
    var added := CreateAdds(RemoteScript(ssh).value, srcPath, x, y, far, os, 0);
    AppearsBehind(sh.log, added, x);
    LinkHolds(ssh, sh, os);
    AppearsLater(sh.log + added, EvalCommand(ssh, sh, os, 1).shell.log, x);
  }

  /** A pipe that ends in a tar that works, behind one that was started. */
  lemma PipeEndsWell(p: Pipeline, sh: Shell, x: seq<string>, y: seq<string>)
    requires |p| == 2 && !sh.pipefail && Is(p[1], y) && TwoTars(x, y)
    requires Appears(EvalCommand(p[0], sh, OnlyFails(x), 1).shell.log, x)
    ensures EndsWell(EvalPipeline(p, sh, OnlyFails(x), 1), x)
  {
    var log := EvalCommand(p[0], sh, OnlyFails(x), 1).shell.log;
    PlainPipe(p, sh, OnlyFails(x), 1);
    OtherTarEnds(p[1], sh.(log := log), 1, x, y);
    AppearsLater(log, EvalPipeline(p, sh, OnlyFails(x), 1).shell.log, x);
  }

  lemma LocalWithout(t: Tree, srcPath: string, destPath: string, clean: bool, x: seq<string>, y: seq<string>)
    requires T.LocalForm(t, srcPath, destPath, clean, x, y) && TwoTars(x, y)
    ensures EndsWell(EvalTree(t[1..], FRESH, OnlyFails(x), 1), x)
  {
    SameShell(t[1], destPath, clean, srcPath, FRESH, OnlyFails(x));
    LastOfTwo(t[1..], FRESH, OnlyFails(x));
    var sh := EvalAnd(t[1], FRESH, OnlyFails(x), 1).shell;
    TarStarts(t[2][0][0], sh, OnlyFails(x), 1, x);
    PipeEndsWell(t[2][0], sh, x, y);
  }

  lemma PullWithout(t: Tree, srcPath: string, destPath: string, clean: bool, x: seq<string>, y: seq<string>)
    requires T.PullForm(t, srcPath, destPath, clean, x, y) && TwoTars(x, y)
    ensures EndsWell(EvalTree(t[1..], FRESH, OnlyFails(x), 1), x)
  {
    var a := t[1];
    assert t[1..] == [a];
    assert EvalTree([a], FRESH, OnlyFails(x), 1) == EvalAnd(a, FRESH, OnlyFails(x), 1);
    var sh := PreparedReaches(a, destPath, clean, FRESH, 1, x);
    FarTarStarts(a[Guards(clean)][0], srcPath, sh, x, y);
    PipeEndsWell(a[Guards(clean)], sh, x, y);
  }

  lemma PushWithout(t: Tree, srcPath: string, destPath: string, clean: bool, x: seq<string>, y: seq<string>)
    requires T.PushForm(t, srcPath, destPath, clean, x, y) && TwoTars(x, y)
    ensures EndsWell(EvalTree(t[1..], FRESH, OnlyFails(x), 1), x)
  {
    var os, p := OnlyFails(x), t[2][0];
    assert t[1..] == [t[1], t[2]];
    var after := Announced(t[1..], srcPath, FRESH, os);
    PlainPipe(p, after, os, 1);
    TarStarts(p[0], after, os, 1, x);
    var log := EvalCommand(p[0], after, os, 1).shell.log;
    FarExtractEnds(p[1], destPath, clean, after.(log := log), x, y);
    AppearsLater(log, EvalPipeline(p, after, os, 1).shell.log, x);
  }

  lemma FarExtractEnds(ssh: Command, path: string, clean: bool, sh: Shell, x: seq<string>, y: seq<string>)
    requires T.SshWithScript(ssh) && T.ExtractTree(RemoteScript(ssh).value, path, clean, y) && TwoTars(x, y)
    ensures var r := EvalCommand(ssh, sh, OnlyFails(x), 1); r.status == 0 && sh.log <= r.shell.log
  {
    var os, far := OnlyFails(x), Shell(false, true, sh.log);
    var t := RemoteScript(ssh).value;
    SshIsNotSet(ssh);
    SshArgsDiffer(ssh, x);
    FarScriptEnds(t, path, clean, far, x, y);
    LinkHolds(ssh, sh, os);
  }

  lemma FarScriptEnds(t: Tree, path: string, clean: bool, far: Shell, x: seq<string>, y: seq<string>)
    requires T.ExtractTree(t, path, clean, y) && TwoTars(x, y)
    ensures var r := EvalTree(t, far, OnlyFails(x), 0); r.status == 0 && far.log <= r.shell.log
  {
    var a := t[0];
    var at := PreparedReaches(a, path, clean, far, 0, x);
    assert a[Guards(clean)] == [a[Guards(clean)][0]];
    OtherTarEnds(a[Guards(clean)][0], at, 0, x, y);
    assert EvalTree(t, far, OnlyFails(x), 0) == EvalAnd(a, far, OnlyFails(x), 0);
  }

  /** Leave the first list of any built transfer out, and there is a run that
      exits 0 in which the tar that reads was started, and failed every time. */
  lemma PipefailIsNeeded(c: T.TransferCmd, text: string)
    requires c.Accepted() && c.IsReadOf(text)
    ensures exists os: Os :: var r := EvalTree(Parse(text).value[1..], FRESH, os, 1);
              r.status == 0 && Appears(r.shell.log, T.CreateArgs(c.Program(), c.srcPath)) &&
              NoSuccess(r.shell.log, T.CreateArgs(c.Program(), c.srcPath))
  {
    var t, x, y := Parse(text).value, T.CreateArgs(c.Program(), c.srcPath), T.ExtractArgs(c.Decompressor(), c.destPath);
    CreateAndExtract(c);
    if c.local {
      LocalWithout(t, c.srcPath, c.destPath, c.clean, x, y);
    } else if c.push {
      PushWithout(t, c.srcPath, c.destPath, c.clean, x, y);
    } else {
      PullWithout(t, c.srcPath, c.destPath, c.clean, x, y);
    }
    NoneSucceeds(t[1..], x);
    assert EndsWell(EvalTree(t[1..], FRESH, OnlyFails(x), 1), x);
  }

  lemma NoneSucceeds(t: Tree, argv: seq<string>)
    requires argv != [] && argv[0] == "tar"
    ensures NoSuccess(EvalTree(t, FRESH, OnlyFails(argv), 1).shell.log, argv)
  {
    TreeNeverSucceeds(t, FRESH, OnlyFails(argv), 1, argv);
  }

  /** An archive file: tar is guarded, and exit status 0 means tar's own. */
  lemma ArchiveRuns(c: A.Cmd, text: string, os: Os)
    requires c.Accepted() && c.IsReadOf(text)
    ensures RunScript(text, os).Some? &&
            var r := RunScript(text, os).value;
            if c.direction == BACKUP then
              Guarded(r.shell.log, c.BackupArgs(), GoPath.Dir(c.archivePath), false) &&
              (r.status == 0 ==> Succeeded(r.shell.log, c.BackupArgs(), false))
            else
              Guarded(r.shell.log, c.RestoreArgs(), c.dataPath, c.clean) &&
              (r.status == 0 ==> Succeeded(r.shell.log, c.RestoreArgs(), false))
  {
    var t := Parse(text).value;
    assert EvalTree(t, FRESH, os, 1) == EvalAnd(t[0], FRESH, os, 1);
    var added: seq<Ran>;
    if c.direction == BACKUP {
      added := PreparedTar(t[0], GoPath.Dir(c.archivePath), false, FRESH, os, 1, c.BackupArgs());
    } else {
      added := PreparedTar(t[0], c.dataPath, c.clean, FRESH, os, 1, c.RestoreArgs());
    }
    assert [] + added == added;
  }

  lemma RcloneIsOrdinary(c: S.StreamCmd, cmd: Command)
    requires c.IsRclone(cmd)
    ensures Ordinary(cmd)
    ensures forall argv: seq<string> :: argv != [] && argv[0] == "tar" ==> Args(cmd) != Some(argv)
  {
    assert Field(cmd.words[0]) == Some("rclone");
    if Args(cmd).Some? {
      ArgsFields(cmd.words, Args(cmd).value);
    }
  }

  /** A stream restored: the tar that extracts is guarded, and exit status 0
      means that both ends of the pipe exited 0. */
  lemma StreamRestoreRuns(c: S.StreamCmd, text: string, os: Os)
    requires c.Accepted() && c.IsReadOf(text) && c.direction == RESTORE
    ensures RunScript(text, os).Some? &&
            var r := RunScript(text, os).value;
            Guarded(r.shell.log, c.TarArguments(), c.dataPath, c.clean) &&
            (r.status == 0 ==> BothEnds(c, r.shell.log))
  {
    var t := Parse(text).value;
    PipefailSet(t, os, 1);
    assert t[1..] == [t[1]];
    RcloneIntoTar(c, t[1], FRESH.(pipefail := true), os);
  }

  lemma RcloneIntoTar(c: S.StreamCmd, a: AndList, sh: Shell, os: Os)
    requires c.Accepted() && sh.pipefail && !sh.remote && sh.log == [] && c.direction == RESTORE
    requires Prepares(a, c.dataPath, c.clean) && |a[Guards(c.clean)]| == 2
    requires c.IsRclone(a[Guards(c.clean)][0]) && Is(a[Guards(c.clean)][1], c.TarArguments())
    ensures var r := EvalAnd(a, sh, os, 1);
            Guarded(r.shell.log, c.TarArguments(), c.dataPath, c.clean) && (r.status == 0 ==> BothEnds(c, r.shell.log))
  {
    var sh1, rclone := sh.(log := Passed(a, c.clean, sh)), a[Guards(c.clean)][0];
    RcloneIsOrdinary(c, rclone);
    OrdinaryRuns(rclone, sh1, os, 1);
    var added := [Ran(rclone, os(|sh1.log|, rclone), false)];
    PreparedPipe(a, c.dataPath, c.clean, sh, os, added, c.TarArguments());
    BothRan(c, sh1.log, added[0], Ran(a[Guards(c.clean)][1], 0, false));
  }

  lemma BothRan(c: S.StreamCmd, before: seq<Ran>, rclone: Ran, tar: Ran)
    requires c.Accepted() && Is(tar.command, c.TarArguments()) && tar.status == 0 && !tar.remote &&
             c.IsRclone(rclone.command)
    ensures rclone.status == 0 ==> BothEnds(c, before + [rclone] + [tar])
  {
    var log := before + [rclone] + [tar];
    assert log[|before|] == rclone && log[|before| + 1] == tar;
  }

  /** Both ends of the pipe ran and answered 0. */
  ghost predicate BothEnds(c: S.StreamCmd, log: seq<Ran>)
    requires c.Accepted()
  {
    Succeeded(log, c.TarArguments(), false) &&
    exists i :: 0 <= i < |log| && log[i].status == 0 && c.IsRclone(log[i].command)
  }

  /** A list of one ordinary command changes nothing but the log. */
  lemma SkipCommand(t: Tree, sh: Shell, os: Os) returns (after: Shell)
    requires |t| >= 2 && |t[0]| == 1 && |t[0][0]| == 1 && Ordinary(t[0][0][0])
    ensures EvalTree(t, sh, os, 1) == EvalTree(t[1..], after, os, 1)
    ensures after.pipefail == sh.pipefail && after.remote == sh.remote
  {
    assert t[0][0] == [t[0][0][0]];
    OrdinaryRuns(t[0][0][0], sh, os, 1);
    after := EvalAnd(t[0], sh, os, 1).shell;
  }

  /** So does `test && command`. */
  lemma SkipTest(t: Tree, sh: Shell, os: Os) returns (after: Shell)
    requires |t| >= 2 && |t[0]| == 2 && |t[0][0]| == 1 && |t[0][1]| == 1 && Ordinary(t[0][0][0]) && Ordinary(t[0][1][0])
    ensures EvalTree(t, sh, os, 1) == EvalTree(t[1..], after, os, 1)
    ensures after.pipefail == sh.pipefail && after.remote == sh.remote
  {
    var test, set_ := t[0][0][0], t[0][1][0];
    assert t[0][0] == [test] && t[0][1] == [set_];
    OrdinaryRuns(test, sh, os, 1);
    var first := EvalPipeline([test], sh, os, 1);
    OrdinaryRuns(set_, first.shell, os, 1);
    assert t[0][1..] == [[set_]];
    assert EvalAnd([[set_]], first.shell, os, 1) == EvalPipeline([set_], first.shell, os, 1);
    after := EvalAnd(t[0], sh, os, 1).shell;
  }

  lemma AssignmentIsOrdinary(name: string, text: string)
    ensures Ordinary(Command([Chars(name, false) + [Sub(text, false)]], []))
  {
    var w := Chars(name, false) + [Sub(text, false)];
    assert w[|name|] == Sub(text, false);
  }

  lemma FloorIsOrdinary(a: AndList)
    requires S.FloorsChunk(a)
    ensures Ordinary(a[0][0]) && Ordinary(a[1][0])
  {
    var w := a[0][0].words[0];
    assert w[0] == Ch('[', false) && Field(w) == None;
    ArgsFields(a[1][0].words, ["chunk=5"]);
  }

  /** pipefail set, then the three lists that size the chunk, change nothing
      else the pipeline behind them sees. */
  lemma SizingSkipped(t: Tree, used: string, formula: string, os: Os) returns (after: Shell)
    requires |t| == 5 && T.SetsPipefail(t[0]) && S.Assigns(t[1], "used=", used) && S.Assigns(t[2], "chunk=", formula)
    requires S.FloorsChunk(t[3])
    ensures EvalTree(t, FRESH, os, 1) == EvalAnd(t[4], after, os, 1) && after.pipefail && !after.remote
  {
    PipefailSet(t, os, 1);
    AssignmentIsOrdinary("used=", used);
    var sh1 := SkipCommand(t[1..], FRESH.(pipefail := true), os);
    AssignmentIsOrdinary("chunk=", formula);
    assert t[1..][1..] == t[2..] && t[2..][1..] == t[3..] && t[3..][1..] == [t[4]];
    var sh2 := SkipCommand(t[2..], sh1, os);
    FloorIsOrdinary(t[3]);
    after := SkipTest(t[3..], sh2, os);
  }

  /** A stream backed up: exit status 0 means that both ends exited 0. */
  lemma StreamBackupRuns(c: S.StreamCmd, text: string, os: Os)
    requires c.Accepted() && c.IsReadOf(text) && c.direction == BACKUP
    ensures RunScript(text, os).Some? &&
            (RunScript(text, os).value.status == 0 ==> BothEnds(c, RunScript(text, os).value.shell.log))
  {
    var t := Parse(text).value;
    var sh := SizingSkipped(t, UsedText(c.dataPath), S.CHUNK_FORMULA, os);
    assert t[4] == [t[4][0]];
    assert EvalAnd(t[4], sh, os, 1) == EvalPipeline(t[4][0], sh, os, 1);
    PipeIntoRclone(c, t[4][0], sh, os);
  }

  lemma PipeIntoRclone(c: S.StreamCmd, p: Pipeline, sh: Shell, os: Os)
    requires c.Accepted() && |p| == 2 && sh.pipefail && !sh.remote && Is(p[0], c.TarArguments()) && c.IsRclone(p[1])
    ensures EvalPipeline(p, sh, os, 1).status == 0 ==> BothEnds(c, EvalPipeline(p, sh, os, 1).shell.log)
  {
    ProgramIsOrdinary(p[0], c.TarArguments());
    OrdinaryRuns(p[0], sh, os, 1);
    var first := EvalCommand(p[0], sh, os, 1);
    RcloneIsOrdinary(c, p[1]);
    OrdinaryRuns(p[1], sh.(log := first.shell.log), os, 1);
    PipeOfTwo(p, sh, os, 1);
    var r := EvalPipeline(p, sh, os, 1);
    if r.status == 0 {
      assert r.shell.log[|sh.log|] == Ran(p[0], 0, false);
      assert r.shell.log[|sh.log| + 1] == Ran(p[1], 0, false);
    }
  }
}
