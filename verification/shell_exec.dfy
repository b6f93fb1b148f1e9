/** Running a tree: exit statuses of pipelines with and without `pipefail`,
    `&&` lists and `;` lists (sections 2.8.2, 2.9.2 and 2.9.3 of the POSIX Shell
    Command Language), and an `ssh` that hands its last argument to a second
    shell, which reads it again. What a program answers is the environment's
    choice, so every statement below is for all `Os`. */
module ShellExec {
  import opened Outcome
  import opened ShellLexer
  import opened ShellSyntax

  /** The exit status of the n-th command started. For an ssh the answer is
      about the link: 0 for a link that held, 1 for one that broke after the
      remote command ran, anything else for one that was never made. */
  type Os = (nat, Command) -> nat

  /** One command that was started, where, and how it ended. */
  datatype Ran = Ran(command: Command, status: nat, remote: bool)

  datatype Shell = Shell(pipefail: bool, remote: bool, log: seq<Ran>)

  datatype After = After(shell: Shell, status: nat)

  const SSH_FAILED := 255
  const SYNTAX_ERROR := 2

  /** The single field a word expands to when it holds literal characters only
      and none that pathname or tilde expansion would act on. */
  function Field(w: Word): Option<string> {
    if forall i :: 0 <= i < |w| ==> w[i].Ch? && (w[i].quoted || w[i].c !in {'*', '?', '[', '~'})
    then Some(seq(|w|, i requires 0 <= i < |w| => if w[i].Ch? then w[i].c else ' '))
    else None
  }

  /** The arguments of a command whose words are all literal. */
  function Args(c: Command): Option<seq<string>> { Collect(Field, c.words) }

  predicate IsSetPipefail(c: Command) { Args(c) == Some(["set", "-o", "pipefail"]) }

  predicate IsSsh(c: Command) { |c.words| >= 2 && Field(c.words[0]) == Some("ssh") }

  function RemoteScript(c: Command): Option<Tree>
    requires IsSsh(c)
  {
    match Field(c.words[|c.words| - 1])
    case None => None
    case Some(text) => Parse(text)
  }

  function Record(sh: Shell, c: Command, status: nat): After {
    After(sh.(log := sh.log + [Ran(c, status, sh.remote)]), status)
  }

  /** `hops` bounds how many ssh connections are looked into; an ssh beyond them
      is a program like any other. */
  function EvalCommand(c: Command, sh: Shell, os: Os, hops: nat): After
    decreases hops, 0
  {
    if IsSetPipefail(c) then After(sh.(pipefail := true), 0)
    else
      var answer := os(|sh.log|, c);
      if IsSsh(c) && hops > 0 then
        if answer > 1 then Record(sh, c, SSH_FAILED)
        else
          match RemoteScript(c)
          case None => Record(sh, c, if answer == 0 then SYNTAX_ERROR else SSH_FAILED)
          case Some(tree) =>
            var far := EvalTree(tree, Shell(false, true, sh.log), os, hops - 1);
            Record(sh.(log := far.shell.log), c, if answer == 0 then far.status else SSH_FAILED)
      else Record(sh, c, answer)
  }

  /** Every command of a pipeline runs in a subshell of its own: what it logs
      is kept, what it sets is not. */
  function EvalAll(p: Pipeline, sh: Shell, os: Os, hops: nat): (r: (seq<Ran>, seq<nat>))
    ensures |r.1| == |p|
    decreases hops, 1, |p|
  {
    if p == [] then (sh.log, [])
    else
      var first := EvalCommand(p[0], sh, os, hops);
      var rest := EvalAll(p[1..], sh.(log := first.shell.log), os, hops);
      (rest.0, [first.status] + rest.1)
  }

  /** Without pipefail the last status; with it the last one that is not zero. */
  function PipelineStatus(statuses: seq<nat>, pipefail: bool): nat {
    if statuses == [] then 0
    else
      var last := statuses[|statuses| - 1];
      if !pipefail || last != 0 then last
      else PipelineStatus(statuses[..|statuses| - 1], pipefail)
  }

  function EvalPipeline(p: Pipeline, sh: Shell, os: Os, hops: nat): After
    decreases hops, 2
  {
    if |p| == 1 then EvalCommand(p[0], sh, os, hops)
    else
      var all := EvalAll(p, sh, os, hops);
      After(sh.(log := all.0), PipelineStatus(all.1, sh.pipefail))
  }

  function EvalAnd(a: AndList, sh: Shell, os: Os, hops: nat): After
    decreases hops, 3, |a|
  {
    if a == [] then After(sh, 0)
    else
      var first := EvalPipeline(a[0], sh, os, hops);
      if first.status != 0 || |a| == 1 then first else EvalAnd(a[1..], first.shell, os, hops)
  }

  function EvalTree(t: Tree, sh: Shell, os: Os, hops: nat): After
    decreases hops, 4, |t|
  {
    if t == [] then After(sh, 0)
    else
      var first := EvalAnd(t[0], sh, os, hops);
      if |t| == 1 then first else EvalTree(t[1..], first.shell, os, hops)
  }

  /** Running a command string as `sh -c` does. */
  function RunScript(script: string, os: Os): Option<After> {
    match Parse(script)
    case None => None
    case Some(tree) => Some(EvalTree(tree, Shell(false, false, []), os, 1))
  }

  // ---- what the operators guarantee, for all operands

  lemma {:induction false} PipefailZero(statuses: seq<nat>)
    ensures PipelineStatus(statuses, true) == 0 <==> forall i :: 0 <= i < |statuses| ==> statuses[i] == 0
  {
    if statuses != [] {
      PipefailZero(statuses[..|statuses| - 1]);
    }
  }

  lemma {:induction false} FieldOfChars(s: string, quoted: bool)
    requires quoted || AllPlain(s)
    requires !quoted ==> '[' !in s
    ensures Field(Chars(s, quoted)) == Some(s)
  {
    var w := Chars(s, quoted);
    assert seq(|w|, i requires 0 <= i < |w| => if w[i].Ch? then w[i].c else ' ') == s;
  }
}
