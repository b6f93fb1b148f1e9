/** internal/archive/transfer.go: copying one volume into another with tar at
    both ends, over ssh or inside one pod. */
module TransferCommand {
  import opened Decimal
  import opened Outcome
  import opened ShellQuote
  import opened ShellLexer
  import opened ShellSyntax
  import opened ShellReading
  import opened ShellExec
  import opened ArchiveWords
  import opened ArchiveNames
  import opened ArchiveParts
  import GoPath
  import OneLine

  const TRANSPORT_LEVEL := 1

  const PRINTF_FORMAT := TOTAL_MARKER + " %s\\n"

  const SSH_OPTIONS := [
    "-o", "StrictHostKeyChecking=no", "-o", "UserKnownHostsFile=/dev/null", "-o", "ConnectTimeout=5",
    "-o", "ServerAliveInterval=10", "-o", "ServerAliveCountMax=3"
  ]

  const SET_PIPEFAIL := ["set", "-o", "pipefail"]

  /** What follows -C, and the member named behind it. */
  function TarSource(srcPath: string): (string, string) {
    if srcPath != "" && srcPath[|srcPath| - 1] == '/' then (srcPath, ".")
    else (GoPath.Dir(srcPath), GoPath.Base(srcPath))
  }

  function CreateArgs(program: string, srcPath: string): seq<string> {
    var (dir, member) := TarSource(srcPath);
    TarArgs(TAR_CREATE, program, ["-f", "-", "-C"] + [dir] + [member])
  }

  function ExtractArgs(program: string, path: string): seq<string> {
    TarArgs(TAR_EXTRACT, program, ["-f", "-", "-C"] + [path])
  }

  datatype TransferCmd = TransferCmd(
    push: bool, sshUser: string, sshHost: string, port: int, srcPath: string, destPath: string,
    compression: string, level: int, clean: bool, local: bool
  ) {

    // ---- what is asked of the command

    function EffectiveCompression(): string {
      if local then NONE else if compression == "" then ZSTD else compression
    }

    function EffectiveLevel(): int {
      if EffectiveCompression() == NONE then 0 else if level == 0 then TRANSPORT_LEVEL else level
    }

    /** Every field the form uses is there and fits on one line, and the
        compressor exists at that level. */
    predicate Accepted() {
      srcPath != "" && SingleLine(srcPath) && destPath != "" && SingleLine(destPath) &&
      (!local ==> sshUser != "" && SingleLine(sshUser) && sshHost != "" && SingleLine(sshHost)) &&
      CompressProgram(EffectiveCompression(), EffectiveLevel()).Ok?
    }

    function Program(): string
      requires Accepted()
    {
      CompressProgram(EffectiveCompression(), EffectiveLevel()).value +
      (if EffectiveCompression() == ZSTD then " --progress" else "")
    }

    function Decompressor(): string { DecompressProgram(EffectiveCompression()) }

    function PortArgs(): seq<string> { if port != 0 then ["-p"] + [Itoa(port)] else [] }

    function SshWords(): seq<string> { ["ssh"] + SSH_OPTIONS + PortArgs() }

    function SshArgs(script: string): seq<string> { SshWords() + [sshUser + "@" + sshHost] + [script] }

    // ---- the tree the command has to be read as

    /** The announcement on stderr, then the tree written to stdout. */
    predicate Creates(t: Tree)
      requires Accepted()
    {
      CreateTree(t, srcPath, CreateArgs(Program(), srcPath))
    }

    /** Prepare, and only then extract. */
    predicate PreparesAndExtracts(t: Tree) { ExtractTree(t, destPath, clean, ExtractArgs(Decompressor(), destPath)) }

    /** An ssh to this target with one more argument, which a second shell can
        read; RemoteScript is the tree it reads. */
    predicate IsSshTo(c: Command) {
      IsSsh(c) && RemoteScript(c).Some? && c.redirects == [] &&
      match Args(c)
      case None => false
      case Some(args) => |args| > 0 && args[..|args| - 1] == SshWords() + [sshUser + "@" + sshHost]
    }

    predicate PushTree(t: Tree)
      requires Accepted()
    {
      PushForm(t, srcPath, destPath, clean, CreateArgs(Program(), srcPath), ExtractArgs(Decompressor(), destPath)) &&
      IsSshTo(t[2][0][1])
    }

    predicate PullTree(t: Tree)
      requires Accepted()
    {
      PullForm(t, srcPath, destPath, clean, CreateArgs(Program(), srcPath), ExtractArgs(Decompressor(), destPath)) &&
      IsSshTo(t[1][Guards(clean)][0])
    }

    predicate LocalTree(t: Tree)
      requires Accepted()
    {
      LocalForm(t, srcPath, destPath, clean, CreateArgs(Program(), srcPath), ExtractArgs(Decompressor(), destPath))
    }

    predicate IsBuiltAs(t: Tree)
      requires Accepted()
    {
      if local then LocalTree(t) else if push then PushTree(t) else PullTree(t)
    }

    /** A POSIX shell reads the text as this command's tree. */
    predicate IsReadOf(text: string)
      requires Accepted()
    {
      match Parse(text)
      case None => false
      case Some(t) => IsBuiltAs(t)
    }
  }

  predicate SetsPipefail(a: AndList) { |a| == 1 && |a[0]| == 1 && Is(a[0][0], SET_PIPEFAIL) }

  /** One printf to stderr of what df measures of this path. */
  predicate Announces(a: AndList, path: string) {
    |a| == 1 && |a[0]| == 1 &&
    var c := a[0][0];
    |c.words| == 3 && Field(c.words[0]) == Some("printf") && Field(c.words[1]) == Some(PRINTF_FORMAT) &&
    c.words[2] == [Sub(UsedText(path), true)] && Measures(UsedText(path), path) &&
    c.redirects == [Redirect(">&", Chars("2", false))]
  }

  // ---- the three forms, for any two programs x and y

  predicate CreateTree(t: Tree, srcPath: string, x: seq<string>) {
    |t| == 2 && Announces(t[0], srcPath) && |t[1]| == 1 && |t[1][0]| == 1 && Is(t[1][0][0], x)
  }

  predicate ExtractTree(t: Tree, destPath: string, clean: bool, y: seq<string>) {
    |t| == 1 && Prepares(t[0], destPath, clean) && |t[0][Guards(clean)]| == 1 && Is(t[0][Guards(clean)][0], y)
  }

  /** An ssh whose last argument a second shell reads. */
  predicate SshWithScript(c: Command) { IsSsh(c) && RemoteScript(c).Some? }

  /** x runs here, ssh carries it to a remote prepare and y. */
  predicate PushForm(t: Tree, srcPath: string, destPath: string, clean: bool, x: seq<string>, y: seq<string>) {
    |t| == 3 && SetsPipefail(t[0]) && Announces(t[1], srcPath) && |t[2]| == 1 && |t[2][0]| == 2 && Is(t[2][0][0], x) &&
    SshWithScript(t[2][0][1]) && ExtractTree(RemoteScript(t[2][0][1]).value, destPath, clean, y)
  }

  /** Prepare here, and only then y of what a remote x writes. */
  predicate PullForm(t: Tree, srcPath: string, destPath: string, clean: bool, x: seq<string>, y: seq<string>) {
    |t| == 2 && SetsPipefail(t[0]) && Prepares(t[1], destPath, clean) && |t[1][Guards(clean)]| == 2 &&
    Is(t[1][Guards(clean)][1], y) && SshWithScript(t[1][Guards(clean)][0]) &&
    CreateTree(RemoteScript(t[1][Guards(clean)][0]).value, srcPath, x)
  }

  /** Both ends in one pod. The `;` that ends the announcement also ends the
      prepare list, so the pipeline is a list of its own. */
  predicate LocalForm(t: Tree, srcPath: string, destPath: string, clean: bool, x: seq<string>, y: seq<string>) {
    |t| == 3 && SetsPipefail(t[0]) && Prepares(t[1], destPath, clean) && Announces([t[1][Guards(clean)]], srcPath) &&
    |t[2]| == 1 && |t[2][0]| == 2 && Is(t[2][0][0], x) && Is(t[2][0][1], y)
  }

  // ---- the commands as source

  function AnnounceText(path: string): string {
    "printf " + ("'" + PRINTF_FORMAT + "'") + " " + ("\"$(" + UsedText(path) + ")\"") + " >&2"
  }

  function AnnounceItems(path: string): seq<Item> {
    PrintfItems(PRINTF_FORMAT, UsedText(path))
  }

  lemma FormatQuoted()
    ensures Quote(PRINTF_FORMAT) == "'" + PRINTF_FORMAT + "'"
  {
    QuoteOfPlainText(PRINTF_FORMAT);
  }

  lemma AnnounceSpelled(path: string)
    ensures CommandText(AnnounceItems(path)) == AnnounceText(path)
  {
    FormatQuoted();
    PrintfSpelled(PRINTF_FORMAT, "'" + PRINTF_FORMAT + "'", UsedText(path));
  }

  lemma PrintfSpelled(format: string, quoted: string, used: string)
    requires Quote(format) == quoted
    ensures CommandText(PrintfItems(format, used)) == "printf " + quoted + " " + ("\"$(" + used + ")\"") + " >&2"
  {
    var sub, into := WordOf([DoubleSub(used)]), Into(">&", "2");
    var ts := "\"$(" + used + ")\"";
    SpellsPlain(["printf"]);
    QuotedText(format);
    RedirectedText(used, ts);
    CommandTextOf([Quoted(format)], [sub] + [into]);
    CommandTextOf(Plain(["printf"]), [Quoted(format)] + ([sub] + [into]));
    AnnounceGlued(quoted, ts);
  }

  lemma RedirectedText(used: string, ts: string)
    requires ts == "\"$(" + used + ")\""
    ensures CommandText([WordOf([DoubleSub(used)])] + [Into(">&", "2")]) == ts + " " + (">&" + "2")
  {
    assert WordText([DoubleSub(used)]) == ts + WordText([]) == ts;
    CommandTextOf([WordOf([DoubleSub(used)])], [Into(">&", "2")]);
  }

  lemma AnnounceGlued(a: string, b: string)
    ensures "printf" + " " + (a + " " + (b + " " + (">&" + "2"))) == "printf " + a + " " + b + " >&2"
  {
    assert "printf" + " " == "printf " && " " + (">&" + "2") == " >&2";
  }

  lemma AnnounceReads(path: string)
    ensures ValidCommand(AnnounceItems(path)) && CommandText(AnnounceItems(path)) == AnnounceText(path)
    ensures Announces([[CommandTree(AnnounceItems(path))]], path)
  {
    AnnounceSpelled(path);
    UsedNests(path);
    UsedMeasures(path);
    AnnounceMeans(PRINTF_FORMAT, UsedText(path));
  }

  function PrintfItems(format: string, text: string): seq<Item> {
    Plain(["printf"]) + ([Quoted(format)] + ([WordOf([DoubleSub(text)])] + [Into(">&", "2")]))
  }

  lemma AnnounceMeans(format: string, text: string)
    requires SubSafe(text)
    ensures ValidCommand(PrintfItems(format, text))
    ensures var c := CommandTree(PrintfItems(format, text));
            |c.words| == 3 && Field(c.words[0]) == Some("printf") && Field(c.words[1]) == Some(format) &&
            c.words[2] == [Sub(text, true)] && c.redirects == [Redirect(">&", Chars("2", false))]
  {
    var sub, into := WordOf([DoubleSub(text)]), Into(">&", "2");
    var i3 := [sub] + [into];
    var i2 := [Quoted(format)] + i3;
    AloneInto(">&", "2");
    WordFirst(DoubleSub(text), [Sub(text, true)], [into]);
    WordFirst(Literal(format), Chars(format, true), i3);
    WordFirst(Bare("printf"), Chars("printf", false), i2);
    assert [[Sub(text, true)]] + [] == [[Sub(text, true)]];
    FieldOfChars(format, true);
    FieldOfChars("printf", false);
    Unreserved();
    FirstWord("printf", [Bare("printf")]);
    assert PrintfItems(format, text) == [WordOf([Bare("printf")])] + i2;
  }

  lemma AloneInto(op: string, target: string)
    ensures CommandTree([Into(op, target)]) == Command([], [Redirect(op, Chars(target, false))])
  {
    assert [Into(op, target)][1..] == [];
  }

  /** A command that starts with a word of one chunk. */
  lemma WordFirst(chunk: Chunk, word: Word, rest: seq<Item>)
    requires Pieces(chunk) == word
    ensures CommandTree([WordOf([chunk])] + rest) == CommandTree(rest).(words := [word] + CommandTree(rest).words)
  {
    assert ([WordOf([chunk])] + rest)[1..] == rest;
    assert [chunk][1..] == [] && WordPieces([chunk]) == word + [] == word;
  }

  lemma SetRuns()
    ensures Runs(Plain(SET_PIPEFAIL), "set -o pipefail", SET_PIPEFAIL)
  {
    SetSpelled();
    Unreserved();
    SpelledRuns("set", Plain(SET_PIPEFAIL), "set -o pipefail", SET_PIPEFAIL);
  }

  lemma SetSpelled()
    ensures Spells(Plain(SET_PIPEFAIL), "set -o pipefail", SET_PIPEFAIL)
  {
    ThreePlain("set", "-o", "pipefail");
    SetGlued();
  }

  lemma SetGlued()
    ensures "set" + " " + ("-o" + " " + "pipefail") == "set -o pipefail"
  {
    assert "-o" + " " + "pipefail" == "-o pipefail";
  }

  lemma EndPlain()
    ensures Spells(Plain(["-f", "-", "-C"]), "-f - -C", ["-f", "-", "-C"])
  {
    ThreePlain("-f", "-", "-C");
    assert "-f" + " " + ("-" + " " + "-C") == "-f - -C";
  }

  function CreateText(program: string, srcPath: string): string {
    var (dir, member) := TarSource(srcPath);
    TarText(TAR_CREATE_TEXT, program, "-f - -C " + Quote(dir) + " " + Quote(member))
  }

  function CreateItems(program: string, srcPath: string): seq<Item> {
    var (dir, member) := TarSource(srcPath);
    TarItems(TAR_CREATE, program, Plain(["-f", "-", "-C"]) + [Quoted(dir)] + [Quoted(member)])
  }

  lemma CreateRuns(program: string, srcPath: string)
    ensures Runs(CreateItems(program, srcPath), CreateText(program, srcPath), CreateArgs(program, srcPath))
  {
    var (dir, member) := TarSource(srcPath);
    TarTexts();
    CreateEnd(dir, member);
    TarSpelled(TAR_CREATE, TAR_CREATE_TEXT, program, Plain(["-f", "-", "-C"]) + [Quoted(dir)] + [Quoted(member)],
               "-f - -C " + Quote(dir) + " " + Quote(member), ["-f", "-", "-C"] + [dir] + [member]);
    Unreserved();
    assert CreateItems(program, srcPath)[0] == Plain(TAR_CREATE)[0];
    SpelledRuns("tar", CreateItems(program, srcPath), CreateText(program, srcPath), CreateArgs(program, srcPath));
  }

  lemma CreateEnd(dir: string, member: string)
    ensures Spells(Plain(["-f", "-", "-C"]) + [Quoted(dir)] + [Quoted(member)],
                   "-f - -C " + Quote(dir) + " " + Quote(member), ["-f", "-", "-C"] + [dir] + [member])
  {
    EndPlain();
    PlainThenQuoted(["-f", "-", "-C"], "-f - -C", dir);
    SpellsQuoted(member);
    SpellsBoth(Plain(["-f", "-", "-C"]) + [Quoted(dir)], "-f - -C" + " " + Quote(dir), ["-f", "-", "-C"] + [dir],
               [Quoted(member)], Quote(member), [member]);
    assert "-f - -C" + " " == "-f - -C ";
  }

  function ExtractText(program: string, path: string): string {
    TarText(TAR_EXTRACT_TEXT, program, "-f - -C " + Quote(path))
  }

  function ExtractItems(program: string, path: string): seq<Item> {
    TarItems(TAR_EXTRACT, program, Plain(["-f", "-", "-C"]) + [Quoted(path)])
  }

  lemma ExtractRuns(program: string, path: string)
    ensures Runs(ExtractItems(program, path), ExtractText(program, path), ExtractArgs(program, path))
  {
    TarTexts();
    EndPlain();
    PlainThenQuoted(["-f", "-", "-C"], "-f - -C", path);
    assert "-f - -C" + " " == "-f - -C ";
    TarSpelled(TAR_EXTRACT, TAR_EXTRACT_TEXT, program, Plain(["-f", "-", "-C"]) + [Quoted(path)],
               "-f - -C " + Quote(path), ["-f", "-", "-C"] + [path]);
    Unreserved();
    assert ExtractItems(program, path)[0] == Plain(TAR_EXTRACT)[0];
    SpelledRuns("tar", ExtractItems(program, path), ExtractText(program, path), ExtractArgs(program, path));
  }

  function SshItems(c: TransferCmd, script: string): seq<Item> {
    Plain(c.SshWords()) + [Quoted(c.sshUser + "@" + c.sshHost)] + [Quoted(script)]
  }

  function SshPrefixText(c: TransferCmd): string {
    ShellSyntax.Join(c.SshWords(), " ") + " " + Quote(c.sshUser + "@" + c.sshHost)
  }

  lemma OptionWords()
    ensures PlainWords(SSH_OPTIONS) && NoGlob(SSH_OPTIONS)
  {
    OptionsA();
    OptionsB();
  }

  lemma OptionsA()
    ensures AllPlain("StrictHostKeyChecking=no") && AllPlain("UserKnownHostsFile=/dev/null")
    ensures '[' !in "StrictHostKeyChecking=no" && '[' !in "UserKnownHostsFile=/dev/null"
  {
    StrictOption();
    HostsOption();
  }

  lemma StrictOption()
    ensures AllPlain("StrictHostKeyChecking=no") && '[' !in "StrictHostKeyChecking=no"
  {}

  lemma HostsOption()
    ensures AllPlain("UserKnownHostsFile=/dev/null") && '[' !in "UserKnownHostsFile=/dev/null"
  {}

  lemma OptionsB()
    ensures AllPlain("-o") && AllPlain("ConnectTimeout=5") && AllPlain("ServerAliveInterval=10") &&
            AllPlain("ServerAliveCountMax=3")
    ensures '[' !in "-o" && '[' !in "ConnectTimeout=5" && '[' !in "ServerAliveInterval=10" &&
            '[' !in "ServerAliveCountMax=3"
  {
    TimeoutOption();
    AliveOptions();
  }

  lemma TimeoutOption()
    ensures AllPlain("-o") && AllPlain("ConnectTimeout=5") && '[' !in "-o" && '[' !in "ConnectTimeout=5"
  {}

  lemma AliveOptions()
    ensures AllPlain("ServerAliveInterval=10") && AllPlain("ServerAliveCountMax=3")
    ensures '[' !in "ServerAliveInterval=10" && '[' !in "ServerAliveCountMax=3"
  {}

  lemma PortWords(c: TransferCmd)
    ensures PlainWords(c.PortArgs()) && NoGlob(c.PortArgs())
  {
    assert AllPlain(Itoa(c.port)) && '[' !in Itoa(c.port);
  }

  lemma SshRuns(c: TransferCmd, script: string)
    ensures Runs(SshItems(c, script), SshPrefixText(c) + " " + Quote(script), c.SshArgs(script))
  {
    OptionWords();
    PortWords(c);
    var words := c.SshWords();
    assert PlainWords(words) && NoGlob(words) by {
      forall i | 0 <= i < |words| ensures words[i] != "" && AllPlain(words[i]) && '[' !in words[i] {
        assert words[i] == "ssh" || words[i] in SSH_OPTIONS || words[i] in c.PortArgs();
      }
    }
    SpellsPlain(words);
    PlainThenQuoted(words, ShellSyntax.Join(words, " "), c.sshUser + "@" + c.sshHost);
    SpellsQuoted(script);
    SpellsBoth(Plain(words) + [Quoted(c.sshUser + "@" + c.sshHost)], SshPrefixText(c),
               words + [c.sshUser + "@" + c.sshHost],
               [Quoted(script)], Quote(script), [script]);
    Unreserved();
    SpelledRuns("ssh", SshItems(c, script), SshPrefixText(c) + " " + Quote(script), c.SshArgs(script));
  }

  lemma SshReads(c: TransferCmd, script: string)
    requires Parse(script).Some?
    ensures var cmd := CommandTree(SshItems(c, script));
            c.IsSshTo(cmd) && RemoteScript(cmd) == Parse(script)
  {
    SshRuns(c, script);
    var cmd := CommandTree(SshItems(c, script));
    var args := c.SshArgs(script);
    ArgsFields(cmd.words, args);
    assert args[..|args| - 1] == c.SshWords() + [c.sshUser + "@" + c.sshHost];
  }

  // ---- what each string a Build writes is read as

  lemma CreateRead(c: TransferCmd)
    requires c.Accepted()
    ensures var text := AnnounceText(c.srcPath) + "; " + CreateText(c.Program(), c.srcPath);
            Parse(text).Some? && c.Creates(Parse(text).value)
  {
    var announce, create := AnnounceItems(c.srcPath), CreateItems(c.Program(), c.srcPath);
    AnnounceReads(c.srcPath);
    CreateRuns(c.Program(), c.srcPath);
    CommandList(announce);
    CommandList(create);
    TwoListsRead([[announce]], [[create]]);
  }

  lemma RemoteExtractRead(c: TransferCmd)
    ensures var text := PreparePath(c.destPath, c.clean) + ExtractText(c.Decompressor(), c.destPath);
            Parse(text).Some? && c.PreparesAndExtracts(Parse(text).value)
  {
    var extract := ExtractItems(c.Decompressor(), c.destPath);
    ExtractRuns(c.Decompressor(), c.destPath);
    OneStage(extract);
    PrepareReads(c.destPath, c.clean, [extract]);
    OneListRead(PrepareSource(c.destPath, c.clean) + [[extract]]);
  }

  lemma SetList()
    ensures ValidAnd([[Plain(SET_PIPEFAIL)]]) && AndText([[Plain(SET_PIPEFAIL)]]) == "set -o pipefail"
    ensures SetsPipefail(AndTree([[Plain(SET_PIPEFAIL)]]))
  {
    SetRuns();
    CommandList(Plain(SET_PIPEFAIL));
  }

  lemma AnnounceList(path: string)
    ensures ValidAnd([[AnnounceItems(path)]]) && AndText([[AnnounceItems(path)]]) == AnnounceText(path)
    ensures Announces(AndTree([[AnnounceItems(path)]]), path)
  {
    AnnounceReads(path);
    CommandList(AnnounceItems(path));
  }

  lemma PushRead(c: TransferCmd)
    requires c.Accepted() && !c.local && c.push
    ensures var remote := PreparePath(c.destPath, c.clean) + ExtractText(c.Decompressor(), c.destPath);
            var text := "set -o pipefail" + "; " +
              (AnnounceText(c.srcPath) + "; " + (CreateText(c.Program(), c.srcPath) +
                        " | " + (SshPrefixText(c) + " " + Quote(remote))));
            c.IsReadOf(text)
  {
    var remote := PreparePath(c.destPath, c.clean) + ExtractText(c.Decompressor(), c.destPath);
    RemoteExtractRead(c);
    SetList();
    AnnounceList(c.srcPath);
    CreateRuns(c.Program(), c.srcPath);
    SshRuns(c, remote);
    SshReads(c, remote);
    PipeList(CreateItems(c.Program(), c.srcPath), SshItems(c, remote));
    ThreeListsRead([[Plain(SET_PIPEFAIL)]], [[AnnounceItems(c.srcPath)]],
                   [[CreateItems(c.Program(), c.srcPath), SshItems(c, remote)]]);
  }

  lemma PullRead(c: TransferCmd)
    requires c.Accepted() && !c.local && !c.push
    ensures var remote := AnnounceText(c.srcPath) + "; " + CreateText(c.Program(), c.srcPath);
            var text := "set -o pipefail" + "; " + (PreparePath(c.destPath, c.clean) +
                        (SshPrefixText(c) + " " + Quote(remote) + " | " + ExtractText(c.Decompressor(), c.destPath)));
            c.IsReadOf(text)
  {
    var remote := AnnounceText(c.srcPath) + "; " + CreateText(c.Program(), c.srcPath);
    var ssh, extract := SshItems(c, remote), ExtractItems(c.Decompressor(), c.destPath);
    CreateRead(c);
    SetList();
    SshRuns(c, remote);
    SshReads(c, remote);
    ExtractRuns(c.Decompressor(), c.destPath);
    TwoStages(ssh, extract);
    PrepareReads(c.destPath, c.clean, [ssh, extract]);
    TwoListsRead([[Plain(SET_PIPEFAIL)]], PrepareSource(c.destPath, c.clean) + [[ssh, extract]]);
  }

  lemma PrepareAnnounce(destPath: string, clean: bool, srcPath: string)
    ensures var a := PrepareSource(destPath, clean) + [[AnnounceItems(srcPath)]];
            ValidAnd(a) && AndText(a) == PreparePath(destPath, clean) + AnnounceText(srcPath) &&
            Prepares(AndTree(a), destPath, clean) && Announces([AndTree(a)[Guards(clean)]], srcPath)
  {
    var announce := AnnounceItems(srcPath);
    AnnounceReads(srcPath);
    OneStage(announce);
    PrepareReads(destPath, clean, [announce]);
  }

  lemma LocalPipe(c: TransferCmd)
    requires c.Accepted()
    ensures var create, extract := CreateItems(c.Program(), c.srcPath), ExtractItems(c.Decompressor(), c.destPath);
            ValidAnd([[create, extract]]) &&
            AndText([[create, extract]]) == CreateText(c.Program(), c.srcPath) + " | " +
            ExtractText(c.Decompressor(), c.destPath) &&
            var a := AndTree([[create, extract]]);
            |a| == 1 && |a[0]| == 2 && Is(a[0][0], CreateArgs(c.Program(), c.srcPath)) &&
            Is(a[0][1], ExtractArgs(c.Decompressor(), c.destPath))
  {
    CreateRuns(c.Program(), c.srcPath);
    ExtractRuns(c.Decompressor(), c.destPath);
    PipeList(CreateItems(c.Program(), c.srcPath), ExtractItems(c.Decompressor(), c.destPath));
  }

  lemma LocalRead(c: TransferCmd)
    requires c.Accepted() && c.local
    ensures var text := "set -o pipefail" + "; " +
            ((PreparePath(c.destPath, c.clean) + AnnounceText(c.srcPath)) + "; " +
                        (CreateText(c.Program(), c.srcPath) + " | " + ExtractText(c.Decompressor(), c.destPath)));
            c.IsReadOf(text)
  {
    SetList();
    PrepareAnnounce(c.destPath, c.clean, c.srcPath);
    LocalPipe(c);
    ThreeListsRead([[Plain(SET_PIPEFAIL)]], PrepareSource(c.destPath, c.clean) + [[AnnounceItems(c.srcPath)]],
                   [[CreateItems(c.Program(), c.srcPath), ExtractItems(c.Decompressor(), c.destPath)]]);
  }

  // ---- the builders

  lemma EndGlued(a: string, b: string)
    ensures a + " -f - -C " + b == a + " " + ("-f - -C " + b)
  {
    assert " " + "-f - -C " == " -f - -C ";
  }

  lemma AnnounceBuilt(format: string, used: string)
    ensures "printf '" + format + "' \"$(" + used + ")\" >&2; " ==
            "printf " + ("'" + format + "'") + " " + ("\"$(" + used + ")\"") + " >&2" + "; "
  {
    assert "printf " + "'" == "printf '";
    assert "'" + " " + "\"$(" == "' \"$(";
    assert ")\"" + " >&2" + "; " == ")\" >&2; ";
  }

  method TarCreate(program: string, srcPath: string) returns (builder: string)
    ensures builder == AnnounceText(srcPath) + "; " + CreateText(program, srcPath)
  {
    builder := "printf '" + PRINTF_FORMAT + "' \"$(" + UsedText(srcPath) + ")\" >&2; ";
    builder := builder + TAR_CREATE_TEXT;
    ghost var start := builder;
    if program != "" {
      builder := builder + " -I " + Quote(program);
    }
    ghost var flag := if program == "" then "" else " -I " + Quote(program);
    assert builder == start + flag by { NothingAdded(start, flag); }
    var (dir, member) := TarSource(srcPath);
    builder := builder + " -f - -C " + Quote(dir) + " " + Quote(member);
    FlatIsBuilt(PRINTF_FORMAT, UsedText(srcPath), TAR_CREATE_TEXT, flag, Quote(dir), Quote(member));
  }

  lemma NothingAdded(s: string, more: string)
    ensures more == "" ==> s + more == s
  {}

  lemma FlatIsBuilt(format: string, used: string, tar: string, flag: string, dir: string, member: string)
    ensures "printf '" + format + "' \"$(" + used + ")\" >&2; " + tar + flag + " -f - -C " + dir + " " + member ==
            "printf " + ("'" + format + "'") + " " + ("\"$(" + used + ")\"") + " >&2" + "; " +
            (tar + flag + " " + ("-f - -C " + dir + " " + member))
  {
    AnnounceBuilt(format, used);
    CreateBuilt("printf " + ("'" + format + "'") + " " + ("\"$(" + used + ")\"") + " >&2" + "; ", tar, flag, dir,
                member);
  }

  lemma CreateBuilt(announced: string, tar: string, flag: string, dir: string, member: string)
    ensures announced + tar + flag + " -f - -C " + dir + " " + member ==
            announced + (tar + flag + " " + ("-f - -C " + dir + " " + member))
  {
    EndGlued(tar + flag, dir + " " + member);
    CreateGlued(announced, tar + flag, dir, member);
    assert announced + tar + flag == announced + (tar + flag);
  }

  lemma CreateGlued(a: string, s: string, d: string, m: string)
    ensures a + s + " -f - -C " + d + " " + m == a + (s + " -f - -C " + (d + " " + m))
    ensures "-f - -C " + d + " " + m == "-f - -C " + (d + " " + m)
  {}

  method TarExtract(decompressor: string, path: string) returns (builder: string)
    ensures builder == ExtractText(decompressor, path)
  {
    builder := TAR_EXTRACT_TEXT;
    if decompressor != "" {
      builder := builder + " -I " + Quote(decompressor);
    }
    var start := TAR_EXTRACT_TEXT + if decompressor == "" then "" else " -I " + Quote(decompressor);
    assert builder == start;
    builder := builder + " -f - -C " + Quote(path);
    EndGlued(start, Quote(path));
  }

  method SshPrefix(c: TransferCmd) returns (prefix: string)
    ensures prefix == SshPrefixText(c)
  {
    var args := ["ssh"];
    args := args + SSH_OPTIONS;
    if c.port != 0 {
      args := args + ["-p", Itoa(c.port)];
    }
    assert args == c.SshWords();
    prefix := ShellSyntax.Join(args, " ") + " " + Quote(c.sshUser + "@" + c.sshHost);
  }

  /** A string is built exactly for the commands accepted, and a POSIX shell
      reads it as exactly the tree its form calls for. */
  method Build(c: TransferCmd) returns (r: Outcome.Result<string, BuildError>)
    ensures r.Ok? <==> c.Accepted()
    ensures r.Ok? ==> c.IsReadOf(r.value) && SingleLine(r.value)
  {
    var fields := [c.srcPath, c.destPath];
    if !c.local {
      fields := fields + [c.sshUser, c.sshHost];
    }
    var checked := CheckFields(fields);
    FieldsChecked(c, fields);
    if checked.Err? {
      return Err(checked.error);
    }
    var compression := c.compression;
    if compression == "" {
      compression := ZSTD;
    }
    if c.local {
      compression := NONE;
    }
    var level := c.level;
    if compression == NONE {
      level := 0;
    } else if level == 0 {
      level := TRANSPORT_LEVEL;
    }
    var compressor := CompressProgram(compression, level);
    if compressor.Err? {
      return Err(compressor.error);
    }
    var program := compressor.value;
    if compression == ZSTD {
      program := program + " --progress";
    }
    var create := TarCreate(program, c.srcPath);
    var prepare := PreparePath(c.destPath, c.clean);
    var extract := TarExtract(DecompressProgram(compression), c.destPath);
    var ssh := SshPrefix(c);
    var text: string;
    if c.local {
      text := "set -o pipefail; " + prepare + create + " | " + extract;
    } else if c.push {
      text := "set -o pipefail; " + create + " | " + ssh + " " + Quote(prepare + extract);
    } else {
      text := "set -o pipefail; " + prepare + ssh + " " + Quote(create) + " | " + extract;
    }
    FormBuilt(c, compression, level, program, create, prepare, extract, ssh, text);
    FormFits(c, create, prepare, extract, ssh, text);
    return Ok(text);
  }

  lemma FieldsChecked(c: TransferCmd, fields: seq<string>)
    requires fields == if c.local then [c.srcPath, c.destPath] else [c.srcPath, c.destPath] + [c.sshUser, c.sshHost]
    ensures c.Accepted() <==>
              (forall i :: 0 <= i < |fields| ==> fields[i] != "" && SingleLine(fields[i])) &&
              CompressProgram(c.EffectiveCompression(), c.EffectiveLevel()).Ok?
  {
    assert fields[0] == c.srcPath && fields[1] == c.destPath;
    assert !c.local ==> fields[2] == c.sshUser && fields[3] == c.sshHost;
  }

  lemma ProgramIs(c: TransferCmd, compression: string, level: int, program: string)
    requires c.Accepted() && compression == c.EffectiveCompression() && level == c.EffectiveLevel()
    requires var value := CompressProgram(compression, level).value;
             program == if compression == ZSTD then value + " --progress" else value
    ensures program == c.Program() && DecompressProgram(compression) == c.Decompressor()
  {
    var value := CompressProgram(compression, level).value;
    assert value + "" == value;
  }

  lemma FormBuilt(c: TransferCmd, compression: string, level: int, program: string,
                  create: string, prepare: string, extract: string, ssh: string, text: string)
    requires c.Accepted() && compression == c.EffectiveCompression() && level == c.EffectiveLevel()
    requires var value := CompressProgram(compression, level).value;
             program == if compression == ZSTD then value + " --progress" else value
    requires create == AnnounceText(c.srcPath) + "; " + CreateText(program, c.srcPath)
    requires prepare == PreparePath(c.destPath, c.clean) && ssh == SshPrefixText(c)
    requires extract == ExtractText(DecompressProgram(compression), c.destPath)
    requires text == if c.local then "set -o pipefail; " + prepare + create + " | " + extract
                     else if c.push then "set -o pipefail; " + create + " | " + ssh + " " + Quote(prepare + extract)
                     else "set -o pipefail; " + prepare + ssh + " " + Quote(create) + " | " + extract
    ensures c.IsReadOf(text) && PiecesOf(c, create, prepare, extract)
  {
    ProgramIs(c, compression, level, program);
    if c.local {
      LocalBuilt(c, create, prepare, extract, text);
    } else if c.push {
      PushBuilt(c, create, prepare, extract, ssh, text);
    } else {
      PullBuilt(c, create, prepare, extract, ssh, text);
    }
  }

  /** The four pieces a Build puts together. */
  predicate PiecesOf(c: TransferCmd, create: string, prepare: string, extract: string)
    requires c.Accepted()
  {
    && create == AnnounceText(c.srcPath) + "; " + CreateText(c.Program(), c.srcPath)
    && prepare == PreparePath(c.destPath, c.clean)
    && extract == ExtractText(c.Decompressor(), c.destPath)
  }

  lemma LocalBuilt(c: TransferCmd, create: string, prepare: string, extract: string, text: string)
    requires c.Accepted() && c.local && PiecesOf(c, create, prepare, extract)
    requires text == "set -o pipefail; " + prepare + create + " | " + extract
    ensures c.IsReadOf(text)
  {
    LocalRead(c);
    LocalRegroup(prepare, AnnounceText(c.srcPath), CreateText(c.Program(), c.srcPath), extract);
  }

  lemma PushBuilt(c: TransferCmd, create: string, prepare: string, extract: string, ssh: string, text: string)
    requires c.Accepted() && !c.local && c.push && PiecesOf(c, create, prepare, extract) && ssh == SshPrefixText(c)
    requires text == "set -o pipefail; " + create + " | " + ssh + " " + Quote(prepare + extract)
    ensures c.IsReadOf(text)
  {
    PushRead(c);
    PushRegroup(AnnounceText(c.srcPath), CreateText(c.Program(), c.srcPath), ssh, Quote(prepare + extract));
  }

  lemma PullBuilt(c: TransferCmd, create: string, prepare: string, extract: string, ssh: string, text: string)
    requires c.Accepted() && !c.local && !c.push && PiecesOf(c, create, prepare, extract) && ssh == SshPrefixText(c)
    requires text == "set -o pipefail; " + prepare + ssh + " " + Quote(create) + " | " + extract
    ensures c.IsReadOf(text)
  {
    PullRead(c);
    PullRegroup(prepare, ssh, Quote(create), extract);
  }

  lemma LocalRegroup(p: string, a: string, c: string, e: string)
    ensures "set -o pipefail; " + p + (a + "; " + c) + " | " + e ==
            "set -o pipefail" + "; " + ((p + a) + "; " + (c + " | " + e))
  {
    assert "set -o pipefail" + "; " == "set -o pipefail; ";
  }

  lemma PushRegroup(a: string, c: string, s: string, q: string)
    ensures "set -o pipefail; " + (a + "; " + c) + " | " + s + " " + q ==
            "set -o pipefail" + "; " + (a + "; " + (c + " | " + (s + " " + q)))
  {
    assert "set -o pipefail" + "; " == "set -o pipefail; ";
  }

  lemma PullRegroup(p: string, s: string, q: string, e: string)
    ensures "set -o pipefail; " + p + s + " " + q + " | " + e ==
            "set -o pipefail" + "; " + (p + (s + " " + q + " | " + e))
  {
    assert "set -o pipefail" + "; " == "set -o pipefail; ";
  }

  // ---- on one line

  lemma CreateFits(program: string, srcPath: string)
    requires SingleLine(program) && SingleLine(srcPath)
    ensures SingleLine(AnnounceText(srcPath) + "; " + CreateText(program, srcPath))
  {
    AnnounceFits(srcPath);
    ReadFits(program, srcPath);
    Semicolon(AnnounceText(srcPath), CreateText(program, srcPath));
  }

  lemma Semicolon(a: string, b: string)
    requires SingleLine(a) && SingleLine(b)
    ensures SingleLine(a + "; " + b)
  {
    OneLine.Three(a, "; ", b);
  }

  lemma ReadFits(program: string, srcPath: string)
    requires SingleLine(program) && SingleLine(srcPath)
    ensures SingleLine(CreateText(program, srcPath))
  {
    var (dir, member) := TarSource(srcPath);
    OneLine.DirFits(srcPath);
    OneLine.BaseFits(srcPath);
    EndFits("-f - -C ", dir, " ", member);
    StartsFit();
    TarFits(TAR_CREATE_TEXT, program, "-f - -C " + Quote(dir) + " " + Quote(member));
  }

  lemma EndFits(a: string, dir: string, b: string, member: string)
    requires SingleLine(a) && SingleLine(dir) && SingleLine(b) && SingleLine(member)
    ensures SingleLine(a + Quote(dir) + b + Quote(member))
  {
    QuoteKeepsSingleLine(member);
    QuotedFits(a, dir, b);
    OneLine.Both(a + Quote(dir) + b, Quote(member));
  }

  lemma AnnounceFits(srcPath: string)
    requires SingleLine(srcPath)
    ensures SingleLine(AnnounceText(srcPath))
  {
    UsedFits(srcPath);
    AnnounceLiteralsFit();
    OneLine.Both(TOTAL_MARKER, " %s\\n");
    PrintedFits("printf ", "'", PRINTF_FORMAT, " ", "\"$(", UsedText(srcPath), ")\"", " >&2");
  }

  lemma AnnounceLiteralsFit()
    ensures SingleLine(TOTAL_MARKER) && SingleLine(" %s\\n") && SingleLine("'") && SingleLine("\"$(")
    ensures SingleLine(")\"") && SingleLine("printf ") && SingleLine(" ") && SingleLine(" >&2")
  {}

  lemma PrintedFits(a: string, mark: string, format: string, space: string, open: string, used: string, close: string,
                    last: string)
    requires SingleLine(a) && SingleLine(mark) && SingleLine(format) && SingleLine(space)
    requires SingleLine(open) && SingleLine(used) && SingleLine(close) && SingleLine(last)
    ensures SingleLine(a + (mark + format + mark) + space + (open + used + close) + last)
  {
    OneLine.Three(mark, format, mark);
    OneLine.Three(open, used, close);
    OneLine.Five(a, mark + format + mark, space, open + used + close, last);
  }

  lemma ExtractFits(program: string, path: string)
    requires SingleLine(program) && SingleLine(path)
    ensures SingleLine(ExtractText(program, path))
  {
    QuotedFits("-f - -C ", path, "");
    assert "-f - -C " + Quote(path) + "" == "-f - -C " + Quote(path);
    StartsFit();
    TarFits(TAR_EXTRACT_TEXT, program, "-f - -C " + Quote(path));
  }

  lemma {:induction false} WordsFit(words: seq<string>)
    requires forall i :: 0 <= i < |words| ==> SingleLine(words[i])
    ensures SingleLine(ShellSyntax.Join(words, " "))
  {
    if |words| > 1 {
      WordsFit(words[1..]);
      OneLine.Three(words[0], " ", ShellSyntax.Join(words[1..], " "));
    }
  }

  lemma SshFits(c: TransferCmd)
    requires SingleLine(c.sshUser) && SingleLine(c.sshHost)
    ensures SingleLine(SshPrefixText(c))
  {
    OneLine.NumberFits(c.port);
    OptionsFit();
    WordsFit(c.SshWords());
    OneLine.Three(c.sshUser, "@", c.sshHost);
    OneLine.Both(ShellSyntax.Join(c.SshWords(), " "), " ");
    QuotedFits(ShellSyntax.Join(c.SshWords(), " ") + " ", c.sshUser + "@" + c.sshHost, "");
    assert SshPrefixText(c) + "" == SshPrefixText(c);
  }

  lemma OptionsFit()
    ensures forall i :: 0 <= i < |SSH_OPTIONS| ==> SingleLine(SSH_OPTIONS[i])
  {
    OptionWords();
    forall i | 0 <= i < |SSH_OPTIONS| ensures SingleLine(SSH_OPTIONS[i]) {
      PlainFits(SSH_OPTIONS[i]);
    }
  }

  lemma PlainFits(word: string)
    requires AllPlain(word)
    ensures SingleLine(word)
  {}

  /** The whole string is as fit for one line as the fields it was built from. */
  lemma FormFits(c: TransferCmd, create: string, prepare: string, extract: string, ssh: string, text: string)
    requires c.Accepted() && PiecesOf(c, create, prepare, extract) && ssh == SshPrefixText(c)
    requires text == if c.local then "set -o pipefail; " + prepare + create + " | " + extract
                     else if c.push then "set -o pipefail; " + create + " | " + ssh + " " + Quote(prepare + extract)
                     else "set -o pipefail; " + prepare + ssh + " " + Quote(create) + " | " + extract
    ensures SingleLine(text)
  {
    PiecesFit(c, create, prepare, extract);
    if c.local {
      LocalFits(create, prepare, extract);
    } else {
      SshFits(c);
      RemoteFits(c, create, prepare, extract, ssh, text);
    }
  }

  lemma PiecesFit(c: TransferCmd, create: string, prepare: string, extract: string)
    requires c.Accepted() && PiecesOf(c, create, prepare, extract)
    ensures SingleLine(create) && SingleLine(prepare) && SingleLine(extract)
  {
    ProgramFits(c.EffectiveCompression(), c.EffectiveLevel());
    var program := CompressProgram(c.EffectiveCompression(), c.EffectiveLevel()).value;
    assert program + "" == program;
    CreateFits(c.Program(), c.srcPath);
    ExtractFits(c.Decompressor(), c.destPath);
    PreparationFits(c.destPath, c.clean);
  }

  lemma LocalFits(create: string, prepare: string, extract: string)
    requires SingleLine(create) && SingleLine(prepare) && SingleLine(extract)
    ensures SingleLine("set -o pipefail; " + prepare + create + " | " + extract)
  {
    OneLine.Five("set -o pipefail; ", prepare, create, " | ", extract);
  }

  lemma RemoteFits(c: TransferCmd, create: string, prepare: string, extract: string, ssh: string, text: string)
    requires SingleLine(create) && SingleLine(prepare) && SingleLine(extract) && SingleLine(ssh)
    requires text == if c.push then "set -o pipefail; " + create + " | " + ssh + " " + Quote(prepare + extract)
                     else "set -o pipefail; " + prepare + ssh + " " + Quote(create) + " | " + extract
    ensures SingleLine(text)
  {
    JoinsFit();
    OneLine.Both(prepare, extract);
    if c.push {
      PushedFits("set -o pipefail; ", create, " | ", ssh, " ", prepare + extract);
    } else {
      PulledFits("set -o pipefail; ", prepare, ssh, " ", create, " | ", extract);
    }
  }

  lemma JoinsFit()
    ensures SingleLine("set -o pipefail; ") && SingleLine(" | ") && SingleLine(" ")
  {}

  lemma PushedFits(a: string, create: string, bar: string, ssh: string, space: string, script: string)
    requires SingleLine(a) && SingleLine(create) && SingleLine(bar) && SingleLine(ssh) && SingleLine(space)
    requires SingleLine(script)
    ensures SingleLine(a + create + bar + ssh + space + Quote(script))
  {
    QuoteKeepsSingleLine(script);
    OneLine.Five(a, create, bar, ssh, space);
    OneLine.Both(a + create + bar + ssh + space, Quote(script));
  }

  lemma PulledFits(a: string, prepare: string, ssh: string, space: string, script: string, bar: string, extract: string)
    requires SingleLine(a) && SingleLine(prepare) && SingleLine(ssh) && SingleLine(space)
    requires SingleLine(script) && SingleLine(bar) && SingleLine(extract)
    ensures SingleLine(a + prepare + ssh + space + Quote(script) + bar + extract)
  {
    QuoteKeepsSingleLine(script);
    OneLine.Five(a, prepare, ssh, space, Quote(script));
    OneLine.Three(a + prepare + ssh + space + Quote(script), bar, extract);
  }
}
