/** internal/archive/cmd.go, StreamCmd: a real pipe between tar and rclone. */
module StreamCommand {
  import opened Outcome
  import opened ShellQuote
  import opened ShellLexer
  import opened ShellSyntax
  import opened ShellReading
  import opened ShellExec
  import opened ArchiveWords
  import opened ArchiveNames
  import opened ArchiveParts
  import A = ShellArithmetic
  import Decimal
  import T = TransferCommand
  import GoPath
  import OneLine

  const PROGRESS_FLAGS := ["--stats", "1s", "--stats-log-level", "NOTICE", "--use-json-log", "--stats-one-line"]

  datatype StreamCmd = StreamCmd(
    direction: string, remotePath: string, dataPath: string, configPath: string,
    compression: string, level: int, extraArgs: string, clean: bool
  ) {
    predicate Accepted() {
      remotePath != "" && SingleLine(remotePath) && dataPath != "" && SingleLine(dataPath) &&
      configPath != "" && SingleLine(configPath) && CompressProgram(compression, level).Ok? &&
      (direction == BACKUP || direction == RESTORE)
    }

    /** The flags the user adds are pasted as they are, so what the command is
        read as is fixed only while they are words: no operator, and no quote
        left open. */
    predicate PlainExtra() { extraArgs != "" ==> OnlyWords(extraArgs) }

    function RcloneArgs(verb: string): seq<string> {
      ((["rclone", "--config"] + [configPath]) + PROGRESS_FLAGS) + ([verb] + [remotePath])
    }

    function TarArguments(): seq<string>
      requires CompressProgram(compression, level).Ok?
    {
      if direction == BACKUP
      then TarArgs(TAR_CREATE, CompressProgram(compression, level).value, ["-f", "-", "-C"] + [dataPath] + ["."])
      else TarArgs(TAR_EXTRACT, DecompressProgram(compression), ["-f", "-", "-C"] + [dataPath])
    }

    /** rclone with these arguments first and the user's words last; a backup
        has the computed chunk size in between, so that the user's wins. */
    predicate IsRclone(c: Command) {
      var args := RcloneArgs(if direction == BACKUP then "rcat" else "cat");
      c.redirects == [] && |c.words| >= |args| &&
      (forall i :: 0 <= i < |args| ==> Field(c.words[i]) == Some(args[i])) &&
      c.words[|args|..] == (if direction == BACKUP then CHUNK_WORDS else []) +
                           (if extraArgs == "" then [] else RawWords(extraArgs))
    }

    predicate BackupTree(t: Tree)
      requires Accepted() && direction == BACKUP
    {
      |t| == 5 && SetsPipefail(t[0]) && Assigns(t[1], "used=", UsedText(dataPath)) &&
      Measures(UsedText(dataPath), dataPath) && Assigns(t[2], "chunk=", CHUNK_FORMULA) && FloorsChunk(t[3]) &&
      |t[4]| == 1 && |t[4][0]| == 2 && Is(t[4][0][0], TarArguments()) && IsRclone(t[4][0][1])
    }

    predicate RestoreTree(t: Tree)
      requires Accepted() && direction == RESTORE
    {
      |t| == 2 && SetsPipefail(t[0]) && Prepares(t[1], dataPath, clean) && |t[1][Guards(clean)]| == 2 &&
      IsRclone(t[1][Guards(clean)][0]) && Is(t[1][Guards(clean)][1], TarArguments())
    }

    predicate IsBuiltAs(t: Tree)
      requires Accepted()
    {
      if direction == BACKUP then BackupTree(t) else RestoreTree(t)
    }

    /** A POSIX shell reads the text as this command's tree. */
    predicate IsReadOf(text: string)
      requires Accepted()
    {
      match Parse(text)
      case None => false
      case Some(t) => IsBuiltAs(t)
    }
  }

  const CHUNK_RATIO := "used * 5 / 4 / 9000 / 1048576"

  /** `( (used * 5 / 4 / 9000 / 1048576) + 1 )`, which makes the substitution
      around it an arithmetic one. */
  const CHUNK_FORMULA := "(" + (" " + ("(" + (CHUNK_RATIO + ")")) + " + 1 " + ")")

  const CHUNK_WORDS: seq<Word> := [Chars("--s3-chunk-size", false), [Var("chunk", true)] + Chars("M", true)]

  const CHUNK_EXPR :=
    A.Add(A.Group(A.Div(A.Div(A.Div(A.Mul(A.Name("used"), A.Num(5)), A.Num(4)), A.Num(9000)), A.Num(1048576))),
    A.Num(1))

  const SMALLEST_CHUNK := 5
  const MIB := 1048576
  const PARTS := 9000

  function Floored(chunk: nat): nat { if chunk < SMALLEST_CHUNK then SMALLEST_CHUNK else chunk }

  /** The chunk size in MiB: the expansion, and then the floor. */
  function ChunkSize(used: nat): nat { Floored(used * 5 / 4 / PARTS / MIB + 1) }

  /** 9000 parts of the chunk hold the used bytes and a quarter more, and no
      smaller chunk would, but for the floor. */
  lemma ChunkHoldsVolume(used: nat)
    ensures ChunkSize(used) >= SMALLEST_CHUNK
    ensures used * 5 / 4 < PARTS * (ChunkSize(used) * MIB)
    ensures ChunkSize(used) > SMALLEST_CHUNK ==> PARTS * ((ChunkSize(used) - 1) * MIB) <= used * 5 / 4
  {
    FlooredHolds(used * 5 / 4, used * 5 / 4 / PARTS / MIB + 1);
  }

  lemma FlooredHolds(bytes: nat, chunk: nat)
    requires chunk == bytes / PARTS / MIB + 1
    ensures bytes < PARTS * (Floored(chunk) * MIB)
    ensures Floored(chunk) > SMALLEST_CHUNK ==> PARTS * ((Floored(chunk) - 1) * MIB) <= bytes
  {
    PartsHold(bytes, chunk);
  }

  /** The sizing text in the command is this expression's. */
  lemma FormulaSpelled()
    ensures CHUNK_FORMULA == "( " + A.Text(CHUNK_EXPR) + " )" && A.Unambiguous(CHUNK_EXPR)
  {
    NumbersSpelled();
    RatioSpelled();
    FormulaGlued(CHUNK_RATIO);
  }

  lemma RatioSpelled()
    ensures A.Text(CHUNK_EXPR.left.inner) == CHUNK_RATIO
  {
    NumbersSpelled();
    RatioGlued();
    var product := A.Mul(A.Name("used"), A.Num(5));
    assert A.Text(product) == "used" + " * " + "5";
    DivText(product, 4);
    DivText(A.Div(product, A.Num(4)), PARTS);
    DivText(A.Div(A.Div(product, A.Num(4)), A.Num(PARTS)), MIB);
  }

  lemma DivText(e: A.Expr, d: nat)
    ensures A.Text(A.Div(e, A.Num(d))) == A.Text(e) + " / " + Decimal.Itoa(d)
  {}

  lemma RatioGlued()
    ensures "used" + " * " + "5" + " / " + "4" + " / " + "9000" + " / " + "1048576" == CHUNK_RATIO
  {
    assert "used" + " * " + "5" + " / " + "4" == "used * 5 / 4";
  }

  lemma FormulaGlued(ratio: string)
    ensures "(" + (" " + ("(" + (ratio + ")")) + " + 1 " + ")") == "( " + ("(" + ratio + ")" + " + " + "1") + " )"
  {
    assert " + 1 " == " + " + "1" + " " && "( " == "(" + " " && " )" == " " + ")";
  }

  lemma NumbersSpelled()
    ensures Decimal.Itoa(1) == "1" && Decimal.Itoa(4) == "4" && Decimal.Itoa(5) == "5"
    ensures Decimal.Itoa(9000) == "9000" && Decimal.Itoa(1048576) == "1048576"
  {
    assert Decimal.Digits(90) == "90" && Decimal.Digits(900) == "900";
    assert Decimal.Digits(10) == "10" && Decimal.Digits(104) == "104" && Decimal.Digits(1048) == "1048";
    assert Decimal.Digits(10485) == "10485" && Decimal.Digits(104857) == "104857";
  }

  /** And this is what a shell makes of it. */
  lemma ChunkValue(used: nat, names: string -> nat)
    requires names("used") == used
    ensures A.Value(CHUNK_EXPR, names) == (used * 5 / 4) / PARTS / MIB + 1
  {
    var product := A.Mul(A.Name("used"), A.Num(5));
    assert A.Value(product, names) == used * 5;
    DivValue(product, 4, names);
    DivValue(A.Div(product, A.Num(4)), PARTS, names);
    DivValue(A.Div(A.Div(product, A.Num(4)), A.Num(PARTS)), MIB, names);
  }

  lemma DivValue(e: A.Expr, d: nat, names: string -> nat)
    requires d > 0
    ensures A.Value(A.Div(e, A.Num(d)), names) == A.Value(e, names) / d
  {}

  lemma PartsHold(bytes: nat, chunk: nat)
    requires chunk == bytes / PARTS / MIB + 1
    ensures PARTS * ((chunk - 1) * MIB) <= bytes < PARTS * (chunk * MIB)
  {
    var part := bytes / PARTS;
    assert PARTS * part <= bytes < PARTS * part + PARTS;
    assert MIB * (part / MIB) <= part < MIB * (part / MIB) + MIB;
  }

  predicate SetsPipefail(a: AndList) { T.SetsPipefail(a) }

  /** A lone assignment of a substitution. */
  predicate Assigns(a: AndList, name: string, text: string) {
    a == [[Command([Chars(name, false) + [Sub(text, false)]], [])]]
  }

  /** `[ "$chunk" -lt 5 ] && chunk=5` */
  predicate FloorsChunk(a: AndList) {
    |a| == 2 && |a[0]| == 1 && |a[1]| == 1 &&
    a[0][0] == Command([Chars("[", false), [Var("chunk", true)], Chars("-lt", false), Chars("5", false),
                        Chars("]", false)], []) &&
    Is(a[1][0], ["chunk=5"])
  }

  // ---- the commands as source

  function RcloneItems(c: StreamCmd, verb: string): seq<Item> {
    ((Plain(["rclone", "--config"]) + [Quoted(c.configPath)]) + Plain(PROGRESS_FLAGS)) +
    (Plain([verb]) + [Quoted(c.remotePath)])
  }

  function RcloneText(c: StreamCmd): string {
    "rclone --config " + Quote(c.configPath) + " " + ShellSyntax.Join(PROGRESS_FLAGS, " ")
  }

  lemma FlagWords()
    ensures PlainWords(PROGRESS_FLAGS) && NoGlob(PROGRESS_FLAGS)
  {
    StatsWords();
    LogWords();
  }

  lemma StatsWords()
    ensures AllPlain("--stats") && AllPlain("1s") && AllPlain("--stats-log-level")
    ensures '[' !in "--stats" && '[' !in "1s" && '[' !in "--stats-log-level"
  {}

  lemma LogWords()
    ensures AllPlain("NOTICE") && AllPlain("--use-json-log") && AllPlain("--stats-one-line")
    ensures '[' !in "NOTICE" && '[' !in "--use-json-log" && '[' !in "--stats-one-line"
  {}

  lemma ConfigSpelled(configPath: string)
    ensures Spells(Plain(["rclone", "--config"]) + [Quoted(configPath)], "rclone --config" + " " + Quote(configPath),
                   ["rclone", "--config"] + [configPath])
  {
    RcloneConfig();
    PlainThenQuoted(["rclone", "--config"], "rclone --config", configPath);
  }

  lemma RcloneConfig()
    ensures Spells(Plain(["rclone", "--config"]), "rclone --config", ["rclone", "--config"])
  {
    TwoPlain("rclone", "--config");
    assert "rclone" + " " + "--config" == "rclone --config";
  }

  lemma FlagsSpelled(flags: seq<string>)
    requires flags == PROGRESS_FLAGS
    ensures Spells(Plain(flags), ShellSyntax.Join(flags, " "), flags)
  {
    FlagWords();
    SpellsPlain(flags);
  }

  lemma RcloneSpelled(c: StreamCmd, verb: string)
    requires verb == "rcat" || verb == "cat"
    ensures Spells(RcloneItems(c, verb), RcloneText(c) + " " + verb + " " + Quote(c.remotePath), c.RcloneArgs(verb))
  {
    FlagsSpelled(PROGRESS_FLAGS);
    VerbSpelled(verb);
    FlaggedSpelled(c.configPath, PROGRESS_FLAGS, verb, c.remotePath);
  }

  lemma VerbSpelled(verb: string)
    requires verb == "rcat" || verb == "cat"
    ensures Spells(Plain([verb]), verb, [verb])
  {
    SpellsPlain([verb]);
  }

  lemma FlaggedSpelled(configPath: string, flags: seq<string>, verb: string, remotePath: string)
    requires Spells(Plain(flags), ShellSyntax.Join(flags, " "), flags) && Spells(Plain([verb]), verb, [verb])
    ensures Spells(((Plain(["rclone", "--config"]) + [Quoted(configPath)]) + Plain(flags)) +
                   (Plain([verb]) + [Quoted(remotePath)]),
                   "rclone --config " + Quote(configPath) + " " + ShellSyntax.Join(flags, " ") + " " + verb + " " +
                   Quote(remotePath),
                   ((["rclone", "--config"] + [configPath]) + flags) + ([verb] + [remotePath]))
  {
    ConfigSpelled(configPath);
    PlainThenQuoted([verb], verb, remotePath);
    ThreeGroups(Plain(["rclone", "--config"]) + [Quoted(configPath)], "rclone --config" + " " + Quote(configPath),
                ["rclone", "--config"] + [configPath],
                Plain(flags), ShellSyntax.Join(flags, " "), flags,
                Plain([verb]) + [Quoted(remotePath)], verb + " " + Quote(remotePath), [verb] + [remotePath]);
    RcloneGlued(Quote(configPath), ShellSyntax.Join(flags, " "), verb, Quote(remotePath));
  }

  lemma ThreeGroups(a: seq<Item>, ta: string, xa: seq<string>, b: seq<Item>, tb: string, xb: seq<string>,
                    c: seq<Item>, tc: string, xc: seq<string>)
    requires Spells(a, ta, xa) && Spells(b, tb, xb) && Spells(c, tc, xc)
    ensures Spells((a + b) + c, ta + " " + tb + " " + tc, (xa + xb) + xc)
  {
    SpellsBoth(a, ta, xa, b, tb, xb);
    SpellsBoth(a + b, ta + " " + tb, xa + xb, c, tc, xc);
  }

  lemma RcloneGlued(a: string, f: string, v: string, r: string)
    ensures "rclone --config" + " " + a + " " + f + " " + (v + " " + r) ==
            "rclone --config " + a + " " + f + " " + v + " " + r
  {
    assert "rclone --config" + " " == "rclone --config ";
  }

  function SizedItems(flag: string, name: string, tail: string): seq<Item> {
    Plain([flag]) + [WordOf([DoubleBrace(name, tail)])]
  }

  function SizedText(flag: string, name: string, tail: string): string {
    flag + " " + ("\"${" + name + "}" + tail + "\"")
  }

  lemma SizedRead(flag: string, name: string, tail: string)
    requires flag != "" && AllPlain(flag) && IsName(name) && AllPlain(tail)
    ensures forall i :: 0 <= i < |SizedItems(flag, name, tail)| ==> ValidItem(SizedItems(flag, name, tail)[i])
    ensures CommandText(SizedItems(flag, name, tail)) == SizedText(flag, name, tail)
    ensures CommandTree(SizedItems(flag, name, tail)) ==
            Command([Chars(flag, false), [Var(name, true)] + Chars(tail, true)], [])
  {
    PlainText([flag]);
    CommandTextOf(Plain([flag]), [WordOf([DoubleBrace(name, tail)])]);
    assert WordText([DoubleBrace(name, tail)]) == ("\"${" + name + "}" + tail + "\"") + WordText([]);
    SizedTree(flag, name, tail);
  }

  lemma SizedTree(flag: string, name: string, tail: string)
    ensures CommandTree(SizedItems(flag, name, tail)) ==
            Command([Chars(flag, false), [Var(name, true)] + Chars(tail, true)], [])
  {
    TreeConcat(Plain([flag]), [WordOf([DoubleBrace(name, tail)])]);
    OneWordTree(DoubleBrace(name, tail), [Var(name, true)] + Chars(tail, true));
    OneWordTree(Bare(flag), Chars(flag, false));
    assert Plain([flag]) == [WordOf([Bare(flag)])];
  }

  lemma OneWordTree(chunk: Chunk, word: Word)
    requires WordPieces([chunk]) == word + WordPieces([])
    ensures CommandTree([WordOf([chunk])]) == Command([word], [])
  {
    assert [WordOf([chunk])][1..] == [] && word + [] == word;
  }

  function ChunkItems(c: StreamCmd): seq<Item> {
    if c.direction == BACKUP then SizedItems("--s3-chunk-size", "chunk", "M") else []
  }

  function ExtraItems(extra: string): seq<Item> { if extra == "" then [] else [Raw(extra)] }

  function ChunkText(c: StreamCmd): string {
    if c.direction == BACKUP then " " + SizedText("--s3-chunk-size", "chunk", "M") else ""
  }

  function ExtraText(extra: string): string { if extra == "" then "" else " " + extra }

  predicate ValidItems(items: seq<Item>) { forall i :: 0 <= i < |items| ==> ValidItem(items[i]) }

  /** Items put behind a command that runs fixed arguments. */
  lemma Extended(front: seq<Item>, text: string, args: seq<string>, chunk: seq<Item>, extra: seq<Item>)
    requires Runs(front, text, args) && ValidItems(chunk) && ValidItems(extra)
    requires CommandTree(chunk).redirects == [] && CommandTree(extra).redirects == []
    ensures ValidCommand(front + chunk + extra)
    ensures var c := CommandTree(front + chunk + extra);
            c.redirects == [] && |c.words| >= |args| &&
            (forall i :: 0 <= i < |args| ==> Field(c.words[i]) == Some(args[i])) &&
            c.words[|args|..] == CommandTree(chunk).words + CommandTree(extra).words
  {
    ExtendedValid(front, chunk, extra);
    var w, x, y := CommandTree(front).words, CommandTree(chunk).words, CommandTree(extra).words;
    ArgsFields(w, args);
    TreeConcat(front + chunk, extra);
    TreeConcat(front, chunk);
    Tail(w, x, y);
  }

  lemma Tail<X>(w: seq<X>, x: seq<X>, y: seq<X>)
    ensures (w + x + y)[|w|..] == x + y
    ensures forall i :: 0 <= i < |w| ==> (w + x + y)[i] == w[i]
  {}

  lemma ExtendedValid(front: seq<Item>, chunk: seq<Item>, extra: seq<Item>)
    requires ValidCommand(front) && ValidItems(chunk) && ValidItems(extra)
    ensures ValidCommand(front + chunk + extra)
  {
    var all := front + chunk + extra;
    forall i | 0 <= i < |all| ensures ValidItem(all[i]) {
      assert all[i] == if i < |front| then front[i] else if i < |front| + |chunk| then chunk[i - |front|]
                       else extra[i - |front| - |chunk|];
    }
  }

  lemma ExtendedText(front: seq<Item>, chunk: seq<Item>, extra: seq<Item>)
    requires front != []
    ensures CommandText(front + chunk + extra) == CommandText(front) +
              (if chunk == [] then "" else " " + CommandText(chunk)) +
              (if extra == [] then "" else " " + CommandText(extra))
  {
    OptionalText(front, chunk);
    OptionalText(front + chunk, extra);
  }

  lemma RcloneRuns(c: StreamCmd, verb: string)
    requires verb == "rcat" || verb == "cat"
    ensures Runs(RcloneItems(c, verb), RcloneText(c) + " " + verb + " " + Quote(c.remotePath), c.RcloneArgs(verb))
  {
    RcloneSpelled(c, verb);
    Unreserved();
    assert RcloneItems(c, verb)[0] == Plain(["rclone"])[0];
    SpelledRuns("rclone", RcloneItems(c, verb), RcloneText(c) + " " + verb + " " + Quote(c.remotePath),
                c.RcloneArgs(verb));
  }

  /** The whole rclone command of a form. */
  lemma RcloneRead(c: StreamCmd, verb: string)
    requires c.PlainExtra() && verb == (if c.direction == BACKUP then "rcat" else "cat")
    ensures var items := RcloneItems(c, verb) + ChunkItems(c) + ExtraItems(c.extraArgs);
            ValidCommand(items) && c.IsRclone(CommandTree(items)) &&
            CommandText(items) == RcloneText(c) + " " + verb + " " + Quote(c.remotePath) + ChunkText(c) +
            ExtraText(c.extraArgs)
  {
    RcloneRuns(c, verb);
    ChunkTree(c);
    ExtraTree(c.extraArgs);
    Extended(RcloneItems(c, verb), RcloneText(c) + " " + verb + " " + Quote(c.remotePath), c.RcloneArgs(verb),
             ChunkItems(c), ExtraItems(c.extraArgs));
    ExtendedText(RcloneItems(c, verb), ChunkItems(c), ExtraItems(c.extraArgs));
  }

  lemma OptionalText(a: seq<Item>, b: seq<Item>)
    requires a != []
    ensures CommandText(a + b) == CommandText(a) + if b == [] then "" else " " + CommandText(b)
  {
    if b == [] {
      assert a + b == a;
    } else {
      CommandTextOf(a, b);
    }
  }

  lemma ChunkTree(c: StreamCmd)
    ensures forall i :: 0 <= i < |ChunkItems(c)| ==> ValidItem(ChunkItems(c)[i])
    ensures CommandTree(ChunkItems(c)).words == (if c.direction == BACKUP then CHUNK_WORDS else [])
    ensures CommandTree(ChunkItems(c)).redirects == []
    ensures ChunkText(c) == if ChunkItems(c) == [] then "" else " " + CommandText(ChunkItems(c))
  {
    assert AllPlain("--s3-chunk-size");
    SizedRead("--s3-chunk-size", "chunk", "M");
  }

  lemma ExtraTree(extra: string)
    requires extra != "" ==> OnlyWords(extra)
    ensures forall i :: 0 <= i < |ExtraItems(extra)| ==> ValidItem(ExtraItems(extra)[i])
    ensures CommandTree(ExtraItems(extra)) == Command(if extra == "" then [] else RawWords(extra), [])
    ensures ExtraText(extra) == if ExtraItems(extra) == [] then "" else " " + CommandText(ExtraItems(extra))
  {
    if extra != "" {
      assert [Raw(extra)][1..] == [];
      assert RawWords(extra) + [] == RawWords(extra);
    }
  }

  // ---- measuring and sizing

  lemma AssignRead(name: string, text: string)
    requires name != "" && AllPlain(name) && SubSafe(text)
    ensures var items := [WordOf([Bare(name), BareSub(text)])];
            ValidCommand(items) && CommandText(items) == name + ("$(" + text + ")") &&
            CommandTree(items) == Command([Chars(name, false) + [Sub(text, false)]], [])
  {
    var chunks := [Bare(name), BareSub(text)];
    assert chunks[1..] == [BareSub(text)] && chunks[1..][1..] == [];
    assert WordText(chunks) == name + (("$(" + text + ")") + WordText([]));
    var w: Word := [Sub(text, false)];
    assert WordPieces(chunks) == Chars(name, false) + (w + WordPieces([])) && w + [] == w;
    assert WordPieces(chunks)[|name|] == Sub(text, false);
    assert [WordOf(chunks)][1..] == [];
  }

  lemma FormulaNests()
    ensures SubSafe(CHUNK_FORMULA)
  {
    ArithmeticNests(CHUNK_RATIO);
  }

  lemma ArithmeticNests(ratio: string)
    requires Neutral(ratio)
    ensures SubSafe("(" + (" " + ("(" + (ratio + ")")) + " + 1 " + ")"))
  {
    var two := Open(Group, IN_GROUP);
    var inner := ['('] + (ratio + [')']);
    NeutralKeeps(Open(Group, two), ratio);
    ParensNest(two, ratio);
    NeutralKeeps(two, " ");
    NeutralKeeps(two, " + 1 ");
    NestedConcat(two, " ", inner);
    NestedConcat(two, " " + inner, " + 1 ");
    ParensNest(IN_GROUP, " " + inner + " + 1 ");
  }

  function AssignText(name: string, text: string): string { name + ("$(" + text + ")") }

  lemma AssignList(name: string, text: string)
    requires name != "" && AllPlain(name) && SubSafe(text)
    ensures var a := [[[WordOf([Bare(name), BareSub(text)])]]];
            ValidAnd(a) && AndText(a) == AssignText(name, text) && Assigns(AndTree(a), name, text)
  {
    AssignRead(name, text);
    CommandList([WordOf([Bare(name), BareSub(text)])]);
  }

  const FLOOR_TEXT := FloorTest("\"$" + "chunk" + "\"") + " && " + "chunk=5"

  function FloorTest(value: string): string { "[ " + value + " -lt 5 ]" }

  function FloorItems(): seq<Item> {
    [WordOf([Bare("[")])] + ([WordOf([DoubleName("chunk")])] + Plain(["-lt", "5", "]"]))
  }

  lemma FloorItemsText()
    ensures CommandText(FloorItems()) == FloorTest("\"$" + "chunk" + "\"")
  {
    var test, name := [WordOf([Bare("[")])], [WordOf([DoubleName("chunk")])];
    assert WordText([Bare("[")]) == "[" + WordText([]);
    assert WordText([DoubleName("chunk")]) == ("\"$" + "chunk" + "\"") + WordText([]);
    FloorFlags();
    CommandTextOf(name, Plain(["-lt", "5", "]"]));
    CommandTextOf(test, name + Plain(["-lt", "5", "]"]));
    FloorGlued("\"$" + "chunk" + "\"");
  }

  lemma FloorFlags()
    ensures CommandText(Plain(["-lt", "5", "]"])) == "-lt 5 ]"
  {
    ThreePlain("-lt", "5", "]");
    assert "-lt" + " " + ("5" + " " + "]") == "-lt 5 ]";
  }

  lemma FloorGlued(value: string)
    ensures "[" + " " + (value + " " + "-lt 5 ]") == FloorTest(value)
  {
    assert "[" + " " == "[ " && " " + "-lt 5 ]" == " -lt 5 ]";
  }

  lemma FloorItemsTree()
    ensures CommandTree(FloorItems()) ==
            Command([Chars("[", false), [Var("chunk", true)], Chars("-lt", false), Chars("5", false),
                     Chars("]", false)], [])
  {
    var name := [WordOf([DoubleName("chunk")])];
    var flags := Plain(["-lt", "5", "]"]);
    var v: Word := [Var("chunk", true)];
    PlainTree3("-lt", "5", "]");
    assert FloorItems()[1..] == name + flags && (name + flags)[1..] == flags;
    assert WordPieces([DoubleName("chunk")]) == v + WordPieces([]) && v + [] == v;
    assert WordPieces([Bare("[")]) == Chars("[", false) + WordPieces([]);
    assert Chars("[", false) + [] == Chars("[", false);
  }

  lemma PlainTree3(a: string, b: string, c: string)
    ensures CommandTree(Plain([a, b, c])) == Command([Chars(a, false), Chars(b, false), Chars(c, false)], [])
  {
    forall s: string ensures WordPieces([Bare(s)]) == Chars(s, false) {
      assert WordPieces([Bare(s)]) == Chars(s, false) + WordPieces([]);
    }
    var i := Plain([a, b, c]);
    assert i[1..][1..][1..] == [] && i[1..][1..][0] == i[2];
    assert CommandTree(i[1..][1..]) == Command([Chars(c, false)], []);
    assert CommandTree(i[1..]) == Command([Chars(b, false), Chars(c, false)], []);
  }

  lemma FloorList()
    ensures var a := [[FloorItems()]] + [[Plain(["chunk=5"])]];
            ValidAnd(a) && AndText(a) == FLOOR_TEXT && FloorsChunk(AndTree(a))
  {
    FloorItemsText();
    FloorItemsTree();
    FloorValid();
    FloorSets();
    GuardedCommand(FloorItems(), Plain(["chunk=5"]));
  }

  lemma FloorSets()
    ensures Runs(Plain(["chunk=5"]), "chunk=5", ["chunk=5"])
  {
    assert AllPlain("chunk=5") && "chunk=5" !in RESERVED;
    SpellsPlain(["chunk=5"]);
    SpelledRuns("chunk=5", Plain(["chunk=5"]), "chunk=5", ["chunk=5"]);
  }

  lemma GuardedCommand(a: seq<Item>, b: seq<Item>)
    requires ValidCommand(a) && ValidCommand(b)
    ensures var l := [[a]] + [[b]];
            ValidAnd(l) && AndText(l) == CommandText(a) + " && " + CommandText(b) &&
            AndTree(l) == [[CommandTree(a)]] + [[CommandTree(b)]]
  {
    OneStage(a);
    OneStage(b);
    OnePipeline([b]);
    GuardedPipeline([a], [[b]]);
  }

  lemma FloorValid()
    ensures ValidCommand(FloorItems())
  {
    assert AllPlain("[") && AllPlain("-lt") && AllPlain("5") && AllPlain("]") && "[" !in RESERVED;
    FirstWord("[", [Bare("[")]);
    assert IsName("chunk");
  }

  // ---- what each form is read as

  function TarEnd(c: StreamCmd): seq<Item> {
    Plain(["-f", "-", "-C"]) + [Quoted(c.dataPath)] + (if c.direction == BACKUP then Plain(["."]) else [])
  }

  function TarEndText(c: StreamCmd): string {
    "-f - -C " + Quote(c.dataPath) + (if c.direction == BACKUP then " ." else "")
  }

  function TarItemsOf(c: StreamCmd): seq<Item>
    requires CompressProgram(c.compression, c.level).Ok?
  {
    if c.direction == BACKUP then TarItems(TAR_CREATE, CompressProgram(c.compression, c.level).value, TarEnd(c))
    else TarItems(TAR_EXTRACT, DecompressProgram(c.compression), TarEnd(c))
  }

  function TarTextOf(c: StreamCmd): string
    requires CompressProgram(c.compression, c.level).Ok?
  {
    if c.direction == BACKUP then TarText(TAR_CREATE_TEXT, CompressProgram(c.compression, c.level).value, TarEndText(c))
    else TarText(TAR_EXTRACT_TEXT, DecompressProgram(c.compression), TarEndText(c))
  }

  lemma TarEndSpelled(c: StreamCmd)
    ensures Spells(TarEnd(c), TarEndText(c),
                   ["-f", "-", "-C"] + [c.dataPath] + (if c.direction == BACKUP then ["."] else []))
  {
    T.EndPlain();
    PlainThenQuoted(["-f", "-", "-C"], "-f - -C", c.dataPath);
    assert "-f - -C" + " " == "-f - -C ";
    var front := Plain(["-f", "-", "-C"]) + [Quoted(c.dataPath)];
    if c.direction == BACKUP {
      assert AllPlain(".");
      SpellsPlain(["."]);
      SpellsBoth(front, "-f - -C " + Quote(c.dataPath), ["-f", "-", "-C"] + [c.dataPath], Plain(["."]), ".", ["."]);
      assert " " + "." == " .";
    } else {
      assert front + [] == front;
      assert ["-f", "-", "-C"] + [c.dataPath] + [] == ["-f", "-", "-C"] + [c.dataPath];
    }
  }

  lemma TarRuns(c: StreamCmd)
    requires c.Accepted()
    ensures Runs(TarItemsOf(c), TarTextOf(c), c.TarArguments())
  {
    TarEndSpelled(c);
    TarTexts();
    if c.direction == BACKUP {
      TarCommandRuns(TAR_CREATE, TAR_CREATE_TEXT, CompressProgram(c.compression, c.level).value, TarEnd(c),
                     TarEndText(c),
                     ["-f", "-", "-C"] + [c.dataPath] + ["."]);
    } else {
      var end := ["-f", "-", "-C"] + [c.dataPath];
      assert end + [] == end;
      TarCommandRuns(TAR_EXTRACT, TAR_EXTRACT_TEXT, DecompressProgram(c.compression), TarEnd(c), TarEndText(c), end);
    }
  }

  function RcloneFull(c: StreamCmd): string {
    RcloneText(c) + " " + (if c.direction == BACKUP then "rcat" else "cat") + " " + Quote(c.remotePath) +
    ChunkText(c) + ExtraText(c.extraArgs)
  }

  function ChunkSizing(path: string): string {
    "used=$(" + UsedText(path) + "); " + "chunk=$(" + CHUNK_FORMULA + "); " + FLOOR_TEXT + "; "
  }

  lemma SizingRead(path: string)
    ensures ValidAnd(UsedList(path)) && AndText(UsedList(path)) == AssignText("used=", UsedText(path)) &&
            Assigns(AndTree(UsedList(path)), "used=", UsedText(path)) && Measures(UsedText(path), path)
    ensures ValidAnd(ChunkList()) && AndText(ChunkList()) == AssignText("chunk=", CHUNK_FORMULA) &&
            Assigns(AndTree(ChunkList()), "chunk=", CHUNK_FORMULA)
    ensures ValidAnd(FloorSource()) && AndText(FloorSource()) == FLOOR_TEXT && FloorsChunk(AndTree(FloorSource()))
  {
    UsedListRead(path);
    ChunkListRead();
    FloorList();
  }

  lemma UsedListRead(path: string)
    ensures ValidAnd(UsedList(path)) && AndText(UsedList(path)) == AssignText("used=", UsedText(path)) &&
            Assigns(AndTree(UsedList(path)), "used=", UsedText(path)) && Measures(UsedText(path), path)
  {
    UsedNests(path);
    UsedMeasures(path);
    AssignList("used=", UsedText(path));
  }

  lemma ChunkListRead()
    ensures ValidAnd(ChunkList()) && AndText(ChunkList()) == AssignText("chunk=", CHUNK_FORMULA) &&
            Assigns(AndTree(ChunkList()), "chunk=", CHUNK_FORMULA)
  {
    FormulaNests();
    AssignList("chunk=", CHUNK_FORMULA);
  }

  function UsedList(path: string): SourceList { [[[WordOf([Bare("used="), BareSub(UsedText(path))])]]] }

  function ChunkList(): SourceList { [[[WordOf([Bare("chunk="), BareSub(CHUNK_FORMULA)])]]] }

  function FloorSource(): SourceList { [[FloorItems()]] + [[Plain(["chunk=5"])]] }

  function BackupText(c: StreamCmd): string
    requires c.Accepted()
  {
    "set -o pipefail" + "; " + (AssignText("used=", UsedText(c.dataPath)) + "; " +
      (AssignText("chunk=", CHUNK_FORMULA) + "; " + (FLOOR_TEXT + "; " + (TarTextOf(c) + " | " + RcloneFull(c)))))
  }

  lemma PipeRead(c: StreamCmd)
    requires c.Accepted() && c.PlainExtra() && c.direction == BACKUP
    ensures var tar, rclone := TarItemsOf(c), RcloneItems(c, "rcat") + ChunkItems(c) + ExtraItems(c.extraArgs);
            ValidAnd([[tar, rclone]]) && AndText([[tar, rclone]]) == TarTextOf(c) + " | " + RcloneFull(c) &&
            var a := AndTree([[tar, rclone]]);
            |a| == 1 && |a[0]| == 2 && Is(a[0][0], c.TarArguments()) && c.IsRclone(a[0][1])
  {
    TarRuns(c);
    RcloneRead(c, "rcat");
    PipeList(TarItemsOf(c), RcloneItems(c, "rcat") + ChunkItems(c) + ExtraItems(c.extraArgs));
  }

  lemma BackupParsed(c: StreamCmd)
    requires c.Accepted() && c.PlainExtra() && c.direction == BACKUP
    ensures Parse(BackupText(c)) == Some(BackupForest(c))
  {
    T.SetList();
    SizingRead(c.dataPath);
    PipeRead(c);
    FiveListsRead([[Plain(T.SET_PIPEFAIL)]], UsedList(c.dataPath), ChunkList(), FloorSource(),
                  [[TarItemsOf(c), RcloneItems(c, "rcat") + ChunkItems(c) + ExtraItems(c.extraArgs)]]);
  }

  function BackupForest(c: StreamCmd): Tree
    requires c.Accepted()
  {
    [AndTree([[Plain(T.SET_PIPEFAIL)]]), AndTree(UsedList(c.dataPath)), AndTree(ChunkList()), AndTree(FloorSource()),
     AndTree([[TarItemsOf(c), RcloneItems(c, "rcat") + ChunkItems(c) + ExtraItems(c.extraArgs)]])]
  }

  lemma BackupRead(c: StreamCmd)
    requires c.Accepted() && c.PlainExtra() && c.direction == BACKUP
    ensures c.IsReadOf(BackupText(c))
  {
    BackupParsed(c);
    BackupParts(c);
    BackupFrom(c, AndTree([[Plain(T.SET_PIPEFAIL)]]), AndTree(UsedList(c.dataPath)), AndTree(ChunkList()),
               AndTree(FloorSource()),
               AndTree([[TarItemsOf(c), RcloneItems(c, "rcat") + ChunkItems(c) + ExtraItems(c.extraArgs)]]));
  }

  lemma BackupParts(c: StreamCmd)
    requires c.Accepted() && c.PlainExtra() && c.direction == BACKUP
    ensures SetsPipefail(AndTree([[Plain(T.SET_PIPEFAIL)]])) &&
            Assigns(AndTree(UsedList(c.dataPath)), "used=", UsedText(c.dataPath))
    ensures Measures(UsedText(c.dataPath), c.dataPath) && Assigns(AndTree(ChunkList()), "chunk=", CHUNK_FORMULA)
    ensures FloorsChunk(AndTree(FloorSource()))
    ensures var a := AndTree([[TarItemsOf(c), RcloneItems(c, "rcat") + ChunkItems(c) + ExtraItems(c.extraArgs)]]);
            |a| == 1 && |a[0]| == 2 && Is(a[0][0], c.TarArguments()) && c.IsRclone(a[0][1])
  {
    T.SetList();
    SizingRead(c.dataPath);
    PipeRead(c);
  }

  lemma BackupFrom(c: StreamCmd, set0: AndList, used: AndList, chunk: AndList, floor: AndList, pipe: AndList)
    requires c.Accepted() && c.direction == BACKUP && SetsPipefail(set0)
    requires Assigns(used, "used=", UsedText(c.dataPath)) && Measures(UsedText(c.dataPath), c.dataPath)
    requires Assigns(chunk, "chunk=", CHUNK_FORMULA) && FloorsChunk(floor)
    requires |pipe| == 1 && |pipe[0]| == 2 && Is(pipe[0][0], c.TarArguments()) && c.IsRclone(pipe[0][1])
    ensures c.IsBuiltAs([set0, used, chunk, floor, pipe])
  {
    BackupForm(c, [set0, used, chunk, floor, pipe]);
  }

  lemma BackupForm(c: StreamCmd, t: Tree)
    requires c.Accepted() && c.direction == BACKUP && |t| == 5 && SetsPipefail(t[0])
    requires Assigns(t[1], "used=", UsedText(c.dataPath)) && Measures(UsedText(c.dataPath), c.dataPath)
    requires Assigns(t[2], "chunk=", CHUNK_FORMULA) && FloorsChunk(t[3])
    requires |t[4]| == 1 && |t[4][0]| == 2 && Is(t[4][0][0], c.TarArguments()) && c.IsRclone(t[4][0][1])
    ensures c.IsBuiltAs(t)
  {}

  lemma RestoreRead(c: StreamCmd)
    requires c.Accepted() && c.PlainExtra() && c.direction == RESTORE
    ensures var text := "set -o pipefail" + "; " +
            (PreparePath(c.dataPath, c.clean) + (RcloneFull(c) + " | " + TarTextOf(c)));
            c.IsReadOf(text)
  {
    var tar := TarItemsOf(c);
    var rclone := RcloneItems(c, "cat") + ChunkItems(c) + ExtraItems(c.extraArgs);
    T.SetList();
    TarRuns(c);
    RcloneRead(c, "cat");
    TwoStages(rclone, tar);
    PrepareReads(c.dataPath, c.clean, [rclone, tar]);
    TwoListsRead([[Plain(T.SET_PIPEFAIL)]], PrepareSource(c.dataPath, c.clean) + [[rclone, tar]]);
  }

  // ---- the builders

  method BuildBackup(c: StreamCmd, program: string, rclone: string) returns (builder: string)
    requires c.Accepted() && c.direction == BACKUP && program == CompressProgram(c.compression, c.level).value
    requires rclone == RcloneText(c)
    ensures builder == BackupText(c)
  {
    builder := "set -o pipefail; ";
    builder := builder + ChunkSizing(c.dataPath);
    ghost var front := builder;
    builder := builder + TAR_CREATE_TEXT;
    if program != "" {
      builder := builder + " -I " + Quote(program);
    }
    NamedCompressor(front, TAR_CREATE_TEXT, program);
    assert builder == front + NamedText(TAR_CREATE_TEXT, program);
    builder := builder + " -f - -C " + Quote(c.dataPath) + " . | " + rclone + " rcat " + Quote(c.remotePath) +
               " --s3-chunk-size \"${chunk}M\"";
    ghost var piped := builder;
    if c.extraArgs != "" {
      builder := builder + " " + c.extraArgs;
    }
    ExtraGlued(piped, c.extraArgs);
    assert builder == piped + ExtraText(c.extraArgs);
    assert piped + ExtraText(c.extraArgs) == BackupText(c) by { BackupAssembled(c, front, program); }
  }

  lemma ExtraGlued(text: string, extra: string)
    ensures text + " " + extra == text + (" " + extra)
    ensures text == text + ""
  {}

  lemma NamedCompressor(front: string, start: string, program: string)
    ensures front + start + " -I " + Quote(program) == front + (start + (" -I " + Quote(program)))
    ensures front + start == front + (start + "")
  {}

  function NamedText(start: string, program: string): string {
    start + if program == "" then "" else " -I " + Quote(program)
  }

  lemma BackupAssembled(c: StreamCmd, front: string, program: string)
    requires c.Accepted() && c.direction == BACKUP && program == CompressProgram(c.compression, c.level).value
    requires front == "set -o pipefail; " + ChunkSizing(c.dataPath)
    ensures var text := front + NamedText(TAR_CREATE_TEXT, program) + " -f - -C " + Quote(c.dataPath) + " . | " +
            RcloneText(c) +
                        " rcat " + Quote(c.remotePath) + " --s3-chunk-size \"${chunk}M\"";
            text + ExtraText(c.extraArgs) == BackupText(c)
  {
    ChunkSpelled();
    BackupGlued(front, NamedText(TAR_CREATE_TEXT, program), Quote(c.dataPath), RcloneText(c), Quote(c.remotePath),
                ChunkText(c), ExtraText(c.extraArgs));
    assert TarTextOf(c) == NamedText(TAR_CREATE_TEXT, program) + " " + ("-f - -C " + Quote(c.dataPath) + " .");
    Sizing(UsedText(c.dataPath), CHUNK_FORMULA, FLOOR_TEXT, TarTextOf(c) + " | " + RcloneFull(c));
  }

  lemma ChunkSpelled()
    ensures " --s3-chunk-size \"${chunk}M\"" == " " + SizedText("--s3-chunk-size", "chunk", "M")
  {
    ChunkWordSpelled();
    ChunkFlagSpelled("\"${chunk}M\"");
  }

  lemma ChunkWordSpelled()
    ensures "\"${" + "chunk" + "}" + "M" + "\"" == "\"${chunk}M\""
  {}

  lemma ChunkFlagSpelled(word: string)
    requires word == "\"${chunk}M\""
    ensures " --s3-chunk-size \"${chunk}M\"" == " " + ("--s3-chunk-size" + " " + word)
  {
    assert " " + ("--s3-chunk-size" + " ") == " --s3-chunk-size ";
    assert " --s3-chunk-size \"${chunk}M\"" == " --s3-chunk-size " + word;
  }

  lemma Sizing(used: string, formula: string, floor: string, rest: string)
    ensures "set -o pipefail; " + ("used=$(" + used + "); " + "chunk=$(" + formula + "); " + floor + "; ") + rest ==
            "set -o pipefail" + "; " + (AssignText("used=", used) + "; " +
            (AssignText("chunk=", formula) + "; " + (floor + "; " + rest)))
  {
    assert "set -o pipefail; " == "set -o pipefail" + "; ";
    assert "used=$(" == "used=" + "$(" && "chunk=$(" == "chunk=" + "$(" && "); " == ")" + "; ";
  }

  lemma BackupGlued(front: string, tar: string, d: string, rclone: string, r: string, chunk: string, extra: string)
    ensures front + tar + " -f - -C " + d + " . | " + rclone + " rcat " + r + chunk + extra ==
            front + ((tar + " " + ("-f - -C " + d + " .")) + " | " + (rclone + " " + "rcat" + " " + r + chunk + extra))
  {
    assert " -f - -C " == " " + "-f - -C " && " . | " == " ." + " | " && " rcat " == " " + "rcat" + " ";
  }

  function RestoreText(c: StreamCmd): string
    requires c.Accepted()
  {
    "set -o pipefail" + "; " + (PreparePath(c.dataPath, c.clean) + (RcloneFull(c) + " | " + TarTextOf(c)))
  }

  method BuildRestore(c: StreamCmd, rclone: string) returns (builder: string)
    requires c.Accepted() && c.direction == RESTORE && rclone == RcloneText(c)
    ensures builder == RestoreText(c)
  {
    builder := "set -o pipefail; mkdir -p " + Quote(c.dataPath) + " && ";
    if c.clean {
      builder := builder + CleanCmd(c.dataPath) + " && ";
    }
    RestorePrepared(Quote(c.dataPath), CleanCmd(c.dataPath));
    ghost var front := "set -o pipefail" + "; " + PreparePath(c.dataPath, c.clean);
    assert builder == front;
    builder := builder + rclone + " cat " + Quote(c.remotePath);
    ExtraGlued(builder, c.extraArgs);
    ghost var read := builder;
    if c.extraArgs != "" {
      builder := builder + " " + c.extraArgs;
    }
    ghost var piped := builder;
    assert piped == read + ExtraText(c.extraArgs);
    builder := builder + (" | " + TAR_EXTRACT_TEXT);
    var decompressor := DecompressProgram(c.compression);
    if decompressor != "" {
      builder := builder + " -I " + Quote(decompressor);
    }
    NamedCompressor(piped, " | " + TAR_EXTRACT_TEXT, decompressor);
    assert builder == piped + NamedText(" | " + TAR_EXTRACT_TEXT, decompressor);
    builder := builder + " -f - -C " + Quote(c.dataPath);
    assert piped + NamedText(" | " + TAR_EXTRACT_TEXT, decompressor) + " -f - -C " + Quote(c.dataPath) ==
           "set -o pipefail" + "; " + (PreparePath(c.dataPath, c.clean) + (RcloneFull(c) + " | " + TarTextOf(c))) by {
      RestoreAssembled(c, decompressor);
    }
  }

  lemma RestoreAssembled(c: StreamCmd, decompressor: string)
    requires c.Accepted() && c.direction == RESTORE && decompressor == DecompressProgram(c.compression)
    ensures (("set -o pipefail" + "; " + PreparePath(c.dataPath, c.clean)) + RcloneText(c) + " cat " +
             Quote(c.remotePath) + ExtraText(c.extraArgs)) +
            NamedText(" | " + TAR_EXTRACT_TEXT, decompressor) + " -f - -C " + Quote(c.dataPath) ==
            "set -o pipefail" + "; " + (PreparePath(c.dataPath, c.clean) + (RcloneFull(c) + " | " + TarTextOf(c)))
  {
    var named := if decompressor == "" then "" else " -I " + Quote(decompressor);
    RestoreGlued("set -o pipefail" + "; ", PreparePath(c.dataPath, c.clean), RcloneText(c), Quote(c.remotePath),
                 ExtraText(c.extraArgs),
                 TAR_EXTRACT_TEXT, named, Quote(c.dataPath));
    assert TarTextOf(c) == TAR_EXTRACT_TEXT + named + " " + ("-f - -C " + Quote(c.dataPath) + "");
  }

  lemma RestorePrepared(q: string, clean: string)
    ensures "set -o pipefail; mkdir -p " + q + " && " + clean + " && " ==
            "set -o pipefail" + "; " + (("mkdir -p " + q) + " && " + (clean + " && "))
    ensures "set -o pipefail; mkdir -p " + q + " && " == "set -o pipefail" + "; " + (("mkdir -p " + q) + " && " + "")
  {
    assert "set -o pipefail; mkdir -p " == "set -o pipefail" + "; " + "mkdir -p ";
  }

  lemma RestoreGlued(s: string, p: string, rclone: string, r: string, extra: string, tar: string, named: string,
                     d: string)
    ensures (s + p) + rclone + " cat " + r + extra + (" | " + tar) + named + " -f - -C " + d ==
            s + (p + ((rclone + " " + "cat" + " " + r + "" + extra) + " | " +
            (tar + named + " " + ("-f - -C " + d + ""))))
    ensures (s + p) + rclone + " cat " + r + extra + (" | " + tar) + named + " -f - -C " + d ==
            (s + p) + rclone + " cat " + r + extra + ((" | " + tar) + named) + " -f - -C " + d
  {
    assert " cat " == " " + "cat" + " " && " -f - -C " == " " + "-f - -C ";
  }

  lemma FieldsChecked(c: StreamCmd, fields: seq<string>)
    requires fields == [c.remotePath, c.dataPath, c.configPath]
    ensures c.Accepted() <==>
              (forall i :: 0 <= i < |fields| ==> fields[i] != "" && SingleLine(fields[i])) &&
              CompressProgram(c.compression, c.level).Ok? && (c.direction == BACKUP || c.direction == RESTORE)
  {
    assert fields[0] == c.remotePath && fields[1] == c.dataPath && fields[2] == c.configPath;
  }

  /** A string is built exactly for the commands accepted; while the extra
      flags are plain words a POSIX shell reads it as exactly its form's tree. */
  method Build(c: StreamCmd) returns (r: Outcome.Result<string, BuildError>)
    ensures r.Ok? <==> c.Accepted()
    ensures r.Ok? && c.PlainExtra() ==> c.IsReadOf(r.value)
    ensures r.Ok? ==> r.value == if c.direction == BACKUP then BackupText(c) else RestoreText(c)
    ensures r.Ok? ==> (SingleLine(r.value) <==> SingleLine(c.extraArgs))
  {
    var fields := [c.remotePath, c.dataPath, c.configPath];
    var checked := CheckFields(fields);
    FieldsChecked(c, fields);
    if checked.Err? {
      return Err(checked.error);
    }
    var compressor := CompressProgram(c.compression, c.level);
    if compressor.Err? {
      return Err(compressor.error);
    }
    var rclone := RcloneText(c);
    if c.direction == BACKUP {
      var text := BuildBackup(c, compressor.value, rclone);
      BackupFits(c);
      if c.PlainExtra() {
        BackupRead(c);
      }
      return Ok(text);
    } else if c.direction == RESTORE {
      var text := BuildRestore(c, rclone);
      RestoreFits(c);
      if c.PlainExtra() {
        RestoreRead(c);
      }
      return Ok(text);
    } else {
      return Err(BadDirection);
    }
  }

  // ---- on one line, if the user's own words are

  lemma RcloneFits(c: StreamCmd)
    requires c.Accepted()
    ensures SingleLine(RcloneFull(c)) <==> SingleLine(c.extraArgs)
  {
    var verb := if c.direction == BACKUP then "rcat" else "cat";
    StreamLiteralsFit();
    FlagsFit();
    QuotedFits("rclone --config ", c.configPath, " ");
    OneLine.Both("rclone --config " + Quote(c.configPath) + " ", ShellSyntax.Join(PROGRESS_FLAGS, " "));
    QuoteKeepsSingleLine(c.remotePath);
    OneLine.Five(RcloneText(c), " ", verb, " ", Quote(c.remotePath));
    OneLine.Both(" ", c.extraArgs);
    OneLine.Three(RcloneText(c) + " " + verb + " " + Quote(c.remotePath), ChunkText(c), ExtraText(c.extraArgs));
  }

  lemma StreamLiteralsFit()
    ensures SingleLine("rclone --config ") && SingleLine("rcat") && SingleLine("cat") && SingleLine(" ")
    ensures SingleLine("") && SingleLine(" " + SizedText("--s3-chunk-size", "chunk", "M"))
  {
    OneLine.Five("\"${", "chunk", "}", "M", "\"");
    OneLine.Three("--s3-chunk-size", " ", "\"${" + "chunk" + "}" + "M" + "\"");
    OneLine.Both(" ", SizedText("--s3-chunk-size", "chunk", "M"));
  }

  lemma FlagsFit()
    ensures SingleLine(ShellSyntax.Join(PROGRESS_FLAGS, " "))
  {
    FlagWords();
    forall i | 0 <= i < |PROGRESS_FLAGS| ensures SingleLine(PROGRESS_FLAGS[i]) {
      T.PlainFits(PROGRESS_FLAGS[i]);
    }
    T.WordsFit(PROGRESS_FLAGS);
  }

  lemma StreamTarFits(c: StreamCmd)
    requires c.Accepted()
    ensures SingleLine(TarTextOf(c))
  {
    QuotedFits("-f - -C ", c.dataPath, if c.direction == BACKUP then " ." else "");
    ProgramFits(c.compression, c.level);
    StartsFit();
    TarFits(TAR_CREATE_TEXT, CompressProgram(c.compression, c.level).value, TarEndText(c));
    TarFits(TAR_EXTRACT_TEXT, DecompressProgram(c.compression), TarEndText(c));
  }

  lemma PipeFits(c: StreamCmd)
    requires c.Accepted()
    ensures SingleLine(RcloneFull(c) + " | " + TarTextOf(c)) <==> SingleLine(c.extraArgs)
    ensures SingleLine(TarTextOf(c) + " | " + RcloneFull(c)) <==> SingleLine(c.extraArgs)
  {
    RcloneFits(c);
    StreamTarFits(c);
    PipedFits(RcloneFull(c), TarTextOf(c));
  }

  lemma PipedFits(rclone: string, tar: string)
    requires SingleLine(tar)
    ensures SingleLine(rclone + " | " + tar) <==> SingleLine(rclone)
    ensures SingleLine(tar + " | " + rclone) <==> SingleLine(rclone)
  {
    OneLine.Three(rclone, " | ", tar);
    OneLine.Three(tar, " | ", rclone);
  }

  lemma SetFits()
    ensures SingleLine("set -o pipefail") && SingleLine("; ")
  {}

  lemma RestoreFits(c: StreamCmd)
    requires c.Accepted()
    ensures SingleLine(RestoreText(c)) <==> SingleLine(c.extraArgs)
  {
    PreparationFits(c.dataPath, c.clean);
    PipeFits(c);
    SetFits();
    LastDecides("set -o pipefail", "; ", PreparePath(c.dataPath, c.clean), RcloneFull(c) + " | " + TarTextOf(c));
  }

  lemma LastDecides(a: string, b: string, c: string, last: string)
    requires SingleLine(a) && SingleLine(b) && SingleLine(c)
    ensures SingleLine(a + b + (c + last)) <==> SingleLine(last)
  {
    OneLine.Both(c, last);
    OneLine.Three(a, b, c + last);
  }

  lemma AssignFits(name: string, text: string)
    requires SingleLine(name) && SingleLine(text)
    ensures SingleLine(AssignText(name, text))
  {
    OneLine.Three("$(", text, ")");
    OneLine.Both(name, "$(" + text + ")");
  }

  lemma FormulaFits()
    ensures SingleLine(CHUNK_FORMULA) && SingleLine(FLOOR_TEXT) && SingleLine("used=") && SingleLine("chunk=")
  {
    FormulaLiteralsFit();
    RatioFits("(", " ", CHUNK_RATIO, ")", " + 1 ");
    OneLine.Three("\"$", "chunk", "\"");
    OneLine.Three("[ ", "\"$" + "chunk" + "\"", " -lt 5 ]");
    OneLine.Three(FloorTest("\"$" + "chunk" + "\""), " && ", "chunk=5");
  }

  lemma FormulaLiteralsFit()
    ensures SingleLine(CHUNK_RATIO) && SingleLine("(") && SingleLine(" ") && SingleLine(")") && SingleLine(" + 1 ")
    ensures SingleLine("\"$") && SingleLine("chunk") && SingleLine("\"") && SingleLine("[ ") && SingleLine(" -lt 5 ]")
    ensures SingleLine(" && ") && SingleLine("chunk=5") && SingleLine("used=") && SingleLine("chunk=")
  {}

  lemma RatioFits(open: string, space: string, ratio: string, close: string, plus: string)
    requires SingleLine(open) && SingleLine(space) && SingleLine(ratio) && SingleLine(close) && SingleLine(plus)
    ensures SingleLine(open + (space + (open + (ratio + close)) + plus + close))
  {
    OneLine.Both(ratio, close);
    OneLine.Both(open, ratio + close);
    OneLine.Three(space, open + (ratio + close), plus);
    OneLine.Both(space + (open + (ratio + close)) + plus, close);
    OneLine.Both(open, space + (open + (ratio + close)) + plus + close);
  }

  lemma BackupFits(c: StreamCmd)
    requires c.Accepted()
    ensures SingleLine(BackupText(c)) <==> SingleLine(c.extraArgs)
  {
    UsedFits(c.dataPath);
    FormulaFits();
    AssignFits("used=", UsedText(c.dataPath));
    AssignFits("chunk=", CHUNK_FORMULA);
    PipeFits(c);
    SetFits();
    FiveDecided("set -o pipefail", "; ", AssignText("used=", UsedText(c.dataPath)), AssignText("chunk=", CHUNK_FORMULA),
                FLOOR_TEXT, TarTextOf(c) + " | " + RcloneFull(c));
  }

  lemma FiveDecided(a: string, semi: string, b: string, c: string, d: string, last: string)
    requires SingleLine(a) && SingleLine(semi) && SingleLine(b) && SingleLine(c) && SingleLine(d)
    ensures SingleLine(a + semi + (b + semi + (c + semi + (d + semi + last)))) <==> SingleLine(last)
  {
    OneLine.Three(d, semi, last);
    OneLine.Three(c, semi, d + semi + last);
    OneLine.Three(b, semi, c + semi + (d + semi + last));
    OneLine.Three(a, semi, b + semi + (c + semi + (d + semi + last)));
  }
}
