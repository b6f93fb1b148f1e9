/** The pieces every archive command is put together from
    (internal/archive/cmd.go and internal/archive/transfer.go): each builder,
    and the command it stands for. */
module ArchiveParts {
  import opened ArchiveNames
  import opened Decimal
  import opened Outcome
  import opened ShellQuote
  import opened ShellLexer
  import opened ShellSyntax
  import opened ShellReading
  import opened ShellExec
  import opened ArchiveWords
  import GoPath
  import OneLine

  datatype BuildError = EmptyField | NotSingleLine | BadLevel | BadCompression | BadDirection

  const TOTAL_MARKER := "pv-migrate-bytes-total:"
  const LOST_FOUND_EXCLUDE := "--exclude=./lost+found"

  // ---- compressors

  function CheckLevel(level: int, maximum: int): Result<(), BuildError> {
    if level < 1 || level > maximum then Err(BadLevel) else Ok(())
  }

  /** Level 0 asks for the compressor's own default, and no compression takes
      no level. */
  function CompressProgram(compression: string, level: int): (r: Result<string, BuildError>)
    ensures r.Ok? <==> (compression == NONE && level == 0) || (compression == ZSTD && 0 <= level <= 19) ||
                       (compression == GZIP && 0 <= level <= 9)
    ensures r.Ok? ==> (r.value == "" <==> compression == NONE)
  {
    if compression == NONE then if level != 0 then Err(BadLevel) else Ok("")
    else if compression == ZSTD then
      var level := if level == 0 then 3 else level;
      if CheckLevel(level, 19).Err? then Err(BadLevel) else Ok("zstd -T4 -" + Itoa(level))
    else if compression == GZIP then
      var level := if level == 0 then 6 else level;
      if CheckLevel(level, 9).Err? then Err(BadLevel) else Ok("pigz -p 4 -" + Itoa(level))
    else Err(BadCompression)
  }

  function DecompressProgram(compression: string): string {
    if compression == ZSTD then "zstd" else if compression == GZIP then "pigz -p 4" else ""
  }

  // ---- fields

  /** The fields in the order they are checked; the first bad one is reported. */
  method CheckFields(fields: seq<string>) returns (r: Outcome.Result<(), BuildError>)
    ensures r.Ok? <==> forall k :: 0 <= k < |fields| ==> fields[k] != "" && SingleLine(fields[k])
  {
    for i := 0 to |fields|
      invariant forall k :: 0 <= k < i ==> fields[k] != "" && SingleLine(fields[k])
    {
      if fields[i] == "" {
        return Err(EmptyField);
      }
      if !SingleLine(fields[i]) {
        return Err(NotSingleLine);
      }
    }
    return Ok(());
  }

  // ---- commands by their arguments

  const TAR_CREATE := ["tar", "-c", "--numeric-owner", "--xattrs", "--sparse", "--exclude=./lost+found"]
  const TAR_EXTRACT := ["tar", "-x", "--numeric-owner", "--xattrs", "--exclude=./lost+found"]
  const TAR_CREATE_TEXT := "tar -c " + "--numeric-owner " + "--xattrs " + "--sparse " + LOST_FOUND_EXCLUDE
  const TAR_EXTRACT_TEXT := "tar -x " + "--numeric-owner " + "--xattrs " + LOST_FOUND_EXCLUDE

  function MkdirArgs(path: string): seq<string> { ["mkdir", "-p"] + [path] }

  function CleanArgs(path: string): seq<string> {
    var kept := GoPath.Join(path, "lost+found");
    (["find"] + [path]) + (["-mindepth", "1", "-not", "-path"] + [kept]) + (["-not", "-path"] + [kept + "/*"]) +
    ["-delete"]
  }

  /** `-I program` names the compressor tar runs; a tar without one has none. */
  function TarArgs(start: seq<string>, program: string, end: seq<string>): seq<string> {
    if program == "" then start + end else start + ["-I"] + [program] + end
  }

  // ---- the same as source items

  function MkdirItems(path: string): seq<Item> { Plain(["mkdir", "-p"]) + [Quoted(path)] }

  function CleanItems(path: string): seq<Item> {
    var kept := GoPath.Join(path, "lost+found");
    (Plain(["find"]) + [Quoted(path)]) + (Plain(["-mindepth", "1", "-not", "-path"]) + [Quoted(kept)]) +
    (Plain(["-not", "-path"]) + [Quoted(kept + "/*")]) + Plain(["-delete"])
  }

  function TarItems(start: seq<string>, program: string, end: seq<Item>): seq<Item> {
    if program == "" then Plain(start) + end else Plain(start) + Plain(["-I"]) + [Quoted(program)] + end
  }

  function MkdirText(path: string): string { "mkdir -p " + Quote(path) }

  function CleanCmd(path: string): string {
    var kept := GoPath.Join(path, "lost+found");
    "find " + Quote(path) + " -mindepth 1 -not -path " + Quote(kept) + " -not -path " + Quote(kept + "/*") + " -delete"
  }

  function TarText(start: string, program: string, end: string): string {
    start + (if program == "" then "" else " -I " + Quote(program)) + " " + end
  }

  lemma CreateJoined(last: string)
    ensures ShellSyntax.Join(["tar", "-c", "--numeric-owner", "--xattrs", "--sparse", last], " ") ==
            "tar" + " " + ("-c" + " " + ("--numeric-owner" + " " + ("--xattrs" + " " + ("--sparse" + " " + last))))
  {
    var w5 := ["--sparse"] + [last];
    var w4 := ["--xattrs"] + w5;
    var w3 := ["--numeric-owner"] + w4;
    var w2 := ["-c"] + w3;
    assert ["tar", "-c", "--numeric-owner", "--xattrs", "--sparse", last] == ["tar"] + w2;
    JoinCons("--sparse", [last], " ");
    JoinCons("--xattrs", w5, " ");
    JoinCons("--numeric-owner", w4, " ");
    JoinCons("-c", w3, " ");
    JoinCons("tar", w2, " ");
  }

  lemma CreateSpelled(last: string)
    ensures "tar" + " " + ("-c" + " " + ("--numeric-owner" + " " + ("--xattrs" + " " + ("--sparse" + " " + last)))) ==
            "tar -c " + "--numeric-owner " + "--xattrs " + "--sparse " + last
  {
    assert "tar" + " " + "-c" + " " == "tar -c " && "--numeric-owner" + " " == "--numeric-owner ";
    assert "--xattrs" + " " == "--xattrs " && "--sparse" + " " == "--sparse ";
  }

  lemma ExtractJoined(last: string)
    ensures ShellSyntax.Join(["tar", "-x", "--numeric-owner", "--xattrs", last], " ") ==
            "tar" + " " + ("-x" + " " + ("--numeric-owner" + " " + ("--xattrs" + " " + last)))
  {
    var w4 := ["--xattrs"] + [last];
    var w3 := ["--numeric-owner"] + w4;
    var w2 := ["-x"] + w3;
    assert ["tar", "-x", "--numeric-owner", "--xattrs", last] == ["tar"] + w2;
    JoinCons("--xattrs", [last], " ");
    JoinCons("--numeric-owner", w4, " ");
    JoinCons("-x", w3, " ");
    JoinCons("tar", w2, " ");
  }

  lemma ExtractSpelled(last: string)
    ensures "tar" + " " + ("-x" + " " + ("--numeric-owner" + " " + ("--xattrs" + " " + last))) ==
            "tar -x " + "--numeric-owner " + "--xattrs " + last
  {
    assert "tar" + " " + "-x" + " " == "tar -x " && "--numeric-owner" + " " == "--numeric-owner ";
    assert "--xattrs" + " " == "--xattrs ";
  }

  lemma OptionsPlain()
    ensures AllPlain("--numeric-owner") && AllPlain("--xattrs") && AllPlain("--sparse")
    ensures AllPlain("--exclude=./lost+found")
  {}

  lemma CreatePlain()
    ensures PlainWords(TAR_CREATE) && NoGlob(TAR_CREATE)
  {
    OptionsPlain();
    assert AllPlain("tar") && AllPlain("-c");
  }

  lemma ExtractPlain()
    ensures PlainWords(TAR_EXTRACT) && NoGlob(TAR_EXTRACT)
  {
    OptionsPlain();
    assert AllPlain("tar") && AllPlain("-x");
  }

  lemma TarTexts()
    ensures Spells(Plain(TAR_CREATE), TAR_CREATE_TEXT, TAR_CREATE)
    ensures Spells(Plain(TAR_EXTRACT), TAR_EXTRACT_TEXT, TAR_EXTRACT)
  {
    CreatePlain();
    ExtractPlain();
    CreateJoined(LOST_FOUND_EXCLUDE);
    CreateSpelled(LOST_FOUND_EXCLUDE);
    SpellsPlain(TAR_CREATE);
    ExtractJoined(LOST_FOUND_EXCLUDE);
    ExtractSpelled(LOST_FOUND_EXCLUDE);
    SpellsPlain(TAR_EXTRACT);
  }

  /** A short run of plain words, spelled out. */
  lemma TwoPlain(a: string, b: string)
    requires a != "" && b != "" && AllPlain(a) && AllPlain(b) && '[' !in a && '[' !in b
    ensures Spells(Plain([a, b]), a + " " + b, [a, b])
  {
    assert [a, b] == [a] + [b];
    JoinCons(a, [b], " ");
    SpellsPlain([a, b]);
  }

  lemma ThreePlain(a: string, b: string, c: string)
    requires a != "" && b != "" && c != "" && AllPlain(a) && AllPlain(b) && AllPlain(c)
    requires '[' !in a && '[' !in b && '[' !in c
    ensures Spells(Plain([a, b, c]), a + " " + (b + " " + c), [a, b, c])
  {
    TwoPlain(b, c);
    SpellsPlain([a]);
    SpellsBoth(Plain([a]), a, [a], Plain([b, c]), b + " " + c, [b, c]);
    assert Plain([a, b, c]) == Plain([a]) + Plain([b, c]) && [a, b, c] == [a] + [b, c];
  }

  lemma MkdirSpelled(path: string)
    ensures Spells(MkdirItems(path), MkdirText(path), MkdirArgs(path))
  {
    TwoPlain("mkdir", "-p");
    SpellsQuoted(path);
    SpellsBoth(Plain(["mkdir", "-p"]), "mkdir" + " " + "-p", ["mkdir", "-p"], [Quoted(path)], Quote(path), [path]);
    assert "mkdir" + " " + "-p" + " " == "mkdir -p ";
  }

  lemma PlainThenQuoted(words: seq<string>, text: string, value: string)
    requires Spells(Plain(words), text, words)
    ensures Spells(Plain(words) + [Quoted(value)], text + " " + Quote(value), words + [value])
  {
    SpellsQuoted(value);
    SpellsBoth(Plain(words), text, words, [Quoted(value)], Quote(value), [value]);
  }

  lemma FindPlain()
    ensures Spells(Plain(["-mindepth", "1", "-not", "-path"]), "-mindepth 1 -not -path",
                   ["-mindepth", "1", "-not", "-path"])
    ensures Spells(Plain(["-not", "-path"]), "-not -path", ["-not", "-path"])
  {
    DepthPlain();
    NotPathPlain();
    FourPlain("-mindepth", "1", "-mindepth 1", "-not", "-path", "-not -path");
    assert "-mindepth 1" + " " + "-not -path" == "-mindepth 1 -not -path";
  }

  lemma DepthPlain()
    ensures Spells(Plain(["-mindepth", "1"]), "-mindepth 1", ["-mindepth", "1"])
  {
    TwoPlain("-mindepth", "1");
    assert "-mindepth" + " " + "1" == "-mindepth 1";
  }

  lemma NotPathPlain()
    ensures Spells(Plain(["-not", "-path"]), "-not -path", ["-not", "-path"])
  {
    TwoPlain("-not", "-path");
    assert "-not" + " " + "-path" == "-not -path";
  }

  lemma FourPlain(a: string, b: string, ab: string, c: string, d: string, cd: string)
    requires Spells(Plain([a, b]), ab, [a, b]) && Spells(Plain([c, d]), cd, [c, d])
    ensures Spells(Plain([a, b, c, d]), ab + " " + cd, [a, b, c, d])
  {
    SpellsBoth(Plain([a, b]), ab, [a, b], Plain([c, d]), cd, [c, d]);
    assert Plain([a, b, c, d]) == Plain([a, b]) + Plain([c, d]);
    assert [a, b, c, d] == [a, b] + [c, d];
  }

  lemma FindGroup(path: string)
    ensures Spells(Plain(["find"]) + [Quoted(path)], "find " + Quote(path), ["find"] + [path])
  {
    SpellsPlain(["find"]);
    PlainThenQuoted(["find"], "find", path);
    assert "find" + " " == "find ";
  }

  lemma DepthGroup(kept: string)
    ensures Spells(Plain(["-mindepth", "1", "-not", "-path"]) + [Quoted(kept)], "-mindepth 1 -not -path " + Quote(kept),
                   ["-mindepth", "1", "-not", "-path"] + [kept])
  {
    FindPlain();
    PlainThenQuoted(["-mindepth", "1", "-not", "-path"], "-mindepth 1 -not -path", kept);
    assert "-mindepth 1 -not -path" + " " == "-mindepth 1 -not -path ";
  }

  lemma NotPathGroup(kept: string)
    ensures Spells(Plain(["-not", "-path"]) + [Quoted(kept)], "-not -path " + Quote(kept), ["-not", "-path"] + [kept])
  {
    NotPathPlain();
    PlainThenQuoted(["-not", "-path"], "-not -path", kept);
    assert "-not -path" + " " == "-not -path ";
  }

  lemma CleanSpelled(path: string)
    ensures Spells(CleanItems(path), CleanCmd(path), CleanArgs(path))
  {
    var kept := GoPath.Join(path, "lost+found");
    CleanOf(path, kept, kept + "/*");
  }

  lemma CleanOf(path: string, kept: string, rest: string)
    ensures Spells((Plain(["find"]) + [Quoted(path)]) + (Plain(["-mindepth", "1", "-not", "-path"]) + [Quoted(kept)]) +
                   (Plain(["-not", "-path"]) + [Quoted(rest)]) + Plain(["-delete"]),
                   "find " + Quote(path) + " -mindepth 1 -not -path " + Quote(kept) + " -not -path " + Quote(rest) +
                   " -delete",
                   (["find"] + [path]) + (["-mindepth", "1", "-not", "-path"] + [kept]) + (["-not", "-path"] + [rest]) +
                   ["-delete"])
  {
    FindGroup(path);
    DepthGroup(kept);
    NotPathGroup(rest);
    CleanGroups(Plain(["find"]) + [Quoted(path)], "find " + Quote(path), ["find"] + [path],
                Plain(["-mindepth", "1", "-not", "-path"]) + [Quoted(kept)], "-mindepth 1 -not -path " + Quote(kept),
                ["-mindepth", "1", "-not", "-path"] + [kept],
                Plain(["-not", "-path"]) + [Quoted(rest)], "-not -path " + Quote(rest), ["-not", "-path"] + [rest]);
    CleanText(Quote(path), Quote(kept), Quote(rest));
  }

  lemma CleanGroups(a: seq<Item>, ta: string, xa: seq<string>, b: seq<Item>, tb: string, xb: seq<string>,
                    c: seq<Item>, tc: string, xc: seq<string>)
    requires Spells(a, ta, xa) && Spells(b, tb, xb) && Spells(c, tc, xc)
    ensures Spells(a + b + c + Plain(["-delete"]), ta + " " + tb + " " + tc + " " + "-delete",
                   xa + xb + xc + ["-delete"])
  {
    SpellsPlain(["-delete"]);
    SpellsBoth(a, ta, xa, b, tb, xb);
    SpellsBoth(a + b, ta + " " + tb, xa + xb, c, tc, xc);
    SpellsBoth(a + b + c, ta + " " + tb + " " + tc, xa + xb + xc, Plain(["-delete"]), "-delete", ["-delete"]);
  }

  lemma CleanText(a: string, b: string, c: string)
    ensures ("find " + a) + " " + ("-mindepth 1 -not -path " + b) + " " + ("-not -path " + c) + " " + "-delete" ==
            "find " + a + " -mindepth 1 -not -path " + b + " -not -path " + c + " -delete"
  {
    assert " " + "-mindepth 1 -not -path " == " -mindepth 1 -not -path ";
    assert " " + "-not -path " == " -not -path ";
    assert " " + "-delete" == " -delete";
    Spaced("find ", a, "-mindepth 1 -not -path ", b, "-not -path ", c, "-delete");
  }

  lemma Spaced(f: string, a: string, m: string, b: string, n: string, c: string, d: string)
    ensures (f + a) + " " + (m + b) + " " + (n + c) + " " + d == f + a + (" " + m) + b + (" " + n) + c + (" " + d)
  {}

  lemma TarSpelled(start: seq<string>, st: string, program: string, end: seq<Item>, et: string, ea: seq<string>)
    requires Spells(Plain(start), st, start) && Spells(end, et, ea)
    ensures Spells(TarItems(start, program, end), TarText(st, program, et), TarArgs(start, program, ea))
  {
    if program == "" {
      SpellsBoth(Plain(start), st, start, end, et, ea);
      assert st + "" == st;
    } else {
      SpellsPlain(["-I"]);
      SpellsQuoted(program);
      FourSpelled(Plain(start), st, start, Plain(["-I"]), "-I", ["-I"], [Quoted(program)], Quote(program), [program],
                  end, et, ea);
      FlagGlued(st, Quote(program));
    }
  }

  lemma FlagGlued(st: string, quoted: string)
    ensures st + " " + "-I" + " " + quoted == st + (" -I " + quoted)
  {
    assert " " + "-I" + " " == " -I ";
  }

  lemma FourSpelled(a: seq<Item>, ta: string, x: seq<string>, b: seq<Item>, tb: string, y: seq<string>,
                    c: seq<Item>, tc: string, z: seq<string>, d: seq<Item>, td: string, w: seq<string>)
    requires Spells(a, ta, x) && Spells(b, tb, y) && Spells(c, tc, z) && Spells(d, td, w)
    ensures Spells(a + b + c + d, ta + " " + tb + " " + tc + " " + td, x + y + z + w)
  {
    SpellsBoth(a, ta, x, b, tb, y);
    SpellsBoth(a + b, ta + " " + tb, x + y, c, tc, z);
    SpellsBoth(a + b + c, ta + " " + tb + " " + tc, x + y + z, d, td, w);
  }

  // ---- what a command measures: df of a path, through awk

  const AWK_USED := "NR==2{print $3}"

  function UsedText(path: string): string { "df -B1 " + Quote(path) + " | awk " + ("'" + AWK_USED + "'") }

  /** The text is one pipeline, df of exactly this path into awk. */
  predicate Measures(text: string, path: string) {
    Parse(text).Some? &&
    var t := Parse(text).value;
    |t| == 1 && |t[0]| == 1 && |t[0][0]| == 2 &&
    Is(t[0][0][0], ["df", "-B1"] + [path]) && Is(t[0][0][1], ["awk"] + [AWK_USED])
  }

  predicate Neutral(s: string) {
    forall i :: 0 <= i < |s| ==> s[i] != '\'' && s[i] != '"' && s[i] != '\\' && s[i] != '(' && s[i] != ')'
  }

  lemma {:induction false} NeutralKeeps(open: Nesting, s: string)
    requires open.Open? && open.top == Group && Neutral(s)
    ensures NestedRun(open, s) == open
    decreases |s|
  {
    if s != [] {
      NeutralKeeps(open, s[1..]);
    }
  }

  lemma NeutralNests(s: string)
    requires Neutral(s)
    ensures SubSafe(s)
  {
    NeutralKeeps(IN_GROUP, s);
  }

  /** A parenthesis inside a substitution, as in arithmetic. */
  lemma ParensNest(open: Nesting, s: string)
    requires open.Open? && open.top == Group && NestedRun(Open(Group, open), s) == Open(Group, open)
    ensures NestedRun(open, ['('] + (s + [')'])) == open
  {
    NestedCons(open, '(', s + [')']);
    NestedConcat(Open(Group, open), s, [')']);
    assert [')'] == [')'] + [];
    NestedCons(Open(Group, open), ')', []);
  }

  lemma {:induction false} ReplacedNests(value: string)
    ensures NestedRun(Open(Nest.Single, IN_GROUP), ReplaceQuotes(value)) == Open(Nest.Single, IN_GROUP)
    decreases |value|
  {
    if value != [] {
      var s := if value[0] == '\'' then ESCAPED_QUOTE else [value[0]];
      NestedConcat(Open(Nest.Single, IN_GROUP), s, ReplaceQuotes(value[1..]));
      assert NestedRun(Open(Nest.Single, IN_GROUP), s) == Open(Nest.Single, IN_GROUP) by {
        if value[0] == '\'' {
          EscapedNests();
        } else {
          assert s[1..] == [];
        }
      }
      ReplacedNests(value[1..]);
    }
  }

  lemma NestedCons(open: Nesting, c: char, s: string)
    ensures NestedRun(open, [c] + s) == NestedRun(Nested(open, c), s)
  {
    assert ([c] + s)[1..] == s;
  }

  lemma EscapedNests()
    ensures NestedRun(Open(Nest.Single, IN_GROUP), ESCAPED_QUOTE) == Open(Nest.Single, IN_GROUP)
  {
    var g, s, d := IN_GROUP, Open(Nest.Single, IN_GROUP), Open(Double, IN_GROUP);
    assert ESCAPED_QUOTE == ['\''] + (['"'] + (['\''] + (['"'] + (['\''] + []))));
    NestedCons(s, '\'', ['"'] + (['\''] + (['"'] + (['\''] + []))));
    assert Nested(s, '\'') == g;
    NestedCons(g, '"', ['\''] + (['"'] + (['\''] + [])));
    NestedCons(d, '\'', ['"'] + (['\''] + []));
    NestedCons(d, '"', ['\''] + []);
    assert Nested(d, '"') == g;
    NestedCons(g, '\'', []);
  }

  /** A quoted value can stand inside a substitution whatever it holds. */
  lemma QuoteNests(value: string)
    ensures SubSafe(Quote(value))
  {
    var inner := ReplaceQuotes(value);
    if value == "" {
      assert inner == "" && "''" == ['\''] + (inner + ['\'']);
    }
    assert Quote(value) == ['\''] + (inner + ['\'']);
    NestedCons(IN_GROUP, '\'', inner + ['\'']);
    assert Nested(IN_GROUP, '\'') == Open(Nest.Single, IN_GROUP);
    NestedConcat(Open(Nest.Single, IN_GROUP), inner, ['\'']);
    ReplacedNests(value);
    NestedCons(Open(Nest.Single, IN_GROUP), '\'', []);
    assert ['\''] + [] == ['\''];
    assert Nested(Open(Nest.Single, IN_GROUP), '\'') == IN_GROUP;
  }

  lemma BothNest(a: string, b: string)
    requires SubSafe(a) && SubSafe(b)
    ensures SubSafe(a + b)
  {
    NestedConcat(IN_GROUP, a, b);
  }

  lemma AwkQuoted()
    ensures Quote(AWK_USED) == "'" + AWK_USED + "'"
  {
    QuoteOfPlainText(AWK_USED);
  }

  lemma UsedNests(path: string)
    ensures SubSafe(UsedText(path))
  {
    NeutralNests("df -B1 ");
    QuoteNests(path);
    BothNest("df -B1 ", Quote(path));
    NeutralNests(" | awk ");
    BothNest("df -B1 " + Quote(path), " | awk ");
    AwkQuoted();
    QuoteNests(AWK_USED);
    BothNest("df -B1 " + Quote(path) + " | awk ", Quote(AWK_USED));
  }

  lemma Unreserved()
    ensures {"df", "awk", "mkdir", "find", "tar", "ssh", "printf", "rclone", "set"} !! RESERVED
  {}

  lemma DfRuns(path: string)
    ensures Runs(Plain(["df", "-B1"]) + [Quoted(path)], "df -B1 " + Quote(path), ["df", "-B1"] + [path])
  {
    var items := Plain(["df", "-B1"]) + [Quoted(path)];
    TwoPlain("df", "-B1");
    PlainThenQuoted(["df", "-B1"], "df" + " " + "-B1", path);
    assert "df" + " " + "-B1" + " " == "df -B1 ";
    Unreserved();
    SpelledRuns("df", items, "df -B1 " + Quote(path), ["df", "-B1"] + [path]);
  }

  lemma AwkRuns(program: string)
    ensures Runs(Plain(["awk"]) + [Quoted(program)], "awk " + Quote(program), ["awk"] + [program])
  {
    var items := Plain(["awk"]) + [Quoted(program)];
    SpellsPlain(["awk"]);
    PlainThenQuoted(["awk"], "awk", program);
    assert "awk" + " " == "awk ";
    Unreserved();
    SpelledRuns("awk", items, "awk " + Quote(program), ["awk"] + [program]);
  }

  lemma UsedSpelled(a: string, b: string)
    ensures "df -B1 " + a + " | " + ("awk " + b) == "df -B1 " + a + " | awk " + b
  {
    assert " | " + "awk " == " | awk ";
  }

  lemma TwoStageParsed(c: seq<Item>, tc: string, x: seq<string>, d: seq<Item>, td: string, y: seq<string>)
    requires Runs(c, tc, x) && Runs(d, td, y)
    ensures Parse(tc + " | " + td).Some?
    ensures var t := Parse(tc + " | " + td).value;
            |t| == 1 && |t[0]| == 1 && |t[0][0]| == 2 && Is(t[0][0][0], x) && Is(t[0][0][1], y)
  {
    PipeList(c, d);
    OneListRead([[c, d]]);
  }

  lemma UsedMeasures(path: string)
    ensures Measures(UsedText(path), path)
  {
    var df, awk := Plain(["df", "-B1"]) + [Quoted(path)], Plain(["awk"]) + [Quoted(AWK_USED)];
    DfRuns(path);
    AwkRuns(AWK_USED);
    TwoStageParsed(df, "df -B1 " + Quote(path), ["df", "-B1"] + [path], awk, "awk " + Quote(AWK_USED),
                   ["awk"] + [AWK_USED]);
    AwkQuoted();
    UsedSpelled(Quote(path), Quote(AWK_USED));
  }

  // ---- preparing the destination

  function PreparePath(path: string, clean: bool): string {
    MkdirText(path) + " && " + (if clean then CleanCmd(path) + " && " else "")
  }

  function PrepareSource(path: string, clean: bool): seq<seq<seq<Item>>> {
    [[MkdirItems(path)]] + (if clean then [[CleanItems(path)]] else [])
  }

  /** How many pipelines guard what follows. */
  function Guards(clean: bool): nat { if clean then 2 else 1 }

  /** An and-list that makes the directory, empties it when asked, and only
      then goes on to one more pipeline. */
  predicate Prepares(a: AndList, path: string, clean: bool) {
    |a| == Guards(clean) + 1 && |a[0]| == 1 && Is(a[0][0], MkdirArgs(path)) &&
    (clean ==> |a[1]| == 1 && Is(a[1][0], CleanArgs(path)))
  }

  lemma MkdirRuns(path: string)
    ensures Runs(MkdirItems(path), MkdirText(path), MkdirArgs(path))
  {
    MkdirSpelled(path);
    Unreserved();
    SpelledRuns("mkdir", MkdirItems(path), MkdirText(path), MkdirArgs(path));
  }

  lemma CleanRuns(path: string)
    ensures Runs(CleanItems(path), CleanCmd(path), CleanArgs(path))
  {
    CleanSpelled(path);
    Unreserved();
    assert CleanItems(path)[0] == Plain(["find"])[0];
    SpelledRuns("find", CleanItems(path), CleanCmd(path), CleanArgs(path));
  }

  /** The prefix preparePath writes, in front of any pipeline. */
  lemma PrepareReads(path: string, clean: bool, last: seq<seq<Item>>)
    requires ValidPipeline(last)
    ensures var a := PrepareSource(path, clean) + [last];
            ValidAnd(a) && AndText(a) == PreparePath(path, clean) + PipelineText(last) &&
            Prepares(AndTree(a), path, clean) && AndTree(a)[Guards(clean)] == PipelineTree(last)
  {
    if clean {
      PrepareCleanReads(path, last);
    } else {
      PrepareMkdirReads(path, last);
    }
  }

  lemma PrepareCleanReads(path: string, last: seq<seq<Item>>)
    requires ValidPipeline(last)
    ensures var a := PrepareSource(path, true) + [last];
            ValidAnd(a) && AndText(a) == PreparePath(path, true) + PipelineText(last) &&
            Prepares(AndTree(a), path, true) && AndTree(a)[2] == PipelineTree(last)
  {
    var a := PrepareSource(path, true) + [last];
    CleanSource(path, last);
    MkdirRuns(path);
    CleanRuns(path);
    CleanReads(MkdirItems(path), MkdirText(path), MkdirArgs(path), CleanItems(path), CleanCmd(path), CleanArgs(path),
               last, a);
    CleanPrepared(AndTree(a), path);
  }

  lemma CleanSource(path: string, last: seq<seq<Item>>)
    ensures PrepareSource(path, true) + [last] == [[MkdirItems(path)]] + ([[CleanItems(path)]] + [last])
    ensures PreparePath(path, true) == MkdirText(path) + " && " + (CleanCmd(path) + " && ")
  {}

  lemma CleanPrepared(t: AndList, path: string)
    requires |t| == 3 && |t[0]| == 1 && Is(t[0][0], MkdirArgs(path)) && |t[1]| == 1 && Is(t[1][0], CleanArgs(path))
    ensures Prepares(t, path, true)
  {}

  lemma PrepareMkdirReads(path: string, last: seq<seq<Item>>)
    requires ValidPipeline(last)
    ensures var a := PrepareSource(path, false) + [last];
            ValidAnd(a) && AndText(a) == PreparePath(path, false) + PipelineText(last) &&
            Prepares(AndTree(a), path, false) && AndTree(a)[1] == PipelineTree(last)
  {
    MkdirRuns(path);
    OneStage(MkdirItems(path));
    OneGuard([MkdirItems(path)], last);
    assert PrepareSource(path, false) + [last] == [[MkdirItems(path)]] + [last];
    assert PreparePath(path, false) == MkdirText(path) + " && ";
  }

  lemma CleanReads(mkdir: seq<Item>, mt: string, ma: seq<string>, find: seq<Item>, ft: string, fa: seq<string>,
                   last: seq<seq<Item>>, a: seq<seq<seq<Item>>>)
    requires Runs(mkdir, mt, ma) && Runs(find, ft, fa) && ValidPipeline(last) && a == [[mkdir]] + ([[find]] + [last])
    ensures ValidAnd(a) && AndText(a) == mt + " && " + (ft + " && ") + PipelineText(last)
    ensures var t := AndTree(a);
            |t| == 3 && |t[0]| == 1 && Is(t[0][0], ma) && |t[1]| == 1 && Is(t[1][0], fa) && t[2] == PipelineTree(last)
  {
    OneStage(mkdir);
    OneStage(find);
    TwoGuards([mkdir], [find], last);
    Chain(mt, ft, PipelineText(last));
  }

  lemma OneGuard(first: seq<seq<Item>>, last: seq<seq<Item>>)
    requires ValidPipeline(first) && ValidPipeline(last)
    ensures var a := [first] + [last];
            ValidAnd(a) && AndText(a) == PipelineText(first) + " && " + PipelineText(last) &&
            AndTree(a) == [PipelineTree(first)] + [PipelineTree(last)]
  {
    OnePipeline(last);
    GuardedPipeline(first, [last]);
  }

  lemma TwoGuards(first: seq<seq<Item>>, second: seq<seq<Item>>, last: seq<seq<Item>>)
    requires ValidPipeline(first) && ValidPipeline(second) && ValidPipeline(last)
    ensures var a := [first] + ([second] + [last]);
            ValidAnd(a) && AndText(a) == PipelineText(first) + " && " +
            (PipelineText(second) + " && " + PipelineText(last)) &&
            AndTree(a) == [PipelineTree(first)] + ([PipelineTree(second)] + [PipelineTree(last)])
  {
    OneGuard(second, last);
    GuardedPipeline(first, [second] + [last]);
  }

  lemma Chain(a: string, b: string, c: string)
    ensures a + " && " + (b + " && " + c) == a + " && " + (b + " && ") + c
  {}

  /** Any tar command with valid last arguments. */
  lemma TarCommandRuns(start: seq<string>, st: string, program: string, end: seq<Item>, et: string, ea: seq<string>)
    requires Spells(Plain(start), st, start) && Spells(end, et, ea) && start != [] && start[0] == "tar"
    ensures Runs(TarItems(start, program, end), TarText(st, program, et), TarArgs(start, program, ea))
  {
    TarSpelled(start, st, program, end, et, ea);
    Unreserved();
    assert TarItems(start, program, end)[0] == Plain(start)[0];
    SpelledRuns("tar", TarItems(start, program, end), TarText(st, program, et), TarArgs(start, program, ea));
  }

  // ---- on one line

  lemma QuotedFits(before: string, value: string, behind: string)
    requires SingleLine(before) && SingleLine(value) && SingleLine(behind)
    ensures SingleLine(before + Quote(value) + behind)
  {
    QuoteKeepsSingleLine(value);
    OneLine.Three(before, Quote(value), behind);
  }

  lemma MkdirFits(path: string)
    requires SingleLine(path)
    ensures SingleLine(MkdirText(path))
  {
    QuotedFits("mkdir -p ", path, "");
    assert MkdirText(path) + "" == MkdirText(path);
  }

  lemma CleanFits(path: string)
    requires SingleLine(path)
    ensures SingleLine(CleanCmd(path))
  {
    var kept := GoPath.Join(path, "lost+found");
    CleanLiteralsFit();
    OneLine.JoinedFits(path, "lost+found");
    OneLine.Both(kept, "/*");
    ThreeQuotedFit("find ", path, " -mindepth 1 -not -path ", kept, " -not -path ", kept + "/*", " -delete");
  }

  lemma CleanLiteralsFit()
    ensures SingleLine("find ") && SingleLine(" -mindepth 1 -not -path ") && SingleLine(" -not -path ")
    ensures SingleLine(" -delete") && SingleLine("lost+found") && SingleLine("/*")
  {}

  lemma ThreeQuotedFit(a: string, x: string, b: string, y: string, c: string, z: string, d: string)
    requires SingleLine(a) && SingleLine(b) && SingleLine(c) && SingleLine(d)
    requires SingleLine(x) && SingleLine(y) && SingleLine(z)
    ensures SingleLine(a + Quote(x) + b + Quote(y) + c + Quote(z) + d)
  {
    QuotedFits(a, x, b);
    QuotedFits(a + Quote(x) + b, y, c);
    QuotedFits(a + Quote(x) + b + Quote(y) + c, z, d);
  }

  lemma PreparationFits(path: string, clean: bool)
    requires SingleLine(path)
    ensures SingleLine(PreparePath(path, clean))
  {
    MkdirFits(path);
    CleanFits(path);
    PreparedFits(MkdirText(path), CleanCmd(path));
  }

  lemma PreparedFits(mkdir: string, clean: string)
    requires SingleLine(mkdir) && SingleLine(clean)
    ensures SingleLine(mkdir + " && " + (clean + " && ")) && SingleLine(mkdir + " && " + "")
  {
    OneLine.Both(clean, " && ");
    OneLine.Three(mkdir, " && ", clean + " && ");
    OneLine.Three(mkdir, " && ", "");
  }

  lemma UsedFits(path: string)
    requires SingleLine(path)
    ensures SingleLine(UsedText(path))
  {
    UsedLiteralsFit();
    PipedFits("df -B1 ", path, " | awk ", "'", AWK_USED);
  }

  lemma UsedLiteralsFit()
    ensures SingleLine("df -B1 ") && SingleLine(" | awk ") && SingleLine("'") && SingleLine(AWK_USED)
  {}

  lemma PipedFits(a: string, path: string, b: string, mark: string, program: string)
    requires SingleLine(a) && SingleLine(path) && SingleLine(b) && SingleLine(mark) && SingleLine(program)
    ensures SingleLine(a + Quote(path) + b + (mark + program + mark))
  {
    QuotedFits(a, path, b);
    OneLine.Three(mark, program, mark);
    OneLine.Both(a + Quote(path) + b, mark + program + mark);
  }

  lemma ProgramFits(compression: string, level: int)
    requires CompressProgram(compression, level).Ok?
    ensures SingleLine(CompressProgram(compression, level).value)
    ensures SingleLine(CompressProgram(compression, level).value + " --progress")
    ensures SingleLine(DecompressProgram(compression))
  {
    NamesFit();
    LevelFits("zstd -T4 -", if level == 0 then 3 else level);
    LevelFits("pigz -p 4 -", if level == 0 then 6 else level);
    OneLine.Both(CompressProgram(compression, level).value, " --progress");
  }

  lemma NamesFit()
    ensures SingleLine("zstd -T4 -") && SingleLine("pigz -p 4 -") && SingleLine(" --progress")
    ensures SingleLine("zstd") && SingleLine("pigz -p 4") && SingleLine("")
  {}

  lemma LevelFits(program: string, level: int)
    requires SingleLine(program)
    ensures SingleLine(program + Itoa(level))
  {
    OneLine.NumberFits(level);
    OneLine.Both(program, Itoa(level));
  }

  lemma TarFits(start: string, program: string, end: string)
    requires SingleLine(start) && SingleLine(program) && SingleLine(end)
    ensures SingleLine(TarText(start, program, end))
  {
    QuotedFits(" -I ", program, "");
    assert " -I " + Quote(program) + "" == " -I " + Quote(program);
    var named := if program == "" then "" else " -I " + Quote(program);
    OneLine.Both(start, named);
    OneLine.Three(start + named, " ", end);
  }

  lemma StartsFit()
    ensures SingleLine(TAR_CREATE_TEXT) && SingleLine(TAR_EXTRACT_TEXT)
  {
    FlagsFit();
    OneLine.Five("tar -c ", "--numeric-owner ", "--xattrs ", "--sparse ", LOST_FOUND_EXCLUDE);
    OneLine.Three("tar -x " + "--numeric-owner ", "--xattrs ", LOST_FOUND_EXCLUDE);
    OneLine.Both("tar -x ", "--numeric-owner ");
  }

  lemma FlagsFit()
    ensures SingleLine("tar -c ") && SingleLine("tar -x ") && SingleLine("--numeric-owner ")
    ensures SingleLine("--xattrs ") && SingleLine("--sparse ") && SingleLine(LOST_FOUND_EXCLUDE)
  {}
}
