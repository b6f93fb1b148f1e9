/** internal/archive/cmd.go, Cmd: an archive file written or read by tar. */
module ArchiveCommand {
  import opened Outcome
  import opened ShellQuote
  import opened ShellLexer
  import opened ShellSyntax
  import opened ShellReading
  import opened ShellExec
  import opened ArchiveWords
  import opened ArchiveNames
  import opened ArchiveParts
  import opened TransferCommand
  import GoPath
  import OneLine

  datatype Cmd = Cmd(
    direction: string, archivePath: string, dataPath: string, compression: string, level: int, clean: bool
  ) {
    predicate Accepted() {
      archivePath != "" && SingleLine(archivePath) && dataPath != "" && SingleLine(dataPath) &&
      CompressProgram(compression, level).Ok? && (direction == BACKUP || direction == RESTORE)
    }

    function FileArgs(): seq<string> { (["-f"] + [archivePath]) + (["-C"] + [dataPath]) }

    function BackupArgs(): seq<string>
      requires CompressProgram(compression, level).Ok?
    {
      TarArgs(TAR_CREATE, CompressProgram(compression, level).value, FileArgs() + ["."])
    }

    function RestoreArgs(): seq<string> { TarArgs(TAR_EXTRACT, "", FileArgs()) }

    /** tar runs only once the directory of the archive, or the volume's own
        directory, has been made and, when asked, emptied. */
    predicate IsBuiltAs(t: Tree)
      requires Accepted()
    {
      |t| == 1 &&
      if direction == BACKUP then
        Prepares(t[0], GoPath.Dir(archivePath), false) && |t[0][1]| == 1 && Is(t[0][1][0], BackupArgs())
      else
        Prepares(t[0], dataPath, clean) && |t[0][Guards(clean)]| == 1 && Is(t[0][Guards(clean)][0], RestoreArgs())
    }

    /** A POSIX shell reads the text as this command's tree. */
    predicate IsReadOf(text: string)
      requires Accepted()
    {
      match Parse(text)
      case None => false
      case Some(t) => IsBuiltAs(t)
    }
  }

  function FileText(c: Cmd): string { "-f " + Quote(c.archivePath) + " -C " + Quote(c.dataPath) }

  function FileItems(c: Cmd): seq<Item> {
    (Plain(["-f"]) + [Quoted(c.archivePath)]) + (Plain(["-C"]) + [Quoted(c.dataPath)])
  }

  lemma FileSpelled(c: Cmd)
    ensures Spells(FileItems(c), FileText(c), c.FileArgs())
  {
    SpellsPlain(["-f"]);
    SpellsPlain(["-C"]);
    PlainThenQuoted(["-f"], "-f", c.archivePath);
    PlainThenQuoted(["-C"], "-C", c.dataPath);
    SpellsBoth(Plain(["-f"]) + [Quoted(c.archivePath)], "-f" + " " + Quote(c.archivePath), ["-f"] + [c.archivePath],
               Plain(["-C"]) + [Quoted(c.dataPath)], "-C" + " " + Quote(c.dataPath), ["-C"] + [c.dataPath]);
    FileGlued(Quote(c.archivePath), Quote(c.dataPath));
  }

  lemma FileGlued(a: string, d: string)
    ensures "-f" + " " + a + " " + ("-C" + " " + d) == "-f " + a + " -C " + d
  {
    assert "-f" + " " == "-f " && " " + "-C" + " " == " -C ";
  }

  /** A prepare prefix and a tar behind it. */
  lemma PreparedTarRead(path: string, clean: bool, tar: seq<Item>, tt: string, argv: seq<string>)
    requires Runs(tar, tt, argv)
    ensures match Parse(PreparePath(path, clean) + tt)
            case None => false
            case Some(t) =>
              |t| == 1 && Prepares(t[0], path, clean) && |t[0][Guards(clean)]| == 1 && Is(t[0][Guards(clean)][0], argv)
  {
    OneStage(tar);
    PrepareReads(path, clean, [tar]);
    OneListRead(PrepareSource(path, clean) + [[tar]]);
  }

  lemma BackupRead(c: Cmd)
    requires c.Accepted() && c.direction == BACKUP
    ensures var program := CompressProgram(c.compression, c.level).value;
            var text := PreparePath(GoPath.Dir(c.archivePath), false) +
              TarText(TAR_CREATE_TEXT, program, FileText(c) + " .");
            c.IsReadOf(text)
  {
    var program := CompressProgram(c.compression, c.level).value;
    var end := FileItems(c) + Plain(["."]);
    EndSpelled(c);
    TarTexts();
    TarCommandRuns(TAR_CREATE, TAR_CREATE_TEXT, program, end, FileText(c) + " .", c.FileArgs() + ["."]);
    PreparedTarRead(GoPath.Dir(c.archivePath), false, TarItems(TAR_CREATE, program, end),
                    TarText(TAR_CREATE_TEXT, program, FileText(c) + " ."), c.BackupArgs());
  }

  lemma EndSpelled(c: Cmd)
    ensures Spells(FileItems(c) + Plain(["."]), FileText(c) + " .", c.FileArgs() + ["."])
  {
    FileSpelled(c);
    assert AllPlain(".");
    SpellsPlain(["."]);
    SpellsBoth(FileItems(c), FileText(c), c.FileArgs(), Plain(["."]), ".", ["."]);
    assert FileText(c) + " " + "." == FileText(c) + " .";
  }

  lemma RestoreRead(c: Cmd)
    requires c.Accepted() && c.direction == RESTORE
    ensures var text := PreparePath(c.dataPath, c.clean) + TarText(TAR_EXTRACT_TEXT, "", FileText(c));
            c.IsReadOf(text)
  {
    FileSpelled(c);
    TarTexts();
    TarCommandRuns(TAR_EXTRACT, TAR_EXTRACT_TEXT, "", FileItems(c), FileText(c), c.FileArgs());
    PreparedTarRead(c.dataPath, c.clean, TarItems(TAR_EXTRACT, "", FileItems(c)),
                    TarText(TAR_EXTRACT_TEXT, "", FileText(c)), c.RestoreArgs());
  }

  method Build(c: Cmd) returns (r: Outcome.Result<string, BuildError>)
    ensures r.Ok? <==> c.Accepted()
    ensures r.Ok? ==> c.IsReadOf(r.value) && SingleLine(r.value)
  {
    var fields := [c.archivePath, c.dataPath];
    var checked := CheckFields(fields);
    assert fields[0] == c.archivePath && fields[1] == c.dataPath;
    if checked.Err? {
      return Err(checked.error);
    }
    var compressor := CompressProgram(c.compression, c.level);
    if compressor.Err? {
      return Err(compressor.error);
    }
    var program := compressor.value;
    var builder := "";
    if c.direction == BACKUP {
      builder := builder + "mkdir -p " + Quote(GoPath.Dir(c.archivePath)) + " && ";
      builder := builder + TAR_CREATE_TEXT;
    } else if c.direction == RESTORE {
      builder := builder + "mkdir -p " + Quote(c.dataPath) + " && ";
      if c.clean {
        builder := builder + CleanCmd(c.dataPath) + " && ";
      }
      builder := builder + TAR_EXTRACT_TEXT;
    } else {
      return Err(BadDirection);
    }
    ghost var front := builder;
    if program != "" && c.direction == BACKUP {
      builder := builder + " -I " + Quote(program);
    }
    builder := builder + " -f " + Quote(c.archivePath) + " -C " + Quote(c.dataPath);
    if c.direction == BACKUP {
      builder := builder + " .";
      BackupBuilt(c, program, front, builder);
    } else {
      RestoreBuilt(c, front, builder);
    }
    return Ok(builder);
  }

  /** The pieces a backup is built from are the text that is read. */
  lemma BackupBuilt(c: Cmd, program: string, front: string, text: string)
    requires c.Accepted() && c.direction == BACKUP && program == CompressProgram(c.compression, c.level).value
    requires front == "" + "mkdir -p " + Quote(GoPath.Dir(c.archivePath)) + " && " + TAR_CREATE_TEXT
    requires text == (if program == "" then front else front + " -I " + Quote(program)) +
                     " -f " + Quote(c.archivePath) + " -C " + Quote(c.dataPath) + " ."
    ensures c.IsReadOf(text) && SingleLine(text)
  {
    BackupFits(c, program);
    var prefix := PreparePath(GoPath.Dir(c.archivePath), false);
    MkdirPrefix(GoPath.Dir(c.archivePath));
    Assembled(prefix, TAR_CREATE_TEXT, program, Quote(c.archivePath), Quote(c.dataPath), " .");
    BackupRead(c);
  }

  lemma RestoreBuilt(c: Cmd, front: string, text: string)
    requires c.Accepted() && c.direction == RESTORE
    requires front == (if c.clean then "" + "mkdir -p " + Quote(c.dataPath) + " && " + CleanCmd(c.dataPath) + " && "
                       else "" + "mkdir -p " + Quote(c.dataPath) + " && ") + TAR_EXTRACT_TEXT
    requires text == front + " -f " + Quote(c.archivePath) + " -C " + Quote(c.dataPath)
    ensures c.IsReadOf(text) && SingleLine(text)
  {
    RestoreFits(c);
    if c.clean {
      CleanPrefix(c.dataPath);
    } else {
      MkdirPrefix(c.dataPath);
    }
    RestoreAssembled(PreparePath(c.dataPath, c.clean), Quote(c.archivePath), Quote(c.dataPath));
    RestoreRead(c);
  }

  lemma FilesFit(c: Cmd)
    requires c.Accepted()
    ensures SingleLine(FileText(c)) && SingleLine(FileText(c) + " .")
  {
    QuotedFits("-f ", c.archivePath, " -C ");
    QuotedFits("-f " + Quote(c.archivePath) + " -C ", c.dataPath, "");
    Ended(FileText(c));
    OneLine.Both(FileText(c), " .");
  }

  lemma BackupFits(c: Cmd, program: string)
    requires c.Accepted() && program == CompressProgram(c.compression, c.level).value
    ensures SingleLine(PreparePath(GoPath.Dir(c.archivePath), false) +
                       TarText(TAR_CREATE_TEXT, program, FileText(c) + " ."))
  {
    var dir := GoPath.Dir(c.archivePath);
    OneLine.DirFits(c.archivePath);
    PreparationFits(dir, false);
    FilesFit(c);
    StartsFit();
    ProgramFits(c.compression, c.level);
    TarFits(TAR_CREATE_TEXT, program, FileText(c) + " .");
    OneLine.Both(PreparePath(dir, false), TarText(TAR_CREATE_TEXT, program, FileText(c) + " ."));
  }

  lemma RestoreFits(c: Cmd)
    requires c.Accepted()
    ensures SingleLine(PreparePath(c.dataPath, c.clean) + TarText(TAR_EXTRACT_TEXT, "", FileText(c)))
  {
    PreparationFits(c.dataPath, c.clean);
    FilesFit(c);
    StartsFit();
    TarFits(TAR_EXTRACT_TEXT, "", FileText(c));
    OneLine.Both(PreparePath(c.dataPath, c.clean), TarText(TAR_EXTRACT_TEXT, "", FileText(c)));
  }

  lemma RestoreAssembled(prefix: string, f: string, d: string)
    ensures prefix + TAR_EXTRACT_TEXT + " -f " + f + " -C " + d ==
            prefix + TarText(TAR_EXTRACT_TEXT, "", "-f " + f + " -C " + d)
  {
    Assembled(prefix, TAR_EXTRACT_TEXT, "", f, d, "");
    Ended(prefix + TAR_EXTRACT_TEXT + " -f " + f + " -C " + d);
    Ended("-f " + f + " -C " + d);
  }

  lemma Ended(text: string)
    ensures text + "" == text
  {}

  lemma MkdirPrefix(path: string)
    ensures "" + "mkdir -p " + Quote(path) + " && " == PreparePath(path, false)
  {
    Prefixed("mkdir -p ", Quote(path), " && ");
  }

  lemma CleanPrefix(path: string)
    ensures "" + "mkdir -p " + Quote(path) + " && " + CleanCmd(path) + " && " == PreparePath(path, true)
  {
    Prefixed("mkdir -p ", Quote(path), " && ");
    CleanPrefixed("mkdir -p " + Quote(path), " && ", CleanCmd(path));
  }

  lemma Prefixed(m: string, q: string, and_: string)
    ensures "" + m + q + and_ == (m + q) + and_ + "" == (m + q) + and_
  {}

  lemma CleanPrefixed(m: string, and_: string, clean: string)
    ensures m + and_ + clean + and_ == m + and_ + (clean + and_)
  {}

  /** Behind a prefix: the tar, its program if any, the archive, the directory,
      and what comes last. */
  lemma Assembled(prefix: string, tar: string, program: string, f: string, d: string, last: string)
    ensures (if program == "" then prefix + tar else prefix + tar + " -I " + Quote(program)) +
            " -f " + f + " -C " + d + last ==
            prefix + TarText(tar, program, "-f " + f + " -C " + d + last)
  {
    assert " " + "-f " == " -f ";
    if program == "" {
      Grouped(prefix, tar, "", "", " ", "-f ", f, " -C ", d, last);
      assert tar + "" + "" == tar + "" == tar;
    } else {
      Grouped(prefix, tar, " -I ", Quote(program), " ", "-f ", f, " -C ", d, last);
    }
  }

  lemma Grouped(p: string, tar: string, i: string, q: string, space: string, flag: string, f: string, dir: string,
                d: string, last: string)
    ensures p + tar + i + q + (space + flag) + f + dir + d + last ==
            p + (tar + (i + q) + space + (flag + f + dir + d + last))
    ensures i == "" && q == "" ==> p + tar + i + q == p + tar && i + q == ""
  {}
}
