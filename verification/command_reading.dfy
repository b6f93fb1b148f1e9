/** What the programs in the built commands are told to do: the arguments a shell
    reads out of them (internal/archive/cmd.go, internal/archive/transfer.go) are
    read once more, as tar, its compressor, ssh and rclone read theirs. */
module CommandReading {
  import opened ArchiveNames
  import opened ArchiveParts
  import opened ArchiveWords
  import opened Decimal
  import opened Outcome
  import opened ShellExec
  import opened ShellLexer
  import opened ShellSyntax
  import opened Text
  import A = ArchiveCommand
  import ArchiveTarget
  import Arithmetic = ShellArithmetic
  import Find = FindClean
  import S = StreamCommand
  import T = TransferCommand

  // ---- compressors

  datatype Format = Uncompressed | Zstd | Gzip

  /** A compressor to run, and the level it was given. */
  datatype Compressor = Compressor(format: Format, level: Option<int>, progress: bool)

  /** tar splits the program it is told to run at its spaces. */
  function ProgramWords(program: string): (words: seq<string>)
    ensures words != []
    decreases |program|
  {
    match Cut(program, " ")
    case None => [program]
    case Some((first, rest)) =>
      CutSplits(program, " ");
      [first] + ProgramWords(rest)
  }

  predicate IsLevel(word: string, maximum: nat) {
    |word| > 1 && word[0] == '-' && AllDigits(word[1..]) && 1 <= DigitsValue(word[1..]) <= maximum
  }

  function ReadZstd(words: seq<string>, c: Compressor): Option<Compressor>
    decreases |words|
  {
    if words == [] then Some(c)
    else if words[0] == "--progress" then ReadZstd(words[1..], c.(progress := true))
    else if HasPrefix(words[0], "-T") && AllDigits(words[0][2..]) then ReadZstd(words[1..], c)
    else if IsLevel(words[0], 19) then ReadZstd(words[1..], c.(level := Some(DigitsValue(words[0][1..]))))
    else None
  }

  function ReadPigz(words: seq<string>, c: Compressor): Option<Compressor>
    decreases |words|
  {
    if words == [] then Some(c)
    else if words[0] == "-p" then
      if |words| > 1 && AllDigits(words[1]) then ReadPigz(words[2..], c) else None
    else if IsLevel(words[0], 9) then ReadPigz(words[1..], c.(level := Some(DigitsValue(words[0][1..]))))
    else None
  }

  function ReadCompressor(program: string): Option<Compressor> {
    var words := ProgramWords(program);
    if words[0] == "zstd" then ReadZstd(words[1..], Compressor(Zstd, None, false))
    else if words[0] == "pigz" then ReadPigz(words[1..], Compressor(Gzip, None, false))
    else None
  }

  // ---- tar

  datatype Mode = Creates | Extracts

  datatype Job = Job(
    mode: Option<Mode>, numericOwner: bool, xattrs: bool, sparse: bool, excludes: seq<string>,
    compressor: Option<Compressor>, file: Option<string>, directory: Option<string>, members: seq<string>
  )

  const IDLE := Job(None, false, false, false, [], None, None, None, [])

  const EXCLUDE := "--exclude="

  predicate IsOption(arg: string) { |arg| > 1 && arg[0] == '-' }

  /** An argument that stands by itself: an option tar has, or a member. */
  function WithArgument(job: Job, arg: string): Option<Job> {
    if arg == "-c" then Some(job.(mode := Some(Creates)))
    else if arg == "-x" then Some(job.(mode := Some(Extracts)))
    else if arg == "--numeric-owner" then Some(job.(numericOwner := true))
    else if arg == "--xattrs" then Some(job.(xattrs := true))
    else if arg == "--sparse" then Some(job.(sparse := true))
    else if HasPrefix(arg, EXCLUDE) then Some(job.(excludes := job.excludes + [arg[|EXCLUDE|..]]))
    else if IsOption(arg) then None
    else Some(job.(members := job.members + [arg]))
  }

  predicate TakesValue(arg: string) { arg == "-I" || arg == "-f" || arg == "-C" }

  function WithValue(job: Job, option: string, value: string): Option<Job>
    requires TakesValue(option)
  {
    if option == "-f" then Some(job.(file := Some(value)))
    else if option == "-C" then Some(job.(directory := Some(value)))
    else
      match ReadCompressor(value)
      case None => None
      case Some(c) => Some(job.(compressor := Some(c)))
  }

  function ReadFrom(args: seq<string>, job: Job): Option<Job>
    decreases |args|
  {
    if args == [] then Some(job)
    else if TakesValue(args[0]) then
      if |args| < 2 then None
      else
        match WithValue(job, args[0], args[1])
        case None => None
        case Some(next) => ReadFrom(args[2..], next)
    else
      match WithArgument(job, args[0])
      case None => None
      case Some(next) => ReadFrom(args[1..], next)
  }

  function ReadTar(argv: seq<string>): Option<Job> {
    if argv == [] || argv[0] != "tar" then None else ReadFrom(argv[1..], IDLE)
  }

  function Writes(job: Job): Format { if job.compressor.None? then Uncompressed else job.compressor.value.format }

  /** A tar that is told no compressor finds out from the file, which it cannot
      from a pipe. */
  predicate CanRead(job: Job, format: Format) {
    if job.compressor.Some? then job.compressor.value.format == format
    else format.Uncompressed? || job.file != Some("-")
  }

  // ---- reading the compressors

  lemma WordAlone(word: string)
    requires ' ' !in word
    ensures ProgramWords(word) == [word]
  {
    NoSpace(word);
    CutIsFirst(word, " ", "", "");
  }

  lemma NoSpace(word: string)
    requires ' ' !in word
    ensures !Contains(word, " ")
  {
    forall i: nat | i <= |word| ensures !At(word, " ", i) {
      if At(word, " ", i) {
        AtChar(word, " ", i, i);
      }
    }
  }

  lemma WordThen(word: string, rest: string)
    requires ' ' !in word
    ensures ProgramWords(word + " " + rest) == [word] + ProgramWords(rest)
  {
    NoSpace(word);
    CutFirst(word, " ", rest);
  }

  lemma LevelIsRead(level: nat)
    ensures ' ' !in "-" + Itoa(level) && ("-" + Itoa(level))[1..] == Digits(level) && AllDigits(Digits(level))
    ensures DigitsValue(Digits(level)) == level
    ensures !HasPrefix("-" + Itoa(level), "-T") && "-" + Itoa(level) != "--progress" && "-" + Itoa(level) != "-p"
  {
    DigitsReadBack(level);
    var word := "-" + Itoa(level);
    assert word[1] == Digits(level)[0] && word[..2][1] == word[1] && "-T"[1] == 'T';
  }

  lemma ZstdWords(level: nat, more: seq<string>, c: Compressor)
    requires 1 <= level <= 19
    ensures ReadZstd(["-T4"] + (["-" + Itoa(level)] + more), c) == ReadZstd(more, c.(level := Some(level)))
  {
    LevelIsRead(level);
    var tail := ["-" + Itoa(level)] + more;
    assert (["-T4"] + tail)[1..] == tail && tail[1..] == more;
    assert "-T4"[..2] == "-T" && "-T4"[2..] == "4" && "-T4" != "--progress";
    assert tail[0] == "-" + Itoa(level) && IsLevel(tail[0], 19);
  }

  lemma PigzWords(level: nat, more: seq<string>, c: Compressor)
    requires 1 <= level <= 9
    ensures ReadPigz(["-p"] + (["4"] + (["-" + Itoa(level)] + more)), c) == ReadPigz(more, c.(level := Some(level)))
  {
    LevelIsRead(level);
    var tail := ["-" + Itoa(level)] + more;
    assert (["-p"] + (["4"] + tail))[2..] == tail && tail[1..] == more;
    assert tail[0] == "-" + Itoa(level) && IsLevel(tail[0], 9);
  }

  /** zstd at a level, without and with its counter. */
  lemma ZstdIsRead(level: nat)
    requires 1 <= level <= 19
    ensures ReadCompressor("zstd -T4 -" + Itoa(level)) == Some(Compressor(Zstd, Some(level), false))
  {
    var word := "-" + Itoa(level);
    LevelIsRead(level);
    ZstdSpelled(Itoa(level));
    WordAlone(word);
    ZstdThen(word);
    ZstdWords(level, [], Compressor(Zstd, None, false));
    assert [word] + [] == [word];
  }

  lemma ZstdCounts(level: nat)
    requires 1 <= level <= 19
    ensures ReadCompressor("zstd -T4 -" + Itoa(level) + " --progress") == Some(Compressor(Zstd, Some(level), true))
  {
    var word := "-" + Itoa(level);
    LevelIsRead(level);
    ZstdSpelled(Itoa(level));
    WordThen(word, "--progress");
    WordAlone("--progress");
    ZstdThen(word + " " + "--progress");
    ZstdWords(level, ["--progress"], Compressor(Zstd, None, false));
    assert ["--progress"][1..] == [];
  }

  lemma ZstdThen(rest: string)
    ensures ReadCompressor("zstd" + " " + ("-T4" + " " + rest)) ==
            ReadZstd(["-T4"] + ProgramWords(rest), Compressor(Zstd, None, false))
  {
    WordThen("zstd", "-T4" + " " + rest);
    WordThen("-T4", rest);
    var all := ["-T4"] + ProgramWords(rest);
    assert (["zstd"] + all)[1..] == all;
  }

  lemma ZstdSpelled(level: string)
    ensures "zstd -T4 -" + level == "zstd" + " " + ("-T4" + " " + ("-" + level))
    ensures "zstd -T4 -" + level + " --progress" == "zstd" + " " + ("-T4" + " " + (("-" + level) + " " + "--progress"))
  {
    assert "zstd" + " " + "-T4" + " " + "-" == "zstd -T4 -" && " " + "--progress" == " --progress";
  }

  lemma PigzIsRead(level: nat)
    requires 1 <= level <= 9
    ensures ReadCompressor("pigz -p 4 -" + Itoa(level)) == Some(Compressor(Gzip, Some(level), false))
  {
    var word := "-" + Itoa(level);
    LevelIsRead(level);
    assert "pigz" + " " + "-p" + " " + "4" + " " + "-" == "pigz -p 4 -";
    assert "pigz -p 4 -" + Itoa(level) == "pigz" + " " + ("-p" + " " + ("4" + " " + word));
    WordThen("pigz", "-p" + " " + ("4" + " " + word));
    WordThen("-p", "4" + " " + word);
    WordThen("4", word);
    WordAlone(word);
    PigzWords(level, [], Compressor(Gzip, None, false));
    var all := ["-p"] + (["4"] + [word]);
    assert [word] + [] == [word] && (["pigz"] + all)[1..] == all;
  }

  lemma ZstdAloneIsRead()
    ensures ReadCompressor("zstd") == Some(Compressor(Zstd, None, false))
  {
    WordAlone("zstd");
    assert ["zstd"][1..] == [];
  }

  lemma PigzAloneIsRead()
    ensures ReadCompressor("pigz -p 4") == Some(Compressor(Gzip, None, false))
  {
    assert "pigz" + " " + ("-p" + " " + "4") == "pigz -p 4";
    WordThen("pigz", "-p" + " " + "4");
    WordThen("-p", "4");
    WordAlone("4");
    var all := ["-p"] + ["4"];
    assert (["pigz"] + all)[1..] == all && all[2..] == [];
  }

  /** The names the user gives the formats. */
  function FormatNamed(compression: string): Format {
    if compression == "zstd" then Zstd else if compression == "gzip" then Gzip else Uncompressed
  }

  function DefaultLevel(format: Format): int { if format.Zstd? then 3 else 6 }

  /** A compressing program writes the format it is named for, at the level asked
      for or its default; only no compression is no program. */
  lemma CompressorIsNamed(compression: string, level: int)
    requires CompressProgram(compression, level).Ok?
    ensures var program := CompressProgram(compression, level).value; var format := FormatNamed(compression);
            var told := Some(if level == 0 then DefaultLevel(format) else level);
            && (program == "" <==> format.Uncompressed?)
            && (program != "" ==> ReadCompressor(program) == Some(Compressor(format, told, false)))
            && (format.Zstd? ==> ReadCompressor(program + " --progress") == Some(Compressor(format, told, true)))
  {
    if compression == ZSTD {
      ZstdIsRead(if level == 0 then 3 else level);
      ZstdCounts(if level == 0 then 3 else level);
    } else if compression == GZIP {
      PigzIsRead(if level == 0 then 6 else level);
    }
  }

  /** And a decompressing one reads the format it is named for. */
  lemma DecompressorIsNamed(compression: string)
    ensures var program := DecompressProgram(compression); var format := FormatNamed(compression);
            && (program == "" <==> format.Uncompressed?)
            && (program != "" ==> ReadCompressor(program) == Some(Compressor(format, None, false)))
  {
    ZstdAloneIsRead();
    PigzAloneIsRead();
  }

  // ---- reading the tars

  /** What both ends of a copy keep: owners by number, extended attributes, and
      everything but the file system's own lost+found. */
  predicate Keeps(job: Job) { job.numericOwner && job.xattrs && job.excludes == ["./" + "lost+found"] }

  /** A tar that writes the member of a directory, holes and all. */
  predicate WritesTree(job: Job, file: string, directory: string, member: string) {
    job.mode == Some(Creates) && Keeps(job) && job.sparse &&
    job.file == Some(file) && job.directory == Some(directory) && job.members == [member]
  }

  predicate ReadsTree(job: Job, file: string, directory: string) {
    job.mode == Some(Extracts) && Keeps(job) &&
    job.file == Some(file) && job.directory == Some(directory) && job.members == []
  }

  lemma NextArgument(job: Job, arg: string, rest: seq<string>, next: Job)
    requires !TakesValue(arg) && WithArgument(job, arg) == Some(next)
    ensures ReadFrom([arg] + rest, job) == ReadFrom(rest, next)
  {
    assert ([arg] + rest)[1..] == rest;
  }

  lemma NextValue(job: Job, option: string, value: string, rest: seq<string>, next: Job)
    requires TakesValue(option) && WithValue(job, option, value) == Some(next)
    ensures ReadFrom([option] + ([value] + rest), job) == ReadFrom(rest, next)
  {
    assert ([option] + ([value] + rest))[2..] == rest;
  }

  const KEEPING := IDLE.(numericOwner := true, xattrs := true, excludes := ["./" + "lost+found"])

  lemma ExcludeIsRead(job: Job)
    ensures !TakesValue(LOST_FOUND_EXCLUDE)
    ensures WithArgument(job, LOST_FOUND_EXCLUDE) == Some(job.(excludes := job.excludes + ["./" + "lost+found"]))
  {
    assert LOST_FOUND_EXCLUDE[..10] == EXCLUDE && LOST_FOUND_EXCLUDE[10..] == "./" + "lost+found";
    assert LOST_FOUND_EXCLUDE[2] == 'e' && "--numeric-owner"[2] == 'n' && "--xattrs"[2] == 'x' && "--sparse"[2] == 's';
  }

  lemma OwnersAndAttributes(job: Job, rest: seq<string>)
    ensures ReadFrom(["--numeric-owner"] + (["--xattrs"] + rest), job) ==
            ReadFrom(rest, job.(numericOwner := true, xattrs := true))
  {
    NextArgument(job, "--numeric-owner", ["--xattrs"] + rest, job.(numericOwner := true));
    NextArgument(job.(numericOwner := true), "--xattrs", rest, job.(numericOwner := true, xattrs := true));
  }

  lemma SparseExclude(job: Job, rest: seq<string>)
    requires job.excludes == []
    ensures ReadFrom(["--sparse"] + ([LOST_FOUND_EXCLUDE] + rest), job) ==
            ReadFrom(rest, job.(sparse := true, excludes := ["./" + "lost+found"]))
  {
    NextArgument(job, "--sparse", [LOST_FOUND_EXCLUDE] + rest, job.(sparse := true));
    LastExclude(job.(sparse := true), rest);
  }

  lemma LastExclude(job: Job, rest: seq<string>)
    requires job.excludes == []
    ensures ReadFrom([LOST_FOUND_EXCLUDE] + rest, job) == ReadFrom(rest, job.(excludes := ["./" + "lost+found"]))
  {
    ExcludeIsRead(job);
    assert [] + ["./" + "lost+found"] == ["./" + "lost+found"];
    NextArgument(job, LOST_FOUND_EXCLUDE, rest, job.(excludes := ["./" + "lost+found"]));
  }

  lemma FirstArguments(mode: string, last: seq<string>, job: Job)
    requires mode == "-c" || mode == "-x"
    requires job == IDLE.(mode := Some(if mode == "-c" then Creates else Extracts))
    ensures ReadTar(["tar"] + ([mode] + (["--numeric-owner"] + (["--xattrs"] + last)))) ==
            ReadFrom(last, job.(numericOwner := true, xattrs := true))
  {
    var rest := ["--numeric-owner"] + (["--xattrs"] + last);
    assert (["tar"] + ([mode] + rest))[1..] == [mode] + rest;
    NextArgument(IDLE, mode, rest, job);
    OwnersAndAttributes(job, last);
  }

  lemma CreateIsRead(rest: seq<string>)
    ensures ReadTar(TAR_CREATE + rest) == ReadFrom(rest, KEEPING.(mode := Some(Creates), sparse := true))
  {
    var last := ["--sparse"] + ([LOST_FOUND_EXCLUDE] + rest);
    var job := IDLE.(mode := Some(Creates));
    assert TAR_CREATE + rest == ["tar"] + (["-c"] + (["--numeric-owner"] + (["--xattrs"] + last)));
    FirstArguments("-c", last, job);
    SparseExclude(job.(numericOwner := true, xattrs := true), rest);
  }

  lemma ExtractIsRead(rest: seq<string>)
    ensures ReadTar(TAR_EXTRACT + rest) == ReadFrom(rest, KEEPING.(mode := Some(Extracts)))
  {
    var last := [LOST_FOUND_EXCLUDE] + rest;
    var job := IDLE.(mode := Some(Extracts));
    assert TAR_EXTRACT + rest == ["tar"] + (["-x"] + (["--numeric-owner"] + (["--xattrs"] + last)));
    FirstArguments("-x", last, job);
    LastExclude(job.(numericOwner := true, xattrs := true), rest);
  }

  /** The compressor, if there is one, and what comes after it. */
  lemma ProgramIsRead(program: string, end: seq<string>, job: Job, c: Option<Compressor>)
    requires if program == "" then c.None? else c.Some? && ReadCompressor(program) == c
    requires job.compressor.None?
    ensures ReadFrom((if program == "" then [] else ["-I"] + [program]) + end, job) ==
            ReadFrom(end, job.(compressor := c))
  {
    if program == "" {
      assert [] + end == end;
    } else {
      NextValue(job, "-I", program, end, job.(compressor := c));
      assert ["-I"] + [program] + end == ["-I"] + ([program] + end);
    }
  }

  lemma FileIsRead(file: string, directory: string, rest: seq<string>, job: Job)
    ensures ReadFrom((["-f"] + [file]) + (["-C"] + [directory]) + rest, job) ==
            ReadFrom(rest, job.(file := Some(file), directory := Some(directory)))
  {
    var next := job.(file := Some(file));
    assert (["-f"] + [file]) + (["-C"] + [directory]) + rest == ["-f"] + ([file] + (["-C"] + ([directory] + rest)));
    NextValue(job, "-f", file, ["-C"] + ([directory] + rest), next);
    NextValue(next, "-C", directory, rest, next.(directory := Some(directory)));
  }

  lemma ExcludeIsOption(arg: string)
    ensures HasPrefix(arg, EXCLUDE) ==> IsOption(arg)
  {
    assert |EXCLUDE| == 10 && EXCLUDE[0] == '-';
    assert HasPrefix(arg, EXCLUDE) ==> arg[0] == arg[..10][0];
  }

  /** The last argument: a member, unless it is an option to tar. */
  lemma MemberIsRead(member: string, job: Job)
    requires job.members == []
    ensures var r := ReadFrom([member], job);
            if !IsOption(member) then r == Some(job.(members := [member])) else r.None? || r.value.members == []
  {
    assert [member][1..] == [];
    if !IsOption(member) {
      assert member != "" && member[0] == '-' ==> |member| == 1;
      ExcludeIsOption(member);
      assert [] + [member] == [member];
    }
  }

  function TarOf(command: Command): Option<Job> {
    match Args(command)
    case None => None
    case Some(argv) => if command.redirects == [] then ReadTar(argv) else None
  }

  /** Any tar that creates, by its arguments. */
  lemma CreateJob(program: string, c: Option<Compressor>, file: string, directory: string, member: string)
    requires if program == "" then c.None? else c.Some? && ReadCompressor(program) == c
    ensures var end := (["-f"] + [file]) + (["-C"] + [directory]) + [member];
            var r := ReadTar(TarArgs(TAR_CREATE, program, end));
            && (r.Some? && WritesTree(r.value, file, directory, member) <==> !IsOption(member))
            && (!IsOption(member) ==> r.value.compressor == c)
  {
    var end := (["-f"] + [file]) + (["-C"] + [directory]) + [member];
    var flag := if program == "" then [] else ["-I"] + [program];
    assert TarArgs(TAR_CREATE, program, end) == TAR_CREATE + (flag + end);
    CreateIsRead(flag + end);
    var job := KEEPING.(mode := Some(Creates), sparse := true);
    ProgramIsRead(program, end, job, c);
    FileIsRead(file, directory, [member], job.(compressor := c));
    MemberIsRead(member, job.(compressor := c, file := Some(file), directory := Some(directory)));
  }

  lemma ExtractJob(program: string, c: Option<Compressor>, file: string, directory: string)
    requires if program == "" then c.None? else c.Some? && ReadCompressor(program) == c
    ensures var r := ReadTar(TarArgs(TAR_EXTRACT, program, (["-f"] + [file]) + (["-C"] + [directory])));
            r.Some? && ReadsTree(r.value, file, directory) && r.value.compressor == c
  {
    var end := (["-f"] + [file]) + (["-C"] + [directory]);
    var flag := if program == "" then [] else ["-I"] + [program];
    assert TarArgs(TAR_EXTRACT, program, end) == TAR_EXTRACT + (flag + end);
    ExtractIsRead(flag + end);
    var job := KEEPING.(mode := Some(Extracts));
    ProgramIsRead(program, end, job, c);
    assert end + [] == end;
    FileIsRead(file, directory, [], job.(compressor := c));
  }

  // ---- a transfer: two tars that fit

  /** The tar that reads the source and the one that fills the destination. */
  function Ends(c: T.TransferCmd, t: Tree): (Command, Command)
    requires c.Accepted() && c.IsBuiltAs(t)
  {
    if c.local then (t[2][0][0], t[2][0][1])
    else if c.push then (t[2][0][0], RemoteScript(t[2][0][1]).value[0][Guards(c.clean)][0])
    else (RemoteScript(t[1][Guards(c.clean)][0]).value[1][0][0], t[1][Guards(c.clean)][1])
  }

  /** What a transfer is asked to be compressed as on its way. */
  function WantedFormat(c: T.TransferCmd): Format {
    if c.local then Uncompressed else if c.compression == "" then Zstd else FormatNamed(c.compression)
  }

  function WantedCompressor(c: T.TransferCmd): Option<Compressor> {
    var format := WantedFormat(c);
    if format.Uncompressed? then None
    else Some(Compressor(format, Some(if c.level == 0 then 1 else c.level), format.Zstd?))
  }

  /** In every form, the extract of the parsed command is told the format its
      create writes, both keep the same attributes, and the create names the
      source's member in the source's directory, unless that looks like an
      option. */
  lemma TransferEndsFit(c: T.TransferCmd, text: string)
    requires c.Accepted() && c.IsReadOf(text)
    ensures var (create, extract) := Ends(c, Parse(text).value); var (dir, member) := T.TarSource(c.srcPath);
            && TarOf(extract).Some? && ReadsTree(TarOf(extract).value, "-", c.destPath)
            && CanRead(TarOf(extract).value, WantedFormat(c))
            && (TarOf(create).Some? && WritesTree(TarOf(create).value, "-", dir, member) <==> !IsOption(member))
            && (!IsOption(member) ==> TarOf(create).value.compressor == WantedCompressor(c))
            && (!IsOption(member) ==> Writes(TarOf(create).value) == WantedFormat(c))
  {
    var (create, extract) := Ends(c, Parse(text).value);
    EndsAre(c, Parse(text).value);
    CreateFits(c, create);
    ExtractFits(c, extract);
  }

  lemma CreateFits(c: T.TransferCmd, create: Command)
    requires c.Accepted() && Is(create, T.CreateArgs(c.Program(), c.srcPath))
    ensures var (dir, member) := T.TarSource(c.srcPath);
            && (TarOf(create).Some? && WritesTree(TarOf(create).value, "-", dir, member) <==> !IsOption(member))
            && (!IsOption(member) ==> TarOf(create).value.compressor == WantedCompressor(c))
  {
    var (dir, member) := T.TarSource(c.srcPath);
    ProgramIsWanted(c);
    CreateJob(c.Program(), WantedCompressor(c), "-", dir, member);
    assert ["-f", "-", "-C"] + [dir] + [member] == (["-f"] + ["-"]) + (["-C"] + [dir]) + [member];
  }

  lemma ExtractFits(c: T.TransferCmd, extract: Command)
    requires c.Accepted() && Is(extract, T.ExtractArgs(c.Decompressor(), c.destPath))
    ensures TarOf(extract).Some? && ReadsTree(TarOf(extract).value, "-", c.destPath)
    ensures CanRead(TarOf(extract).value, WantedFormat(c))
  {
    DecompressorIsWanted(c);
    var d := if c.Decompressor() == "" then None else ReadCompressor(c.Decompressor());
    ExtractJob(c.Decompressor(), d, "-", c.destPath);
    assert ["-f", "-", "-C"] + [c.destPath] == (["-f"] + ["-"]) + (["-C"] + [c.destPath]);
  }

  lemma EndsAre(c: T.TransferCmd, t: Tree)
    requires c.Accepted() && c.IsBuiltAs(t)
    ensures Is(Ends(c, t).0, T.CreateArgs(c.Program(), c.srcPath))
    ensures Is(Ends(c, t).1, T.ExtractArgs(c.Decompressor(), c.destPath))
  {}

  lemma ProgramIsWanted(c: T.TransferCmd)
    requires c.Accepted()
    ensures if c.Program() == "" then WantedCompressor(c).None?
            else WantedCompressor(c).Some? && ReadCompressor(c.Program()) == WantedCompressor(c)
  {
    CompressorIsNamed(c.EffectiveCompression(), c.EffectiveLevel());
    var program := CompressProgram(c.EffectiveCompression(), c.EffectiveLevel()).value;
    assert program + "" == program;
  }

  lemma DecompressorIsWanted(c: T.TransferCmd)
    requires c.Accepted()
    ensures c.Decompressor() == "" <==> WantedFormat(c).Uncompressed?
    ensures c.Decompressor() != "" ==>
              ReadCompressor(c.Decompressor()) == Some(Compressor(WantedFormat(c), None, false))
  {
    DecompressorIsNamed(c.EffectiveCompression());
  }

  // ---- a transfer: the way to the other side

  /** What an ssh is told: its options, the port if it is not the usual one, where
      to log in, and what to run there. */
  datatype Login = Login(options: seq<string>, port: Option<string>, target: string, script: string)

  function ReadSsh(args: seq<string>, options: seq<string>, port: Option<string>): Option<Login>
    decreases |args|
  {
    if |args| < 2 then None
    else if args[0] == "-o" then ReadSsh(args[2..], options + [args[1]], port)
    else if args[0] == "-p" then ReadSsh(args[2..], options, Some(args[1]))
    else if IsOption(args[0]) || |args| > 2 then None
    else Some(Login(options, port, args[0], args[1]))
  }

  function OptionArgs(options: seq<string>): seq<string> {
    if options == [] then [] else ["-o", options[0]] + OptionArgs(options[1..])
  }

  lemma {:induction false} OptionsAreRead(options: seq<string>, rest: seq<string>, before: seq<string>)
    requires |rest| >= 2
    ensures ReadSsh(OptionArgs(options) + rest, before, None) == ReadSsh(rest, before + options, None)
    decreases |options|
  {
    if options == [] {
      assert [] + rest == rest && before + options == before;
    } else {
      var more := OptionArgs(options[1..]) + rest;
      assert OptionArgs(options) + rest == ["-o", options[0]] + more && (["-o", options[0]] + more)[2..] == more;
      OptionsAreRead(options[1..], rest, before + [options[0]]);
      assert before + [options[0]] + options[1..] == before + options;
    }
  }

  /** The options that are for a host nobody has seen before and a session that
      may be quiet for long. */
  const LOGIN_OPTIONS := [
    "StrictHostKeyChecking=no", "UserKnownHostsFile=/dev/null", "ConnectTimeout=5",
    "ServerAliveInterval=10", "ServerAliveCountMax=3"
  ]

  /** The ssh of the built command logs in as asked, unless the user's name makes
      the target look like an option. */
  lemma LoginIsRead(c: T.TransferCmd, script: string)
    requires c.sshUser != ""
    ensures c.SshArgs(script)[0] == "ssh"
    ensures ReadSsh(c.SshArgs(script)[1..], [], None) ==
            Some(Login(LOGIN_OPTIONS, if c.port == 0 then None else Some(Itoa(c.port)), c.sshUser + "@" + c.sshHost,
                       script)) <==>
            c.sshUser[0] != '-'
  {
    var target := c.sshUser + "@" + c.sshHost;
    var rest := c.PortArgs() + ([target] + [script]);
    OptionsPaired();
    assert c.SshArgs(script)[1..] == T.SSH_OPTIONS + rest;
    OptionsAreRead(LOGIN_OPTIONS, rest, []);
    assert [] + LOGIN_OPTIONS == LOGIN_OPTIONS;
    TargetIsRead(target, script, LOGIN_OPTIONS, if c.port == 0 then None else Some(Itoa(c.port)));
    if c.port == 0 {
      assert rest == [target] + [script];
    } else {
      assert rest[2..] == [target] + [script];
    }
  }

  lemma OptionsPaired()
    ensures T.SSH_OPTIONS == OptionArgs(LOGIN_OPTIONS)
  {
    var o := LOGIN_OPTIONS;
    assert o[1..][1..] == o[2..] && o[2..][1..] == o[3..] && o[3..][1..] == o[4..] && o[4..][1..] == [];
    assert OptionArgs(o[4..]) == ["-o", o[4]];
    assert OptionArgs(o[3..]) == ["-o", o[3], "-o", o[4]];
    assert OptionArgs(o[2..]) == ["-o", o[2], "-o", o[3], "-o", o[4]];
    assert OptionArgs(o[1..]) == ["-o", o[1], "-o", o[2], "-o", o[3], "-o", o[4]];
  }

  lemma TargetIsRead(target: string, script: string, options: seq<string>, port: Option<string>)
    requires |target| > 1 || (target != "" && target[0] != '-')
    ensures ReadSsh([target] + [script], options, port) == Some(Login(options, port, target, script)) <==>
            target[0] != '-'
  {
    var args := [target] + [script];
    assert args[2..] == [] && ReadSsh([], options, Some(script)).None? && ReadSsh([], options + [script], port).None?;
  }

  // ---- an archive file

  lemma ArchiveTarIsRead(c: A.Cmd, text: string)
    requires c.Accepted() && c.IsReadOf(text)
    ensures var t := Parse(text).value; var format := FormatNamed(c.compression);
            if c.direction == BACKUP then
              var job := TarOf(t[0][1][0]);
              job.Some? && WritesTree(job.value, c.archivePath, c.dataPath, ".") && Writes(job.value) == format
            else
              var job := TarOf(t[0][Guards(c.clean)][0]);
              && job.Some? && ReadsTree(job.value, c.archivePath, c.dataPath)
              && (CanRead(job.value, format) <==> format.Uncompressed? || c.archivePath != "-")
  {
    var end := c.FileArgs();
    if c.direction == BACKUP {
      var program := CompressProgram(c.compression, c.level).value;
      CompressorIsNamed(c.compression, c.level);
      CreateJob(program, if program == "" then None else ReadCompressor(program), c.archivePath, c.dataPath, ".");
    } else {
      ExtractJob("", None, c.archivePath, c.dataPath);
    }
  }

  // ---- a stream

  /** What an rclone is told. */
  datatype Remote = Remote(
    config: Option<string>, stats: Option<string>, logLevel: Option<string>, json: bool, oneLine: bool,
    operands: seq<string>
  )

  const NO_REMOTE := Remote(None, None, None, false, false, [])

  function ReadRclone(args: seq<string>, r: Remote): Option<Remote>
    decreases |args|
  {
    if args == [] then Some(r)
    else if args[0] == "--use-json-log" then ReadRclone(args[1..], r.(json := true))
    else if args[0] == "--stats-one-line" then ReadRclone(args[1..], r.(oneLine := true))
    else if args[0] == "--config" || args[0] == "--stats" || args[0] == "--stats-log-level" then
      if |args| < 2 then None
      else
        var value := Some(args[1]);
        ReadRclone(args[2..], if args[0] == "--config" then r.(config := value)
                              else if args[0] == "--stats" then r.(stats := value) else r.(logLevel := value))
    else if IsOption(args[0]) then None
    else ReadRclone(args[1..], r.(operands := r.operands + [args[0]]))
  }

  function Reporting(config: string): Remote { Remote(Some(config), Some("1s"), Some("NOTICE"), true, true, []) }

  lemma FlagsAreRead(config: string, rest: seq<string>)
    ensures ReadRclone(["--config"] + [config] + S.PROGRESS_FLAGS + rest, NO_REMOTE) ==
            ReadRclone(rest, Reporting(config))
  {
    var a := ["--use-json-log"] + (["--stats-one-line"] + rest);
    var b := ["--stats-log-level", "NOTICE"] + a;
    var c := ["--stats", "1s"] + b;
    assert ["--config"] + [config] + S.PROGRESS_FLAGS + rest == ["--config", config] + c;
    var r := NO_REMOTE.(config := Some(config));
    NextSetting("--config", config, c, NO_REMOTE, r);
    NextSetting("--stats", "1s", b, r, r.(stats := Some("1s")));
    NextSetting("--stats-log-level", "NOTICE", a, r.(stats := Some("1s")),
                r.(stats := Some("1s"), logLevel := Some("NOTICE")));
    assert a[1..] == ["--stats-one-line"] + rest && a[1..][1..] == rest;
  }

  lemma NextSetting(flag: string, value: string, rest: seq<string>, r: Remote, next: Remote)
    requires flag == "--config" || flag == "--stats" || flag == "--stats-log-level"
    requires next == if flag == "--config" then r.(config := Some(value))
                     else if flag == "--stats" then r.(stats := Some(value)) else r.(logLevel := Some(value))
    ensures ReadRclone([flag, value] + rest, r) == ReadRclone(rest, next)
  {
    assert ([flag, value] + rest)[2..] == rest;
  }

  /** The verb and the remote come through, unless the remote looks like an
      option. */
  lemma RcloneIsRead(c: S.StreamCmd, verb: string)
    requires verb == "cat" || verb == "rcat"
    ensures var args := c.RcloneArgs(verb); var told := Reporting(c.configPath).(operands := [verb, c.remotePath]);
            |args| == 11 && args[0] == "rclone" &&
            (ReadRclone(args[1..], NO_REMOTE) == Some(told) <==> !IsOption(c.remotePath))
  {
    var last, r := [verb] + [c.remotePath], Reporting(c.configPath);
    assert c.RcloneArgs(verb)[1..] == ["--config"] + [c.configPath] + S.PROGRESS_FLAGS + last;
    FlagsAreRead(c.configPath, last);
    assert last[1..] == [c.remotePath] && [] + [verb] == [verb] && [verb] + [c.remotePath] == [verb, c.remotePath];
    assert ReadRclone(last, r) == ReadRclone([c.remotePath], r.(operands := [verb]));
    LastOperand(c.remotePath, r.(operands := [verb]));
  }

  lemma LastOperand(arg: string, r: Remote)
    ensures ReadRclone([arg], r) == Some(r.(operands := r.operands + [arg])) <==> !IsOption(arg)
  {
    assert [arg][1..] == [] && r.operands != r.operands + [arg];
  }

  lemma {:induction false} FieldsCollect(words: seq<Word>, args: seq<string>)
    requires |words| == |args| && forall i :: 0 <= i < |words| ==> Field(words[i]) == Some(args[i])
    ensures Collect(Field, words) == Some(args)
    decreases |words|
  {
    if words != [] {
      forall i | 0 <= i < |words| - 1 ensures Field(words[1..][i]) == Some(args[1..][i]) {
        assert words[1..][i] == words[i + 1] && args[1..][i] == args[i + 1];
      }
      FieldsCollect(words[1..], args[1..]);
      assert [args[0]] + args[1..] == args;
    }
  }

  /** The tar and the rclone of a stream. */
  function StreamEnds(c: S.StreamCmd, t: Tree): (Command, Command)
    requires c.Accepted() && c.IsBuiltAs(t)
  {
    if c.direction == BACKUP then (t[4][0][0], t[4][0][1])
    else (t[1][Guards(c.clean)][1], t[1][Guards(c.clean)][0])
  }

  /** A backup's tar writes the format it is named for, and a restore's is told
      the same one, a pipe giving nothing to find it out from. */
  lemma StreamTarIsRead(c: S.StreamCmd, text: string)
    requires c.Accepted() && c.IsReadOf(text)
    ensures var job := TarOf(StreamEnds(c, Parse(text).value).0); var format := FormatNamed(c.compression);
            job.Some? &&
            if c.direction == BACKUP then
              WritesTree(job.value, "-", c.dataPath, ".") && Writes(job.value) == format
            else
              ReadsTree(job.value, "-", c.dataPath) && (forall f :: CanRead(job.value, f) <==> f == format)
  {
    if c.direction == BACKUP {
      StreamBackupJob(c);
    } else {
      StreamRestoreJob(c);
    }
  }

  lemma StreamBackupJob(c: S.StreamCmd)
    requires c.Accepted() && c.direction == BACKUP
    ensures var job := ReadTar(c.TarArguments());
            job.Some? && WritesTree(job.value, "-", c.dataPath, ".") && Writes(job.value) == FormatNamed(c.compression)
  {
    var program := CompressProgram(c.compression, c.level).value;
    CompressorIsNamed(c.compression, c.level);
    CreateJob(program, if program == "" then None else ReadCompressor(program), "-", c.dataPath, ".");
    assert ["-f", "-", "-C"] + [c.dataPath] + ["."] == (["-f"] + ["-"]) + (["-C"] + [c.dataPath]) + ["."];
  }

  lemma StreamRestoreJob(c: S.StreamCmd)
    requires c.Accepted() && c.direction == RESTORE
    ensures var job := ReadTar(c.TarArguments());
            job.Some? && ReadsTree(job.value, "-", c.dataPath) &&
            (job.value.compressor.None? <==> FormatNamed(c.compression).Uncompressed?) &&
            (job.value.compressor.Some? ==> job.value.compressor.value.format == FormatNamed(c.compression))
  {
    var program := DecompressProgram(c.compression);
    DecompressorIsNamed(c.compression);
    ExtractJob(program, if program == "" then None else ReadCompressor(program), "-", c.dataPath);
    assert ["-f", "-", "-C"] + [c.dataPath] == (["-f"] + ["-"]) + (["-C"] + [c.dataPath]);
  }

  /** An rclone command with this verb: its first words are read as told, and
      behind `from` words come the user's. */
  predicate RcloneTold(c: S.StreamCmd, words: seq<Word>, verb: string, from: nat) {
    && |words| >= from >= 11 && Collect(Field, words[..11]).Some?
    && var args := Collect(Field, words[..11]).value;
    && args != [] && args[0] == "rclone"
    && (ReadRclone(args[1..], NO_REMOTE) == Some(Reporting(c.configPath).(operands := [verb, c.remotePath])) <==>
          !IsOption(c.remotePath))
    && words[from..] == if c.extraArgs == "" then [] else RawWords(c.extraArgs)
  }

  /** rclone writes the remote in a backup and reads it in a restore; a backup's
      chunk size comes before the user's words. */
  lemma StreamRcloneIsRead(c: S.StreamCmd, text: string)
    requires c.Accepted() && c.IsReadOf(text)
    ensures var words := StreamEnds(c, Parse(text).value).1.words;
            if c.direction == "backup" then
              && RcloneTold(c, words, "rcat", 13)
              && Field(words[11]) == Some("--s3-chunk-size") && words[12] == [Var("chunk", true)] + Chars("M", true)
            else RcloneTold(c, words, "cat", 11)
  {
    var rclone := StreamEnds(c, Parse(text).value).1;
    if c.direction == BACKUP {
      BackupRclone(c, rclone);
    } else {
      RestoreRclone(c, rclone);
    }
  }

  lemma BackupRclone(c: S.StreamCmd, rclone: Command)
    requires c.IsRclone(rclone) && c.direction == BACKUP
    ensures RcloneTold(c, rclone.words, "rcat", 13)
    ensures Field(rclone.words[11]) == Some("--s3-chunk-size")
    ensures rclone.words[12] == [Var("chunk", true)] + Chars("M", true)
  {
    RcloneIsRead(c, "rcat");
    FieldsCollect(rclone.words[..11], c.RcloneArgs("rcat"));
    ChunkIsPassed();
    SecondAndOn(rclone.words, S.CHUNK_WORDS, if c.extraArgs == "" then [] else RawWords(c.extraArgs));
  }

  lemma RestoreRclone(c: S.StreamCmd, rclone: Command)
    requires c.IsRclone(rclone) && c.direction != BACKUP
    ensures RcloneTold(c, rclone.words, "cat", 11)
  {
    RcloneIsRead(c, "cat");
    FieldsCollect(rclone.words[..11], c.RcloneArgs("cat"));
    var extra := if c.extraArgs == "" then [] else RawWords(c.extraArgs);
    assert [] + extra == extra;
  }

  lemma ChunkIsPassed()
    ensures |S.CHUNK_WORDS| == 2 && Field(S.CHUNK_WORDS[0]) == Some("--s3-chunk-size")
    ensures S.CHUNK_WORDS[1] == [Var("chunk", true)] + Chars("M", true)
  {
    assert AllPlain("--s3-chunk-size") && '[' !in "--s3-chunk-size";
    FieldOfChars("--s3-chunk-size", false);
  }

  lemma SecondAndOn(words: seq<Word>, two: seq<Word>, more: seq<Word>)
    requires |words| >= 11 && words[11..] == two + more && |two| == 2
    ensures |words| >= 13 && words[11] == two[0] && words[12] == two[1] && words[13..] == more
  {
    assert words[11..][0] == words[11] && words[11..][1] == words[12] && words[11..][2..] == words[13..];
  }

  // ---- the chunk size

  /** `[ "$chunk" -lt n ] && chunk=m`, by its two numbers. */
  function ReadFloor(a: AndList): Option<(nat, nat)> {
    if |a| != 2 || |a[0]| != 1 || |a[1]| != 1 || |a[0][0].words| != 5 || Args(a[1][0]).None? then None
    else
      var test := a[0][0].words;
      var last := Args(a[1][0]).value;
      if test[0] != Chars("[", false) || test[1] != [Var("chunk", true)] || Field(test[2]) != Some("-lt") ||
         test[4] != Chars("]", false) || |last| != 1 || !HasPrefix(last[0], "chunk=") then None
      else
        match Field(test[3])
        case None => None
        case Some(n) =>
          var m := last[0][6..];
          if AllDigits(n) && AllDigits(m) then Some((DigitsValue(n), DigitsValue(m))) else None
  }

  function AfterFloor(floor: (nat, nat), chunk: nat): nat { if chunk < floor.0 then floor.1 else chunk }

  /** What the sizing of a backup comes to for every measured size: 9000 parts of
      the chunk hold the used bytes and a quarter more. */
  lemma ChunkIsEnough(c: S.StreamCmd, text: string, used: nat, names: string -> nat)
    requires c.Accepted() && c.IsReadOf(text) && c.direction == BACKUP && names("used") == used
    ensures var t := Parse(text).value;
            && S.Assigns(t[2], "chunk=", "( " + Arithmetic.Text(S.CHUNK_EXPR) + " )")
            && ReadFloor(t[3]).Some?
            && var chunk := AfterFloor(ReadFloor(t[3]).value, Arithmetic.Value(S.CHUNK_EXPR, names));
            && chunk >= 5
            && used * 5 / 4 < 9000 * (chunk * 1048576)
            && (chunk > 5 ==> 9000 * ((chunk - 1) * 1048576) <= used * 5 / 4)
  {
    S.FormulaSpelled();
    S.ChunkValue(used, names);
    S.ChunkHoldsVolume(used);
    FloorIsRead(Parse(text).value[3]);
  }

  lemma FloorIsRead(a: AndList)
    requires S.FloorsChunk(a)
    ensures ReadFloor(a) == Some((5, 5))
  {
    BracketFields();
    DigitsReadBack(5);
    assert Digits(5) == "5";
    assert "chunk=5"[..6] == "chunk=" && "chunk=5"[6..] == "5";
  }

  lemma BracketFields()
    ensures Field(Chars("-lt", false)) == Some("-lt") && Field(Chars("5", false)) == Some("5")
  {
    assert AllPlain("-lt") && AllPlain("5");
    FieldOfChars("-lt", false);
    FieldOfChars("5", false);
  }

  // ---- the extension

  /** The format an archive's extension stands for. */
  function ExtensionFormat(path: string): Option<Format> {
    if HasSuffix(path, ".tar.zst") || HasSuffix(path, ".tzst") then Some(Zstd)
    else if HasSuffix(path, ".tar.gz") || HasSuffix(path, ".tgz") then Some(Gzip)
    else if HasSuffix(path, ".tar") then Some(Uncompressed)
    else None
  }

  /** The format read from a path, by way of the name it is given. */
  function ReadFormat(path: string): Option<Format> {
    match ArchiveTarget.CompressionFromPath(path)
    case Err(_) => None
    case Ok(compression) => Some(FormatNamed(compression))
  }

  /** It is that of the path's extension, and there is none exactly if the path
      has no extension. */
  lemma ExtensionIsRead(path: string)
    ensures ReadFormat(path) == ExtensionFormat(path)
  {
    match ExtensionFormat(path)
    case Some(Zstd) => ZstdExtension(path);
    case Some(Gzip) => GzipExtension(path);
    case Some(Uncompressed) => TarExtension(path);
    case None => NoExtension(path);
  }

  lemma ZstdExtension(path: string)
    requires HasSuffix(path, ".tar.zst") || HasSuffix(path, ".tzst")
    ensures ReadFormat(path) == Some(Zstd)
  {
    if HasSuffix(path, ".tar.zst") {
      Extension(path, ".tar.zst", ZSTD, 0);
    } else {
      Extension(path, ".tzst", ZSTD, 1);
    }
  }

  lemma GzipExtension(path: string)
    requires HasSuffix(path, ".tar.gz") || HasSuffix(path, ".tgz")
    ensures ReadFormat(path) == Some(Gzip)
  {
    if HasSuffix(path, ".tar.gz") {
      Extension(path, ".tar.gz", GZIP, 2);
    } else {
      Extension(path, ".tgz", GZIP, 3);
    }
  }

  lemma TarExtension(path: string)
    requires HasSuffix(path, ".tar")
    ensures ReadFormat(path) == Some(Uncompressed)
  {
    Extension(path, ".tar", NONE, 4);
  }

  lemma Extension(path: string, ext: string, compression: string, i: nat)
    requires i < |ArchiveTarget.SUFFIXES| && ArchiveTarget.SUFFIXES[i] == (ext, compression) && HasSuffix(path, ext)
    ensures ReadFormat(path) == Some(FormatNamed(compression))
  {
    IsItsExtension(path, i);
  }

  lemma NoExtension(path: string)
    requires ExtensionFormat(path).None?
    ensures ReadFormat(path).None?
  {
    var r := ArchiveTarget.FirstSuffix(ArchiveTarget.SUFFIXES, path);
    ArchiveTarget.FirstSuffixFits(ArchiveTarget.SUFFIXES, path);
    if r.Some? {
      InTable(r.value);
    }
  }

  lemma InTable(e: (string, string))
    requires e in ArchiveTarget.SUFFIXES
    ensures e.0 in {".tar.zst", ".tzst", ".tar.gz", ".tgz", ".tar"}
  {}

  lemma IsItsExtension(path: string, i: nat)
    requires i < |ArchiveTarget.SUFFIXES| && HasSuffix(path, ArchiveTarget.SUFFIXES[i].0)
    ensures ArchiveTarget.FirstSuffix(ArchiveTarget.SUFFIXES, path) == Some(ArchiveTarget.SUFFIXES[i])
  {
    var table := ArchiveTarget.SUFFIXES;
    ArchiveTarget.FirstSuffixFits(table, path);
    assert table[i] in table;
    ArchiveTarget.TableIsSeparate();
    var found := ArchiveTarget.FirstSuffix(table, path).value;
    if |found.0| <= |table[i].0| {
      ArchiveTarget.SuffixOfSuffix(path, table[i].0, found.0);
    } else {
      ArchiveTarget.SuffixOfSuffix(path, found.0, table[i].0);
    }
  }

  /** A stream whose compression is read off a path is in the format of that
      path's extension: a backup's tar writes it, and a restore's can read it and
      no other. */
  lemma StreamFitsItsExtension(path: string, c: S.StreamCmd, text: string)
    requires ArchiveTarget.CompressionFromPath(path) == Ok(c.compression)
    requires c.Accepted() && c.IsReadOf(text)
    ensures var job := TarOf(StreamEnds(c, Parse(text).value).0);
            job.Some? &&
            if c.direction == "backup" then Some(Writes(job.value)) == ExtensionFormat(path)
            else forall f :: CanRead(job.value, f) <==> Some(f) == ExtensionFormat(path)
  {
    ExtensionIsRead(path);
    StreamTarIsRead(c, text);
  }

  lemma ArchiveFitsItsExtension(path: string, c: A.Cmd, text: string)
    requires ArchiveTarget.CompressionFromPath(path) == Ok(c.compression)
    requires c.Accepted() && c.IsReadOf(text) && c.direction == BACKUP
    ensures var job := TarOf(Parse(text).value[0][1][0]);
            job.Some? && Some(Writes(job.value)) == ExtensionFormat(path)
  {
    ExtensionIsRead(path);
    ArchiveTarIsRead(c, text);
  }

  // ---- logging in

  /** The ssh of a parsed transfer. */
  function SshOf(c: T.TransferCmd, t: Tree): Command
    requires c.Accepted() && c.IsBuiltAs(t) && !c.local
  {
    if c.push then t[2][0][1] else t[1][Guards(c.clean)][0]
  }

  lemma TransferLogsIn(c: T.TransferCmd, text: string)
    requires c.Accepted() && c.IsReadOf(text) && !c.local
    ensures var args := Args(SshOf(c, Parse(text).value));
            && args.Some? && |args.value| > 1 && args.value[0] == "ssh"
            && (ReadSsh(args.value[1..], [], None) ==
                Some(Login(LOGIN_OPTIONS, if c.port == 0 then None else Some(Itoa(c.port)),
                           c.sshUser + "@" + c.sshHost, args.value[|args.value| - 1])) <==>
                c.sshUser[0] != '-')
  {
    SshIsThere(c, Parse(text).value);
    LoginOf(c, SshOf(c, Parse(text).value));
  }

  lemma SshIsThere(c: T.TransferCmd, t: Tree)
    requires c.Accepted() && c.IsBuiltAs(t) && !c.local
    ensures c.IsSshTo(SshOf(c, t))
  {}

  lemma LoginOf(c: T.TransferCmd, ssh: Command)
    requires c.IsSshTo(ssh) && c.sshUser != ""
    ensures var args := Args(ssh);
            && args.Some? && |args.value| > 1 && args.value[0] == "ssh"
            && (ReadSsh(args.value[1..], [], None) ==
                Some(Login(LOGIN_OPTIONS, if c.port == 0 then None else Some(Itoa(c.port)),
                           c.sshUser + "@" + c.sshHost, args.value[|args.value| - 1])) <==>
                c.sshUser[0] != '-')
  {
    var args := Args(ssh).value;
    var script := args[|args| - 1];
    assert args == args[..|args| - 1] + [script] == c.SshArgs(script);
    LoginIsRead(c, script);
  }

  // ---- preparing and measuring

  /** Whether the directories above are made as well, and which are asked for. */
  function ReadMkdir(argv: seq<string>): Option<(bool, seq<string>)> {
    if |argv| != 3 || argv[0] != "mkdir" || argv[1] != "-p" || IsOption(argv[2]) then None else Some((true, argv[2..]))
  }

  /** A prepare list makes the directory, with those above it, and its clean
      empties it, exactly if the path's characters do not stand for others. */
  lemma PreparedIsRead(a: AndList, path: string, clean: bool)
    requires Prepares(a, path, clean) && Find.Resolved(path)
    ensures Args(a[0][0]).Some? && ReadMkdir(Args(a[0][0]).value) == Some((true, [path]))
    ensures clean ==>
              && Args(a[1][0]).Some? && Find.ReadFind(Args(a[1][0]).value).Some?
              && (Find.Empties(Find.ReadFind(Args(a[1][0]).value).value, path) <==> Find.Harmless(path))
  {
    assert MkdirArgs(path) == ["mkdir", "-p", path];
    Find.CleanEmpties(path);
  }

  /** df's unit and what it is asked about. */
  function ReadDf(argv: seq<string>): Option<(nat, string)> {
    if |argv| != 3 || argv[0] != "df" || !HasPrefix(argv[1], "-B") || !AllDigits(argv[1][2..]) || IsOption(argv[2])
    then None else Some((DigitsValue(argv[1][2..]), argv[2]))
  }

  /** The line and the column that an awk program prints. */
  function ReadAwk(program: string): Option<(nat, nat)> {
    if !HasPrefix(program, "NR==") || program[|program| - 1] != '}' then None
    else
      match Cut(program[4..|program| - 1], "{print $")
      case None => None
      case Some((line, column)) =>
        if AllDigits(line) && AllDigits(column) then Some((DigitsValue(line), DigitsValue(column))) else None
  }

  /** A line with df's names for its columns comes first, and of the next one the
      third column is what is used. */
  const USED_CELL := (2, 3)

  /** The measuring pipeline prints the used bytes of the path's file system. */
  lemma MeasureIsRead(text: string, path: string)
    requires Measures(text, path)
    ensures var p := Parse(text).value[0][0];
            && Args(p[0]).Some? && Args(p[1]).Some?
            && (ReadDf(Args(p[0]).value) == Some((1, path)) <==> !IsOption(path))
            && |Args(p[1]).value| == 2 && Args(p[1]).value[0] == "awk"
            && ReadAwk(Args(p[1]).value[1]) == Some(USED_CELL)
  {
    assert ["df", "-B1"] + [path] == ["df", "-B1", path];
    assert "-B1"[..2] == "-B" && "-B1"[2..] == "1";
    DigitsReadBack(1);
    assert Digits(1) == "1";
    AwkIsRead();
  }

  lemma AwkIsRead()
    ensures ReadAwk(AWK_USED) == Some(USED_CELL)
  {
    assert AWK_USED[..4] == "NR==" && AWK_USED[4..|AWK_USED| - 1] == "2{print $3";
    assert "2{print $3" == "2" + "{print $" + "3";
    NotInOne("2", "{print $");
    CutFirst("2", "{print $", "3");
    DigitsReadBack(2);
    DigitsReadBack(3);
    assert Digits(2) == "2" && Digits(3) == "3";
  }

  lemma NotInOne(s: string, sub: string)
    requires |sub| > |s|
    ensures !Contains(s, sub)
  {}
}
