/** Predicting rclone's --dry-run from the text of its extra arguments
    (internal/bucketstorage/bucketstorage.go), next to pflag, by which rclone
    itself decides. */
module DryRun {
  import opened ExtraArgs
  import opened Outcome
  import opened Text
  import opened Trim
  import opened ShellExec
  import opened ShellLexer
  import opened ShellQuote
  import opened ShellSyntax

  predicate IsLetter(c: char) { 'a' <= c <= 'z' || 'A' <= c <= 'Z' }

  predicate Letters(s: string) { s != "" && forall i :: 0 <= i < |s| ==> IsLetter(s[i]) }

  /** The regular expression for a bundle of short flags. */
  predicate IsCluster(arg: string) { arg != "" && arg[0] == '-' && Letters(arg[1..]) }

  const TRUE_WORDS := {"1", "t", "T", "TRUE", "true", "True"}
  const FALSE_WORDS := {"0", "f", "F", "FALSE", "false", "False"}

  /** strconv.ParseBool. */
  function ParseBool(s: string): Option<bool> {
    if s in TRUE_WORDS then Some(true) else if s in FALSE_WORDS then Some(false) else None
  }

  // ---- the scan

  function SetFromBool(dry: bool, value: string): bool {
    match ParseBool(value)
    case Some(enabled) => enabled
    case None => dry
  }

  /** A bundle from the left, the value going to its last letter. */
  function BundleDry(dry: bool, letters: string, value: Option<string>): bool
    decreases |letters|
  {
    if letters == "" then dry
    else if letters[0] != 'n' then BundleDry(dry, letters[1..], value)
    else if |letters| == 1 && value.Some? then SetFromBool(dry, value.value)
    else BundleDry(true, letters[1..], value)
  }

  function ArgDry(dry: bool, arg: string): bool {
    match Cut(arg, "=")
    case Some((name, value)) =>
      if name == "--dry-run" then SetFromBool(dry, value)
      else if IsCluster(name) then BundleDry(dry, name[1..], Some(value))
      else dry
    case None => dry || arg == "--dry-run" || (IsCluster(arg) && 'n' in arg)
  }

  function ScanDry(dry: bool, args: seq<string>): bool
    decreases |args|
  {
    if args == [] then dry else ScanDry(ArgDry(dry, args[0]), args[1..])
  }

  /** One `name=value` argument. */
  method ApplyAssignedFlag(dryRun: bool, name: string, value: string) returns (dry: bool)
    ensures dry == (if name == "--dry-run" then SetFromBool(dryRun, value)
                    else if IsCluster(name) then BundleDry(dryRun, name[1..], Some(value)) else dryRun)
  {
    dry := dryRun;
    if name == "--dry-run" {
      dry := SetFromBool(dry, value);
    } else if IsCluster(name) {
      var letters := name[1..];
      assert letters[0..] == letters;
      for i := 0 to |letters|
        invariant BundleDry(dry, letters[i..], Some(value)) == BundleDry(dryRun, letters, Some(value))
      {
        assert letters[i..][1..] == letters[i + 1..];
        if letters[i] == 'n' {
          if i == |letters| - 1 {
            dry := SetFromBool(dry, value);
          } else {
            dry := true;
          }
        }
      }
    }
  }

  /** The last occurrence wins, so all are looked at. */
  method HasRcloneDryRun(extraArgs: string) returns (dry: bool)
    ensures dry == ScanDry(false, Fields(extraArgs))
  {
    dry := false;
    var args := Fields(extraArgs);
    for i := 0 to |args|
      invariant ScanDry(dry, args[i..]) == ScanDry(false, args)
    {
      var arg := args[i];
      assert args[i..][1..] == args[i + 1..];
      var cut := Cut(arg, "=");
      if cut.Some? {
        dry := ApplyAssignedFlag(dry, cut.value.0, cut.value.1);
      } else if arg == "--dry-run" || (IsCluster(arg) && 'n' in arg) {
        dry := true;
      }
    }
  }

  // ---- pflag

  /** The flags a program defines: their names, their shorthands, which of them
      need a value, and which values they do not take. */
  datatype FlagSet = FlagSet(
    names: set<string>, shorthands: map<char, string>, valued: set<string>, rejected: set<(string, string)>
  )

  const DRY_RUN := "dry-run"

  /** rclone's: dry-run is a boolean with shorthand n, shorthands are letters. */
  predicate Defines(flags: FlagSet) {
    && DRY_RUN in flags.names && DRY_RUN !in flags.valued
    && forall c <- flags.shorthands ::
         IsLetter(c) && flags.shorthands[c] in flags.names && (flags.shorthands[c] == DRY_RUN <==> c == 'n')
  }

  type Values = map<string, string>

  predicate Takes(flags: FlagSet, name: string, value: string) {
    name in flags.names && (if name == DRY_RUN then ParseBool(value).Some? else (name, value) !in flags.rejected)
  }

  function Set(flags: FlagSet, values: Values, name: string, value: string): Option<Values> {
    if Takes(flags, name, value) then Some(values[name := value]) else None
  }

  /** A bundle: each letter is a flag of its own, an assigned value is the last
      one's, and a flag that needs a value takes the rest, or the next argument. */
  function ParseShort(flags: FlagSet, values: Values, s: string): Option<(Values, Option<string>)>
    decreases |s|
  {
    if s == "" then Some((values, None))
    else if s[0] !in flags.shorthands then None
    else
      var name := flags.shorthands[s[0]];
      if |s| > 2 && s[1] == '=' then
        match Set(flags, values, name, s[2..]) case None => None case Some(next) => Some((next, None))
      else if name !in flags.valued then ParseShort(flags, values[name := "true"], s[1..])
      else if |s| > 1 then
        match Set(flags, values, name, s[1..]) case None => None case Some(next) => Some((next, None))
      else Some((values, Some(name)))
  }

  function ParseLong(flags: FlagSet, values: Values, s: string): Option<(Values, Option<string>)> {
    match Cut(s, "=")
    case Some((name, value)) =>
      (match Set(flags, values, name, value) case None => None case Some(next) => Some((next, None)))
    case None =>
      if s !in flags.names then None
      else if s in flags.valued then Some((values, Some(s)))
      else Some((values[s := "true"], None))
  }

  predicate IsFlag(arg: string) { |arg| >= 2 && arg[0] == '-' }

  function ParseFlag(flags: FlagSet, values: Values, arg: string): Option<(Values, Option<string>)>
    requires IsFlag(arg)
  {
    if arg[1] == '-' then ParseLong(flags, values, arg[2..]) else ParseShort(flags, values, arg[1..])
  }

  /** A whole command line; None is one that is refused. */
  function Parse(flags: FlagSet, values: Values, args: seq<string>): Option<Values>
    decreases |args|
  {
    if args == [] then Some(values)
    else if !IsFlag(args[0]) then Parse(flags, values, args[1..])
    else if args[0] == "--" then Some(values)
    else
      match ParseFlag(flags, values, args[0])
      case None => None
      case Some((next, None)) => Parse(flags, next, args[1..])
      case Some((next, Some(name))) =>
        if |args| == 1 then None
        else match Set(flags, next, name, args[1]) case None => None case Some(more) => Parse(flags, more, args[2..])
  }

  function DryOf(values: Values): bool { DRY_RUN in values && ParseBool(values[DRY_RUN]) == Some(true) }

  // ---- what of a line pflag hears as flags

  /** A bundle without the value that is attached to its last flag. */
  function HeardShort(flags: FlagSet, s: string): string
    decreases |s|
  {
    if s == "" || s[0] !in flags.shorthands || (|s| > 2 && s[1] == '=') then s
    else [s[0]] + (if flags.shorthands[s[0]] in flags.valued then "" else HeardShort(flags, s[1..]))
  }

  function HeardArg(flags: FlagSet, arg: string): string
    requires IsFlag(arg)
  {
    if arg[1] == '-' then arg else ['-'] + HeardShort(flags, arg[1..])
  }

  /** Whether an argument is taken, and the flag that still wants its value;
      neither depends on the values set before. */
  function Want(flags: FlagSet, arg: string): Option<Option<string>>
    requires IsFlag(arg)
  {
    match ParseFlag(flags, map[], arg)
    case None => None
    case Some((_, pending)) => Some(pending)
  }

  lemma {:induction false} ShortAnyhow(flags: FlagSet, v: Values, w: Values, s: string)
    ensures ParseShort(flags, v, s).Some? <==> ParseShort(flags, w, s).Some?
    ensures ParseShort(flags, v, s).Some? ==> ParseShort(flags, v, s).value.1 == ParseShort(flags, w, s).value.1
    decreases |s|
  {
    if s != "" && s[0] in flags.shorthands {
      var name := flags.shorthands[s[0]];
      ShortAnyhow(flags, v[name := "true"], w[name := "true"], s[1..]);
    }
  }

  lemma WantIs(flags: FlagSet, values: Values, arg: string)
    requires IsFlag(arg)
    ensures Want(flags, arg) ==
            match ParseFlag(flags, values, arg) case None => None case Some((_, pending)) => Some(pending)
  {
    ShortAnyhow(flags, map[], values, arg[1..]);
  }

  /** The flags of a line: no positional arguments, no values of their own, and
      nothing behind a bare "--". */
  function Heard(flags: FlagSet, args: seq<string>): seq<string>
    decreases |args|
  {
    if args == [] || args[0] == "--" then []
    else if !IsFlag(args[0]) then Heard(flags, args[1..])
    else
      match Want(flags, args[0])
      case None => []
      case Some(None) => [HeardArg(flags, args[0])] + Heard(flags, args[1..])
      case Some(Some(_)) => [HeardArg(flags, args[0])] + (if |args| == 1 then [] else Heard(flags, args[2..]))
  }

  function UpToEquals(s: string): string {
    match Cut(s, "=")
    case None => s
    case Some(parts) => parts.0
  }

  lemma CutNext(c: char, s: string)
    requires c != '='
    ensures Cut([c] + s, "=") == match Cut(s, "=") case None => None case Some(parts) => Some(([c] + parts.0, parts.1))
  {
    var all := [c] + s;
    assert all[..1] == [c] && all[1..] == s;
  }

  lemma CutHere(s: string)
    ensures Cut("=" + s, "=") == Some(("", s))
  {
    assert ("=" + s)[..1] == "=" && ("=" + s)[1..] == s;
  }

  /** What the scan makes of a bundle. */
  function ScanBundle(dry: bool, s: string): bool {
    match Cut(s, "=")
    case Some((letters, value)) => BundleDry(dry, letters, Some(value))
    case None => dry || 'n' in s
  }

  lemma OneLetter(dry: bool, c: char, value: string)
    ensures BundleDry(dry, [c], Some(value)) == if c == 'n' then SetFromBool(dry, value) else dry
  {
    assert [c][1..] == "";
  }

  /** What is heard of a bundle is letters up to an assigned value, and to the
      scan it says what pflag makes of the whole. */
  lemma {:induction false} BundleIsHeard(flags: FlagSet, values: Values, s: string)
    requires Defines(flags) && ParseShort(flags, values, s).Some? && s != ""
    ensures Letters(UpToEquals(HeardShort(flags, s)))
    ensures DryOf(ParseShort(flags, values, s).value.0) == ScanBundle(DryOf(values), HeardShort(flags, s))
    decreases |s|
  {
    var c, rest := s[0], s[1..];
    assert s == [c] + rest;
    CutNext(c, "");
    assert [c] + "" == [c];
    if |s| > 2 && s[1] == '=' {
      CutNext(c, rest);
      assert rest == "=" + rest[1..] && rest[1..] == s[2..];
      CutHere(rest[1..]);
      OneLetter(DryOf(values), c, rest[1..]);
    } else if flags.shorthands[c] in flags.valued {
      assert HeardShort(flags, s) == [c];
    } else if rest == "" {
      assert HeardShort(flags, s) == [c];
    } else {
      BundleIsHeard(flags, values[flags.shorthands[c] := "true"], rest);
      HeardNext(DryOf(values), c, HeardShort(flags, rest));
    }
  }

  lemma HeardNext(dry: bool, c: char, heard: string)
    requires IsLetter(c) && Letters(UpToEquals(heard))
    ensures Letters(UpToEquals([c] + heard)) && ScanBundle(dry, [c] + heard) == ScanBundle(dry || c == 'n', heard)
  {
    CutNext(c, heard);
    assert ([c] + UpToEquals(heard))[1..] == UpToEquals(heard);
    assert 'n' in [c] + heard <==> c == 'n' || 'n' in heard;
  }

  lemma LongIsHeard(flags: FlagSet, values: Values, arg: string)
    requires Defines(flags) && IsFlag(arg) && arg[1] == '-' && ParseFlag(flags, values, arg).Some?
    ensures DryOf(ParseFlag(flags, values, arg).value.0) == ArgDry(DryOf(values), arg)
  {
    var body := arg[2..];
    assert arg == ['-'] + (['-'] + body);
    CutNext('-', body);
    CutNext('-', ['-'] + body);
    DashesFirst(body);
    if Cut(body, "=").Some? {
      DashesFirst(Cut(body, "=").value.0);
    }
  }

  /** Two dashes and a name are that long flag, and no bundle. */
  lemma DashesFirst(name: string)
    ensures ['-'] + (['-'] + name) == "--dry-run" <==> name == DRY_RUN
    ensures !IsCluster(['-'] + (['-'] + name))
  {
    var all := ['-'] + (['-'] + name);
    assert all[2..] == name && "--dry-run"[2..] == DRY_RUN;
    assert "--" + DRY_RUN == "--dry-run" && "--" + name == all;
    assert all[1..][0] == '-';
  }

  /** The scan of a bundle whose letters are letters. */
  lemma ShortScan(dry: bool, s: string)
    requires Letters(UpToEquals(s))
    ensures ArgDry(dry, ['-'] + s) == ScanBundle(dry, s)
  {
    var arg := ['-'] + s;
    CutNext('-', s);
    var name := ['-'] + UpToEquals(s);
    assert name[1..] == UpToEquals(s) && name != "--dry-run" by { assert name[1] != '-'; }
    assert 'n' in arg <==> 'n' in s;
  }

  lemma FlagIsHeard(flags: FlagSet, values: Values, arg: string)
    requires Defines(flags) && IsFlag(arg) && ParseFlag(flags, values, arg).Some?
    ensures DryOf(ParseFlag(flags, values, arg).value.0) == ArgDry(DryOf(values), HeardArg(flags, arg))
  {
    if arg[1] == '-' {
      LongIsHeard(flags, values, arg);
    } else {
      BundleIsHeard(flags, values, arg[1..]);
      ShortScan(DryOf(values), HeardShort(flags, arg[1..]));
    }
  }

  /** A separate value is that of another flag. */
  lemma ValueIsAnothers(flags: FlagSet, values: Values, arg: string, value: string)
    requires Defines(flags) && IsFlag(arg) && ParseFlag(flags, values, arg).Some? &&
             ParseFlag(flags, values, arg).value.1.Some?
    ensures var (next, name) := ParseFlag(flags, values, arg).value;
            name.value != DRY_RUN && (Set(flags, next, name.value, value).Some? ==>
              DryOf(Set(flags, next, name.value, value).value) == DryOf(next))
  {
    if arg[1] != '-' {
      PendingIsValued(flags, values, arg[1..]);
    }
  }

  lemma {:induction false} PendingIsValued(flags: FlagSet, values: Values, s: string)
    requires ParseShort(flags, values, s).Some? && ParseShort(flags, values, s).value.1.Some?
    ensures ParseShort(flags, values, s).value.1.value in flags.valued
    decreases |s|
  {
    if flags.shorthands[s[0]] !in flags.valued {
      PendingIsValued(flags, values[flags.shorthands[s[0]] := "true"], s[1..]);
    }
  }

  /** For every command line pflag accepts: what it ends up with is what the scan
      makes of the flags it hears. */
  lemma {:induction false} HeardIsParsed(flags: FlagSet, values: Values, args: seq<string>)
    requires Defines(flags) && Parse(flags, values, args).Some?
    ensures DryOf(Parse(flags, values, args).value) == ScanDry(DryOf(values), Heard(flags, args))
    decreases |args|
  {
    if args != [] && args[0] != "--" {
      var arg := args[0];
      if !IsFlag(arg) {
        HeardIsParsed(flags, values, args[1..]);
      } else {
        FlagIsHeard(flags, values, arg);
        WantIs(flags, values, arg);
        var (next, name) := ParseFlag(flags, values, arg).value;
        var heard := HeardArg(flags, arg);
        if name.None? {
          HeardIsParsed(flags, next, args[1..]);
          ScanFirst(DryOf(values), heard, Heard(flags, args[1..]));
        } else {
          ValueIsAnothers(flags, values, arg, args[1]);
          HeardIsParsed(flags, Set(flags, next, name.value, args[1]).value, args[2..]);
          ScanFirst(DryOf(values), heard, Heard(flags, args[2..]));
        }
      }
    }
  }

  lemma ScanFirst(dry: bool, arg: string, rest: seq<string>)
    ensures ScanDry(dry, [arg] + rest) == ScanDry(ArgDry(dry, arg), rest)
  {
    assert ([arg] + rest)[1..] == rest;
  }

  // ---- whether the scan says the same

  /** What the scan takes an argument to say, if anything. */
  function Says(arg: string): Option<bool> {
    if ArgDry(false, arg) == ArgDry(true, arg) then Some(ArgDry(false, arg)) else None
  }

  /** That by its spelling: the flag bare or with a boolean, and a bundle in which
      an n stands bare, or last with a boolean. */
  function Spelled(arg: string): Option<bool> {
    match Cut(arg, "=")
    case None => if arg == "--dry-run" || (IsCluster(arg) && 'n' in arg) then Some(true) else None
    case Some((name, value)) =>
      if name == "--dry-run" then ParseBool(value)
      else if !IsCluster(name) then None
      else
        var ending := if name[|name| - 1] == 'n' then ParseBool(value) else None;
        if ending.None? && 'n' in name[..|name| - 1] then Some(true) else ending
  }

  lemma SaysIsSpelled(arg: string)
    ensures Says(arg) == Spelled(arg)
  {
    match Cut(arg, "=")
    case None =>
    case Some((name, value)) =>
      if IsCluster(name) {
        var letters := name[1..];
        BundleIs(false, letters, value);
        BundleIs(true, letters, value);
        assert letters[..|letters| - 1] == name[1..|name| - 1];
        assert name[..|name| - 1] == [name[0]] + name[1..|name| - 1];
      }
  }

  /** A bundle by its last letter and those before. */
  lemma {:induction false} BundleIs(dry: bool, letters: string, value: string)
    requires letters != ""
    ensures var bare := dry || 'n' in letters[..|letters| - 1];
            BundleDry(dry, letters, Some(value)) ==
            if letters[|letters| - 1] == 'n' then SetFromBool(bare, value) else bare
    decreases |letters|
  {
    if |letters| == 1 {
      assert letters == [letters[0]];
      OneLetter(dry, letters[0], value);
    } else {
      var rest := letters[1..];
      BundleIs(dry || letters[0] == 'n', rest, value);
      assert letters[..|letters| - 1] == [letters[0]] + rest[..|rest| - 1];
    }
  }

  function LastSaid(args: seq<string>): Option<bool>
    decreases |args|
  {
    if args == [] then None
    else if LastSaid(args[1..]).Some? then LastSaid(args[1..]) else Says(args[0])
  }

  function Or(said: Option<bool>, dry: bool): bool {
    match said
    case None => dry
    case Some(value) => value
  }

  lemma {:induction false} BundleSays(letters: string, value: Option<string>)
    ensures BundleDry(false, letters, value) ==> BundleDry(true, letters, value)
    decreases |letters|
  {
    if letters != "" {
      BundleSays(letters[1..], value);
    }
  }

  lemma ArgSays(dry: bool, arg: string)
    ensures ArgDry(dry, arg) == Or(Says(arg), dry)
  {
    match Cut(arg, "=")
    case None =>
    case Some((name, value)) => if IsCluster(name) { BundleSays(name[1..], Some(value)); }
  }

  lemma {:induction false} ScanSays(dry: bool, args: seq<string>)
    ensures ScanDry(dry, args) == Or(LastSaid(args), dry)
    decreases |args|
  {
    if args != [] {
      ArgSays(dry, args[0]);
      ScanSays(ArgDry(dry, args[0]), args[1..]);
    }
  }

  /** The scan is right about a line that pflag accepts exactly if the last
      argument that says something and the last heard flag that does say the
      same, a line that says nothing leaving things as they were. */
  lemma ScanIsRight(flags: FlagSet, values: Values, args: seq<string>)
    requires Defines(flags) && Parse(flags, values, args).Some?
    ensures ScanDry(DryOf(values), args) == DryOf(Parse(flags, values, args).value) <==>
              Or(LastSaid(args), DryOf(values)) == Or(LastSaid(Heard(flags, args)), DryOf(values))
  {
    HeardIsParsed(flags, values, args);
    ScanSays(DryOf(values), args);
    ScanSays(DryOf(values), Heard(flags, args));
  }

  /** The same of the text itself, which the scan cuts at spaces and rclone gets as
      the words a shell reads: quoted or not, the scan is right exactly if the
      last field that says something and the last flag heard in the words that
      does say the same. */
  lemma TextIsRight(flags: FlagSet, values: Values, text: string, words: seq<string>)
    requires Defines(flags) && ReadsAs(text, words) && Parse(flags, values, words).Some?
    ensures ScanDry(DryOf(values), Fields(text)) == DryOf(Parse(flags, values, words).value) <==>
              Or(LastSaid(Fields(text)), DryOf(values)) == Or(LastSaid(Heard(flags, words)), DryOf(values))
    ensures OrdinaryText(text) <==> words == Fields(text)
  {
    HeardIsParsed(flags, values, words);
    ScanSays(DryOf(values), Fields(text));
    ScanSays(DryOf(values), Heard(flags, words));
    FieldsAreWords(text, words);
  }

  /** A line of which nothing but what pflag hears as a flag says anything to the
      scan: not the value of another flag, separate or attached, nor what follows
      a bare "--". Positional arguments need no condition. */
  predicate Harmless(flags: FlagSet, args: seq<string>)
    decreases |args|
  {
    if args == [] then true
    else if args[0] == "--" then forall i :: 0 < i < |args| ==> Says(args[i]) == None
    else if !IsFlag(args[0]) then Harmless(flags, args[1..])
    else
      Says(args[0]) == Says(HeardArg(flags, args[0])) &&
      match Want(flags, args[0])
      case None => false
      case Some(None) => Harmless(flags, args[1..])
      case Some(Some(_)) => |args| > 1 && Says(args[1]) == None && Harmless(flags, args[2..])
  }

  /** Of such a line the scan says what pflag ends up with. */
  lemma ScanAgrees(flags: FlagSet, values: Values, args: seq<string>)
    requires Defines(flags) && Parse(flags, values, args).Some? && Harmless(flags, args)
    ensures ScanDry(DryOf(values), args) == DryOf(Parse(flags, values, args).value)
  {
    HarmlessIsHeard(flags, args);
    ScanIsRight(flags, values, args);
  }

  lemma {:induction false} HarmlessIsHeard(flags: FlagSet, args: seq<string>)
    requires Harmless(flags, args)
    ensures LastSaid(args) == LastSaid(Heard(flags, args))
    decreases |args|
  {
    if args == [] {
    } else if args[0] == "--" {
      NoEquals("--");
      assert "--"[1..] == "-";
      SilentTail(args);
    } else if !IsFlag(args[0]) {
      PositionalSaysNothing(args[0]);
      HarmlessIsHeard(flags, args[1..]);
    } else {
      var heard, rest := HeardArg(flags, args[0]), args[if Want(flags, args[0]).value.None? then 1 else 2..];
      HarmlessIsHeard(flags, rest);
      assert ([heard] + Heard(flags, rest))[1..] == Heard(flags, rest);
      assert |args| > 1 ==> args[1..][1..] == args[2..];
    }
  }

  lemma {:induction false} SilentTail(args: seq<string>)
    requires forall i :: 0 <= i < |args| ==> Says(args[i]) == None
    ensures LastSaid(args) == None
    decreases |args|
  {
    if args != [] {
      SilentTail(args[1..]);
    }
  }

  lemma PositionalSaysNothing(arg: string)
    requires !IsFlag(arg)
    ensures Says(arg) == None
  {
    if Cut(arg, "=").Some? {
      CutSplits(arg, "=");
    }
  }

  /** Whether the scan is right about one flag depends on a value attached to a
      bundle only. */
  lemma AttachedValue(flags: FlagSet, values: Values, arg: string)
    requires Defines(flags) && IsFlag(arg) && arg != "--" && Parse(flags, values, [arg]).Some?
    ensures ScanDry(DryOf(values), [arg]) == DryOf(Parse(flags, values, [arg]).value) <==>
              ArgDry(DryOf(values), arg) == ArgDry(DryOf(values), HeardArg(flags, arg))
  {
    HeardIsParsed(flags, values, [arg]);
    WantIs(flags, values, arg);
    assert Heard(flags, [arg]) == [HeardArg(flags, arg)];
    ScanFirst(DryOf(values), arg, []);
    ScanFirst(DryOf(values), HeardArg(flags, arg), []);
  }

  /** It is right about a flag and its separate value exactly if the value, read
      as an argument, would change nothing. */
  lemma SeparateValue(flags: FlagSet, values: Values, arg: string, value: string)
    requires Defines(flags) && IsFlag(arg) && arg != "--" && Want(flags, arg).Some? && Want(flags, arg).value.Some?
    requires Parse(flags, values, [arg, value]).Some?
    ensures ScanDry(DryOf(values), [arg, value]) == DryOf(Parse(flags, values, [arg, value]).value) <==>
              ArgDry(ArgDry(DryOf(values), arg), value) == ArgDry(DryOf(values), arg)
  {
    HeardIsParsed(flags, values, [arg, value]);
    WantIs(flags, values, arg);
    if arg[1] != '-' {
      PendingIsHeard(flags, map[], arg[1..]);
      assert ['-'] + arg[1..] == arg;
    }
    assert [arg, value][2..] == [] && Heard(flags, [arg, value]) == [arg];
    ScanFirst(DryOf(values), arg, []);
    ScanFirst(DryOf(values), arg, [value]);
    ScanFirst(ArgDry(DryOf(values), arg), value, []);
    assert [arg] + [value] == [arg, value];
  }

  lemma {:induction false} PendingIsHeard(flags: FlagSet, values: Values, s: string)
    requires ParseShort(flags, values, s).Some? && ParseShort(flags, values, s).value.1.Some?
    ensures HeardShort(flags, s) == s
    decreases |s|
  {
    assert s == [s[0]] + s[1..];
    if flags.shorthands[s[0]] !in flags.valued {
      PendingIsHeard(flags, values[flags.shorthands[s[0]] := "true"], s[1..]);
    }
  }

  /** And about what follows a bare "--" exactly if all of it together would. */
  lemma BehindDashes(flags: FlagSet, values: Values, args: seq<string>)
    requires Defines(flags)
    ensures ScanDry(DryOf(values), ["--"] + args) == DryOf(Parse(flags, values, ["--"] + args).value) <==>
              ScanDry(DryOf(values), args) == DryOf(values)
  {
    NoEquals("--");
    assert "--"[1..] == "-";
    ScanFirst(DryOf(values), "--", args);
  }

  // ---- where it does not

  const SOME_FLAGS := FlagSet({"dry-run", "order-by"}, map['n' := "dry-run", 'o' := "order-by"], {"order-by"}, {})

  /** It sees a dry run in a flag's own value and behind a bare "--", and misses
      one in a bundle that ends in a value. */
  lemma ScanMisreads()
    ensures Defines(SOME_FLAGS)
    ensures Parse(SOME_FLAGS, map[], ["--", "-n"]) == Some(map[]) && ScanDry(false, ["--", "-n"])
    ensures Parse(SOME_FLAGS, map[], ["-o", "-n"]) == Some(map["order-by" := "-n"]) && ScanDry(false, ["-o", "-n"])
    ensures Parse(SOME_FLAGS, map[], ["-no5"]) == Some(map["dry-run" := "true", "order-by" := "5"]) &&
            !ScanDry(false, ["-no5"])
  {
    SoleShort();
    NoEquals("--");
    assert "--"[1..] == "-" && ["--", "-n"][1..] == ["-n"];
    ValueReadAsFlag();
    BundleWithValue();
  }

  lemma SoleShort()
    ensures forall dry :: ScanDry(dry, ["-n"])
  {
    NoEquals("-n");
    assert "-n"[1..] == "n" && "-n"[1] == 'n';
    forall dry ensures ScanDry(dry, ["-n"]) {
      assert ["-n"][1..] == [] && ScanDry(true, []) && ArgDry(dry, "-n");
    }
  }

  lemma ValueReadAsFlag()
    ensures Parse(SOME_FLAGS, map[], ["-o", "-n"]) == Some(map["order-by" := "-n"]) && ScanDry(false, ["-o", "-n"])
  {
    SoleShort();
    assert ["-o", "-n"][1..] == ["-n"] && ["-o", "-n"][2..] == [] && "-o"[1..] == "o";
  }

  lemma BundleWithValue()
    ensures Parse(SOME_FLAGS, map[], ["-no5"]) == Some(map["dry-run" := "true", "order-by" := "5"]) &&
            !ScanDry(false, ["-no5"])
  {
    var arg := "-no5";
    assert arg[1..] == "no5" && "no5"[1..] == "o5" && "o5"[1..] == "5";
    assert ParseShort(SOME_FLAGS, map["dry-run" := "true"], "o5") ==
      Some((map["dry-run" := "true", "order-by" := "5"], None));
    assert ParseShort(SOME_FLAGS, map[], "no5") == Some((map["dry-run" := "true", "order-by" := "5"], None));
    NoEquals(arg);
    assert !IsLetter("no5"[2]) && !IsCluster(arg);
  }

  lemma {:induction false} NoEquals(s: string)
    requires '=' !in s
    ensures Cut(s, "=") == None
    decreases |s|
  {
    if s != "" {
      NoEquals(s[1..]);
      CutNext(s[0], s[1..]);
      assert [s[0]] + s[1..] == s;
    }
  }

  /** A quoted argument reaches rclone without its quotes, and the scan never
      sees a dry run in it. */
  lemma QuotedIsMissed(arg: string)
    requires forall i :: 0 <= i < |arg| ==> !IsSpace(arg[i])
    ensures Lex(Quote(arg)) == Some([Text(Chars(arg, true))]) && Field(Chars(arg, true)) == Some(arg)
    ensures !ScanDry(false, Fields(Quote(arg)))
  {
    QuotedArgument(arg);
    PositionalSaysNothing(Quote(arg));
    ArgSays(false, Quote(arg));
    ScanFirst(false, Quote(arg), []);
    assert [Quote(arg)] + [] == [Quote(arg)];
  }
}
