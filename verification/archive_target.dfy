/** --archive-file values (internal/archive/target.go and the sidecar's name in
    internal/bucketstorage/archive.go): how they are expanded, split and read,
    and that printing and parsing undo each other. */
module ArchiveTarget {
  import opened ArchiveNames
  import opened Outcome
  import opened Text

  datatype TargetError = NoValue | LonePercent | UnknownToken | BadBucket | NoClaim | NoPath | BadExtension

  datatype Target = Target(claim: string, bucket: string, path: string, compression: string)

  // ---- timestamps

  /** The six fields of a moment, as time.Format prints them. */
  datatype Clock = Clock(year: string, month: string, day: string, hour: string, minute: string, second: string)

  function Token(c: char, now: Clock): Option<string> {
    match c
    case 'Y' => Some(now.year)
    case 'm' => Some(now.month)
    case 'd' => Some(now.day)
    case 'H' => Some(now.hour)
    case 'M' => Some(now.minute)
    case 'S' => Some(now.second)
    case _ => None
  }

  /** What one step of the expansion writes, and how far it reads. */
  function Piece(value: string, now: Clock): (r: Result<(string, nat), TargetError>)
    requires value != ""
    ensures r.Ok? ==> 0 < r.value.1 <= |value|
  {
    if value[0] != '%' then Ok((value[..1], 1))
    else if |value| == 1 then Err(LonePercent)
    else if value[1] == '%' then Ok(("%", 2))
    else
      match Token(value[1], now)
      case None => Err(UnknownToken)
      case Some(text) => Ok((text, 2))
  }

  function Expand(value: string, now: Clock): Result<string, TargetError>
    decreases |value|
  {
    if value == "" then Ok("")
    else
      match Piece(value, now)
      case Err(e) => Err(e)
      case Ok((text, read)) =>
        match Expand(value[read..], now)
        case Err(e) => Err(e)
        case Ok(more) => Ok(text + more)
  }

  method ExpandTime(value: string, now: Clock) returns (r: Result<string, TargetError>)
    ensures r == Expand(value, now)
  {
    var built := "";
    var index := 0;
    assert value[0..] == value && forall more: string :: built + more == more;
    while index < |value|
      invariant 0 <= index <= |value|
      invariant Expand(value, now) ==
                match Expand(value[index..], now)
                case Err(e) => Err(e)
                case Ok(more) => Ok(built + more)
      decreases |value| - index
    {
      ghost var rest := value[index..];
      if value[index] != '%' {
        assert rest[1..] == value[index + 1..] && rest[..1] == [value[index]];
        Reassociate(built, [value[index]]);
        built := built + [value[index]];
        index := index + 1;
        continue;
      }
      if index + 1 >= |value| {
        return Err(LonePercent);
      }
      index := index + 1;
      assert rest[1] == value[index] && rest[2..] == value[index + 1..];
      if value[index] == '%' {
        Reassociate(built, "%");
        built := built + "%";
      } else {
        var text := Token(value[index], now);
        if text.None? {
          return Err(UnknownToken);
        }
        Reassociate(built, text.value);
        built := built + text.value;
      }
      index := index + 1;
    }
    assert value[index..] == "" && built + "" == built;
    return Ok(built);
  }

  lemma Reassociate(a: string, b: string)
    ensures forall c: string :: a + (b + c) == a + b + c
  {}

  /** Text in front that expands by itself expands as it did. */
  lemma {:induction false} ExpandCat(a: string, b: string, now: Clock)
    requires Expand(a, now).Ok?
    ensures Expand(a + b, now) ==
            match Expand(b, now) case Err(e) => Err(e) case Ok(more) => Ok(Expand(a, now).value + more)
    decreases |a|
  {
    if a == "" {
      assert a + b == b;
      if Expand(b, now).Ok? {
        assert "" + Expand(b, now).value == Expand(b, now).value;
      }
    } else {
      var (text, read) := Piece(a, now).value;
      PieceOfFront(a, b, now);
      assert (a + b)[read..] == a[read..] + b;
      ExpandCat(a[read..], b, now);
      if Expand(b, now).Ok? {
        Reassociate(text, Expand(a[read..], now).value);
      }
    }
  }

  lemma PieceOfFront(a: string, b: string, now: Clock)
    requires a != "" && Piece(a, now).Ok?
    ensures Piece(a + b, now) == Piece(a, now)
  {
    assert (a + b)[..1] == a[..1];
  }

  function Doubled(s: string): string {
    if s == "" then "" else (if s[0] == '%' then "%%" else [s[0]]) + Doubled(s[1..])
  }

  /** A text with its percent signs doubled means itself, at any time. */
  lemma {:induction false} DoubledIsLiteral(s: string, now: Clock)
    ensures Expand(Doubled(s), now) == Ok(s)
  {
    if s != "" {
      var first := if s[0] == '%' then "%%" else [s[0]];
      assert first[|first|..] == "" && first[..1] == [first[0]];
      assert Expand(first, now) == Ok([s[0]] + "");
      ExpandCat(first, Doubled(s[1..]), now);
      DoubledIsLiteral(s[1..], now);
      assert [s[0]] + "" + s[1..] == s;
    }
  }

  /** The letters are those of strftime: a date and a time, by field. */
  lemma DateIsWritten(now: Clock)
    ensures Expand("%Y-%m-%d", now) == Ok(now.year + "-" + now.month + "-" + now.day)
    ensures Expand("%H:%M:%S", now) == Ok(now.hour + ":" + now.minute + ":" + now.second)
  {
    ThreeFields('Y', now.year, '-', 'm', now.month, 'd', now.day, now);
    ThreeFields('H', now.hour, ':', 'M', now.minute, 'S', now.second, now);
  }

  const ESCAPES := {'%', 'Y', 'm', 'd', 'H', 'M', 'S'}

  /** A percent sign is refused at the end, and in front of any other character
      than these; one of them never is. */
  lemma EscapesAreKnown(a: string, c: char, rest: string, now: Clock)
    requires Expand(a, now).Ok?
    ensures Expand(a + "%", now) == Err(LonePercent)
    ensures c !in ESCAPES ==> Expand(a + (['%', c] + rest), now) == Err(UnknownToken)
    ensures c in ESCAPES ==> (Expand(a + (['%', c] + rest), now).Ok? <==> Expand(rest, now).Ok?)
  {
    ExpandCat(a, "%", now);
    ExpandCat(a, ['%', c] + rest, now);
    assert (['%', c] + rest)[2..] == rest;
  }

  lemma ThreeFields(a: char, x: string, between: char, b: char, y: string, c: char, z: string, now: Clock)
    requires Token(a, now) == Some(x) && Token(b, now) == Some(y) && Token(c, now) == Some(z)
    requires a != '%' && b != '%' && c != '%' && between != '%'
    ensures Expand(['%', a, between, '%', b, between, '%', c], now) == Ok(x + [between] + y + [between] + z)
  {
    FieldFirst(c, z, "", now);
    PlainFirst(between, ['%', c], now);
    FieldFirst(b, y, [between, '%', c], now);
    PlainFirst(between, ['%', b, between, '%', c], now);
    FieldFirst(a, x, [between, '%', b, between, '%', c], now);
    assert ['%', a] + [between, '%', b, between, '%', c] == ['%', a, between, '%', b, between, '%', c];
    assert [between] + ['%', b, between, '%', c] == [between, '%', b, between, '%', c];
    assert ['%', b] + [between, '%', c] == ['%', b, between, '%', c];
    assert [between] + ['%', c] == [between, '%', c] && ['%', c] + "" == ['%', c] && z + "" == z;
    assert x + ([between] + (y + ([between] + z))) == x + [between] + y + [between] + z;
  }

  lemma FieldFirst(letter: char, text: string, rest: string, now: Clock)
    requires letter != '%' && Token(letter, now) == Some(text)
    ensures Expand(['%', letter] + rest, now) ==
            match Expand(rest, now) case Err(e) => Err(e) case Ok(more) => Ok(text + more)
  {
    assert (['%', letter] + rest)[2..] == rest;
  }

  lemma PlainFirst(c: char, rest: string, now: Clock)
    requires c != '%'
    ensures Expand([c] + rest, now) ==
            match Expand(rest, now) case Err(e) => Err(e) case Ok(more) => Ok([c] + more)
  {
    assert ([c] + rest)[1..] == rest && ([c] + rest)[..1] == [c];
  }

  // ---- locations

  const S3_SCHEME := "s3:" + "//"

  function SplitLocation(value: string): Result<Target, TargetError> {
    if HasPrefix(value, S3_SCHEME) then
      match Cut(value[|S3_SCHEME|..], "/")
      case None => Err(BadBucket)
      case Some((bucket, key)) => if bucket == "" || key == "" then Err(BadBucket) else Ok(Target("", bucket, key, ""))
    else
      match Cut(value, ":")
      case None => Ok(Target("", "", value, ""))
      case Some((claim, path)) =>
        if '/' in claim then Ok(Target("", "", value, ""))
        else if claim == "" then Err(NoClaim)
        else Ok(Target(claim, "", path, ""))
  }

  function Print(t: Target): string {
    if t.bucket != "" then S3_SCHEME + (t.bucket + "/" + t.path)
    else if t.claim != "" then t.claim + ":" + t.path
    else t.path
  }

  /** What the cluster and S3 allow for names. */
  predicate Valid(t: Target) {
    && (t.claim == "" || t.bucket == "")
    && '/' !in t.claim && ':' !in t.claim && '/' !in t.bucket
    && (t.bucket != "" ==> t.path != "")
  }

  /** A claim called s3 with a path of two slashes reads as a bucket, and a bare
      path with a colon before its first slash as a claim. */
  predicate Ambiguous(t: Target) {
    t.bucket == "" &&
    if t.claim != "" then t.claim == "s3" && HasPrefix(t.path, "//")
    else match Cut(t.path, ":") case None => false case Some((front, _)) => '/' !in front
  }

  lemma NotHolding(s: string, c: char)
    requires c !in s
    ensures !Contains(s, [c])
  {
    forall i: nat | i <= |s| ensures !At(s, [c], i) {
      if At(s, [c], i) {
        AtChar(s, [c], i, i);
      }
    }
  }

  lemma CutAtChar(front: string, c: char, back: string)
    requires c !in front
    ensures Cut(front + [c] + back, [c]) == Some((front, back))
  {
    NotHolding(front, c);
    CutFirst(front, [c], back);
  }

  lemma PrefixCat(a: string, b: string)
    ensures HasPrefix(a + b, a) && (a + b)[|a|..] == b
  {}

  /** Printed and read again, a target is itself: exactly the ambiguous ones are
      not. */
  lemma PrintedIsRead(t: Target)
    requires Valid(t) && t.compression == "" && t.path != ""
    ensures SplitLocation(Print(t)) == Ok(t) <==> !Ambiguous(t)
  {
    if t.bucket != "" {
      PrefixCat(S3_SCHEME, t.bucket + "/" + t.path);
      CutAtChar(t.bucket, '/', t.path);
    } else if t.claim != "" {
      CutAtChar(t.claim, ':', t.path);
      ClaimOrBucket(t.claim, t.path);
    } else {
      if HasPrefix(t.path, S3_SCHEME) {
        SchemeHasColon(t.path);
      }
    }
  }

  lemma {:induction false} CutAtSlash(s: string)
    ensures match Cut(s, "/") case None => '/' !in s case Some((a, b)) => '/' !in a && s == a + "/" + b
    decreases |s|
  {
    if s != "" && s[0] != '/' {
      CutAtSlash(s[1..]);
      assert s == [s[0]] + s[1..];
    } else if s != "" {
      assert s[..1] == "/" && s == "" + "/" + s[1..];
    }
  }

  /** The first slash is neither at the start nor at the end. */
  lemma BucketAndKey(s: string)
    ensures (match Cut(s, "/") case None => false case Some((bucket, key)) => bucket != "" && key != "") <==>
            |s| > 1 && s[0] != '/' && '/' in s[1..|s| - 1]
  {
    CutAtSlash(s);
    if Cut(s, "/").Some? {
      var (bucket, key) := Cut(s, "/").value;
      assert s[|bucket|] == '/';
      if bucket != "" {
        assert s[0] == bucket[0];
        if key != "" {
          assert s[1..|s| - 1][|bucket| - 1] == '/';
        } else {
          assert s[1..|s| - 1] == bucket[1..];
        }
      }
    }
  }

  /** A bucket and a key are both needed, a claim before its colon too, and
      nothing else is refused here. */
  lemma RefusedLocations(value: string)
    ensures HasPrefix(value, "s3://") ==>
              (SplitLocation(value).Ok? <==> |value| > 6 && value[5] != '/' && '/' in value[6..|value| - 1])
    ensures !HasPrefix(value, "s3://") ==> (SplitLocation(value).Ok? <==> value == "" || value[0] != ':')
    ensures SplitLocation(value) != Err(NoPath)
  {
    assert S3_SCHEME == "s3://";
    if HasPrefix(value, S3_SCHEME) {
      BucketAndKey(value[5..]);
      assert |value| > 6 ==> value[5..][1..|value| - 6] == value[6..|value| - 1];
    } else {
      assert HasPrefix(value, ":") <==> value != "" && value[0] == ':';
    }
  }

  lemma ClaimOrBucket(claim: string, path: string)
    requires claim != "" && ':' !in claim
    ensures HasPrefix(claim + ":" + path, S3_SCHEME) <==> claim == "s3" && HasPrefix(path, "//")
  {
    var s := claim + ":" + path;
    PrefixAt(s, S3_SCHEME);
    PrefixAt(path, "//");
    assert s[|claim|] == ':' && S3_SCHEME[0] == 's' && S3_SCHEME[1] == '3' && S3_SCHEME[2] == ':';
    assert S3_SCHEME[3] == '/' && S3_SCHEME[4] == '/' && |S3_SCHEME| == 5;
    if At(s, S3_SCHEME, 0) {
      assert s[0 + 2] == ':' && s[0 + 0] == 's' && s[0 + 1] == '3' && s[0 + 3] == '/' && s[0 + 4] == '/';
      assert |claim| == 2 && claim == "s3" && path[0] == '/' && path[1] == '/';
    }
    if claim == "s3" && HasPrefix(path, "//") {
      assert s[..5] == S3_SCHEME;
    }
  }

  lemma SchemeHasColon(path: string)
    requires HasPrefix(path, S3_SCHEME)
    ensures Cut(path, ":") == Some(("s3", path[3..]))
  {
    assert path[..5][..2] == "s3" && path[..5][2] == ':';
    assert path == "s3" + [':'] + path[3..];
    CutAtChar("s3", ':', path[3..]);
  }

  /** Whatever is accepted can be printed back as it was given. */
  lemma ReadIsPrinted(value: string)
    requires SplitLocation(value).Ok?
    ensures Print(SplitLocation(value).value) == value
  {
    if HasPrefix(value, S3_SCHEME) {
      CutSplits(value[|S3_SCHEME|..], "/");
      assert value == S3_SCHEME + value[|S3_SCHEME|..];
    } else if Cut(value, ":").Some? {
      CutSplits(value, ":");
    }
  }

  // ---- extensions

  /** The extensions, longest first, and the compression each stands for. */
  const SUFFIXES := [(".tar.zst", ZSTD), (".tzst", ZSTD), (".tar.gz", GZIP), (".tgz", GZIP), (".tar", NONE)]

  function FirstSuffix(table: seq<(string, string)>, path: string): (r: Option<(string, string)>)
    ensures r.Some? ==> HasSuffix(path, r.value.0)
  {
    if table == [] then None
    else if HasSuffix(path, table[0].0) then Some(table[0])
    else FirstSuffix(table[1..], path)
  }

  function CompressionFromPath(path: string): Result<string, TargetError> {
    match FirstSuffix(SUFFIXES, path)
    case None => Err(BadExtension)
    case Some(entry) => Ok(entry.1)
  }

  const METADATA_SUFFIX := ".meta.yaml"

  function SidecarPath(path: string): string {
    match FirstSuffix(SUFFIXES, path)
    case None => path + METADATA_SUFFIX
    case Some(entry) => path[..|path| - |entry.0|] + METADATA_SUFFIX
  }

  predicate SameEntries(a: seq<(string, string)>, b: seq<(string, string)>) {
    (forall e <- a :: e in b) && forall e <- b :: e in a
  }

  /** No extension of the table ends in another. */
  predicate Separate(table: seq<(string, string)>) {
    forall i, j :: 0 <= i < |table| && 0 <= j < |table| && HasSuffix(table[i].0, table[j].0) ==> table[i] == table[j]
  }

  /** The last and the fourth last character tell the extensions apart. */
  function Mark(ext: string): (char, char)
    requires |ext| >= 4
  {
    (ext[|ext| - 1], ext[|ext| - 4])
  }

  lemma SameMark(long: string, short: string)
    requires |short| >= 4 && HasSuffix(long, short)
    ensures Mark(long) == Mark(short)
  {
    var tail := long[|long| - |short|..];
    assert tail[|tail| - 1] == long[|long| - 1] && tail[|tail| - 4] == long[|long| - 4];
  }

  lemma MarksDiffer(i: nat, j: nat)
    requires i < |SUFFIXES| && j < |SUFFIXES|
    ensures |SUFFIXES[i].0| >= 4 && (Mark(SUFFIXES[i].0) == Mark(SUFFIXES[j].0) ==> i == j)
  {
    assert Mark(".tar.zst") == ('t', '.') && Mark(".tzst") == ('t', 't');
    assert Mark(".tar.gz") == ('z', 'r') && Mark(".tgz") == ('z', '.') && Mark(".tar") == ('r', '.');
  }

  lemma TableIsSeparate()
    ensures Separate(SUFFIXES)
  {
    forall i, j | 0 <= i < |SUFFIXES| && 0 <= j < |SUFFIXES| && HasSuffix(SUFFIXES[i].0, SUFFIXES[j].0)
      ensures SUFFIXES[i] == SUFFIXES[j]
    {
      MarksDiffer(i, j);
      MarksDiffer(j, i);
      SameMark(SUFFIXES[i].0, SUFFIXES[j].0);
    }
  }

  lemma {:induction false} FirstSuffixFits(table: seq<(string, string)>, path: string)
    ensures FirstSuffix(table, path).Some? ==>
              FirstSuffix(table, path).value in table && HasSuffix(path, FirstSuffix(table, path).value.0)
    ensures FirstSuffix(table, path).None? ==> forall e <- table :: !HasSuffix(path, e.0)
  {
    if table != [] && !HasSuffix(path, table[0].0) {
      FirstSuffixFits(table[1..], path);
      assert forall e <- table :: e == table[0] || e in table[1..];
    }
  }

  lemma SuffixOfSuffix(path: string, long: string, short: string)
    requires HasSuffix(path, long) && HasSuffix(path, short) && |short| <= |long|
    ensures HasSuffix(long, short)
  {
    assert path[|path| - |long|..][|long| - |short|..] == path[|path| - |short|..];
  }

  /** A path has at most one of the extensions, so the order they are looked up
      in does not matter, neither for the compression nor for the stem. */
  lemma OrderDoesNotMatter(table: seq<(string, string)>, path: string)
    requires SameEntries(table, SUFFIXES)
    ensures FirstSuffix(table, path) == FirstSuffix(SUFFIXES, path)
  {
    FirstSuffixFits(table, path);
    FirstSuffixFits(SUFFIXES, path);
    TableIsSeparate();
    var a, b := FirstSuffix(table, path), FirstSuffix(SUFFIXES, path);
    if a.Some? && b.Some? {
      if |a.value.0| <= |b.value.0| {
        SuffixOfSuffix(path, b.value.0, a.value.0);
      } else {
        SuffixOfSuffix(path, a.value.0, b.value.0);
      }
    }
  }

  /** Two archives share a sidecar exactly when they are the same but for their
      extensions. */
  lemma SidecarsMeet(stem: string, other: string, ext: (string, string), ext2: (string, string))
    requires ext in SUFFIXES && ext2 in SUFFIXES
    ensures SidecarPath(stem + ext.0) == SidecarPath(other + ext2.0) <==> stem == other
  {
    SidecarOf(stem, ext);
    SidecarOf(other, ext2);
    var a, b := stem + METADATA_SUFFIX, other + METADATA_SUFFIX;
    if a == b {
      assert a[..|stem|] == stem && b[..|other|] == other;
    }
  }

  lemma SidecarOf(stem: string, ext: (string, string))
    requires ext in SUFFIXES
    ensures SidecarPath(stem + ext.0) == stem + METADATA_SUFFIX
    ensures CompressionFromPath(stem + ext.0) == Ok(ext.1)
  {
    var path := stem + ext.0;
    assert path[|path| - |ext.0|..] == ext.0;
    FirstSuffixFits(SUFFIXES, path);
    TableIsSeparate();
    var found := FirstSuffix(SUFFIXES, path).value;
    if |found.0| <= |ext.0| {
      SuffixOfSuffix(path, ext.0, found.0);
    } else {
      SuffixOfSuffix(path, found.0, ext.0);
    }
    assert path[..|path| - |ext.0|] == stem;
  }

  // ---- the whole value

  function ParseTarget(value: string, now: Clock): Result<Target, TargetError> {
    if value == "" then Err(NoValue)
    else
      match Expand(value, now)
      case Err(e) => Err(e)
      case Ok(expanded) =>
        match SplitLocation(expanded)
        case Err(e) => Err(e)
        case Ok(target) =>
          if target.path == "" then Err(NoPath)
          else
            match CompressionFromPath(target.path)
            case Err(e) => Err(e)
            case Ok(compression) => Ok(target.(compression := compression))
  }

  /** A target whose path has an extension, printed with its percent signs
      doubled, is parsed back to itself at any time, exactly if its spelling is
      not ambiguous. */
  lemma ParseInvertsPrint(t: Target, now: Clock)
    requires Valid(t) && CompressionFromPath(t.path) == Ok(t.compression)
    ensures ParseTarget(Doubled(Print(t)), now) == Ok(t) <==> !Ambiguous(t)
  {
    var plain := t.(compression := "");
    assert t.path != "" by { NoExtension(); }
    assert Print(t) == Print(plain) && (Ambiguous(t) <==> Ambiguous(plain));
    DoubledIsLiteral(Print(t), now);
    PrintedIsRead(plain);
    assert Print(t) != "" && Doubled(Print(t)) != "";
    var read := SplitLocation(Print(t));
    if read.Ok? && ParseTarget(Doubled(Print(t)), now) == Ok(t) {
      ReadHasNoCompression(Print(t));
      assert read.value == plain;
    }
  }

  lemma ReadHasNoCompression(value: string)
    requires SplitLocation(value).Ok?
    ensures SplitLocation(value).value.compression == ""
  {}

  lemma NoExtension()
    ensures CompressionFromPath("").Err?
  {
    FirstSuffixFits(SUFFIXES, "");
  }
}
