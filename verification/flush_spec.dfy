/** Reading a MySQL or MariaDB identity, and the lock that follows from it
    (internal/flush/spec.go). */
module FlushSpec {
  import opened Decimal
  import opened FlushClient
  import opened Outcome
  import opened Text
  import opened Trim

  const IDENTITY_PREFIX := "pv-migrate-server="
  const IDENTITY_END := "|pv-migrate-end"

  datatype IdentityError = NotSaid | CutShort

  function ParseIdentity(output: string): Result<string, IdentityError> {
    match Cut(output, IDENTITY_PREFIX)
    case None => Err(NotSaid)
    case Some((_, rest)) =>
      match Cut(rest, IDENTITY_END)
      case None => Err(CutShort)
      case Some((answer, _)) => Ok(answer)
  }

  /** The output says this: it is what stands between the first prefix and the
      first end after it. */
  ghost predicate Says(output: string, answer: string) {
    exists before, rest, after ::
      FirstSplit(output, IDENTITY_PREFIX, before, rest) && FirstSplit(rest, IDENTITY_END, answer, after)
  }

  /** The answer is what the output says, whatever was printed around it; without
      a prefix nothing was said, and without an end it was cut short. */
  lemma IdentityIsRead(output: string, answer: string)
    ensures ParseIdentity(output) == Ok(answer) <==> Says(output, answer)
    ensures ParseIdentity(output) == Err(NotSaid) <==> !Contains(output, IDENTITY_PREFIX)
    ensures ParseIdentity(output) == Err(CutShort) <==>
              exists before, rest :: FirstSplit(output, IDENTITY_PREFIX, before, rest) && !Contains(rest, IDENTITY_END)
  {
    forall before, rest
      ensures Cut(output, IDENTITY_PREFIX) == Some((before, rest)) <==>
                FirstSplit(output, IDENTITY_PREFIX, before, rest)
    {
      CutIsFirst(output, IDENTITY_PREFIX, before, rest);
    }
    CutIsFirst(output, IDENTITY_PREFIX, "", "");
    if Cut(output, IDENTITY_PREFIX).Some? {
      var rest := Cut(output, IDENTITY_PREFIX).value.1;
      CutIsFirst(rest, IDENTITY_END, "", "");
      forall said, after
        ensures Cut(rest, IDENTITY_END) == Some((said, after)) <==> FirstSplit(rest, IDENTITY_END, said, after)
      {
        CutIsFirst(rest, IDENTITY_END, said, after);
      }
    }
  }

  lemma SaysOnce(output: string, answer: string, other: string)
    requires Says(output, answer) && Says(output, other)
    ensures answer == other
  {
    IdentityIsRead(output, answer);
    IdentityIsRead(output, other);
  }

  /** What has been said stays said as more is printed. */
  lemma SaysLater(output: string, more: string, answer: string)
    requires Says(output, answer)
    ensures Says(output + more, answer)
  {
    var before, rest, after :|
      FirstSplit(output, IDENTITY_PREFIX, before, rest) && FirstSplit(rest, IDENTITY_END, answer, after);
    FirstSplitLater(output, IDENTITY_PREFIX, before, rest, more);
    FirstSplitLater(rest, IDENTITY_END, answer, after, more);
  }

  lemma SaysUntrimmed(output: string, answer: string)
    requires Says(TrimSpace(output), answer)
    ensures Says(output, answer)
  {
    var front, back := TrimSpaceIs(output);
    var trimmed := TrimSpace(output);
    var before, rest, after :|
      FirstSplit(trimmed, IDENTITY_PREFIX, before, rest) && FirstSplit(rest, IDENTITY_END, answer, after);
    assert !IsSpace(IDENTITY_PREFIX[0]);
    FirstSplitBehind(front, trimmed, IDENTITY_PREFIX, before, rest);
    SaysLater(front + trimmed, back, answer);
  }

  // ---- numbers, as strconv.Atoi

  const MAX_INT := 0x7fff_ffff_ffff_ffff

  function Atoi(s: string): Option<int> {
    var unsigned := if s != "" && (s[0] == '-' || s[0] == '+') then s[1..] else s;
    if !AllDigits(unsigned) then None
    else
      var n: int := DigitsValue(unsigned);
      if s[0] == '-' then if n > MAX_INT + 1 then None else Some(-n)
      else if n > MAX_INT then None else Some(n)
  }

  lemma AtoiReadsBack(n: nat)
    ensures Atoi(Digits(n)) == if n <= MAX_INT then Some(n) else None
  {
    DigitsReadBack(n);
  }

  // ---- versions

  function DigitsUntil(s: string): (n: nat)
    ensures n <= |s| && forall i :: 0 <= i < n ==> IsDigit(s[i])
  {
    if s != "" && IsDigit(s[0]) then 1 + DigitsUntil(s[1..]) else 0
  }

  const OLD_CLIENT_PREFIX := "5.5.5-"
  const MARIADB := "MariaDB"
  const PERCONA := "Percona"

  /** Two numbers from the front of a version; a MariaDB behind a proxy shows
      them after 5.5.5-. */
  function LeadingVersion(raw: string): Option<(int, int)> {
    var trimmed := TrimSpace(raw);
    var version :=
      if HasPrefix(trimmed, OLD_CLIENT_PREFIX) && Contains(trimmed[|OLD_CLIENT_PREFIX|..], MARIADB)
      then trimmed[|OLD_CLIENT_PREFIX|..] else trimmed;
    match Cut(version, ".")
    case None => None
    case Some((majorPart, rest)) =>
      match (Atoi(majorPart), Atoi(rest[..DigitsUntil(rest)]))
      case (Some(major), Some(minor)) => Some((major, minor))
      case _ => None
  }

  predicate AtLeast(major: int, minor: int, wantMajor: int, wantMinor: int) {
    major > wantMajor || (major == wantMajor && minor >= wantMinor)
  }

  /** The version and the comment of an identity. */
  function Parts(identity: string): (string, string) {
    match Cut(identity, "|")
    case None => (identity, "")
    case Some(parts) => parts
  }

  function ChooseMySQLLock(identity: string): (lock: Option<Lock>)
    ensures lock.Some? ==> lock.value in LOCKS
  {
    var (version, comment) := Parts(identity);
    match LeadingVersion(version)
    case None => None
    case Some((major, minor)) =>
      Some(if Contains(version, MARIADB) then if AtLeast(major, minor, 10, 4) then BACKUP_STAGE else READ_LOCK
           else if major >= 8 then LOCK_INSTANCE
           else if Contains(comment, PERCONA) && major == 5 && minor >= 7 then LOCK_TABLES
           else READ_LOCK)
  }

  // ---- a version as a server prints it is read back

  lemma {:induction false} StopsAfter(digits: string, more: string)
    requires forall i :: 0 <= i < |digits| ==> IsDigit(digits[i])
    requires more != "" ==> !IsDigit(more[0])
    ensures DigitsUntil(digits + more) == |digits|
  {
    if digits == "" {
      assert digits + more == more;
    } else {
      assert (digits + more)[1..] == digits[1..] + more;
      StopsAfter(digits[1..], more);
    }
  }

  /** How a server prints its version: two numbers and whatever follows. */
  function Printed(major: nat, minor: nat, more: string): string { Digits(major) + "." + (Digits(minor) + more) }

  lemma NoDot(n: nat)
    ensures !Contains(Digits(n), ".")
  {
    forall i: nat | i <= |Digits(n)| ensures !At(Digits(n), ".", i) {
      if At(Digits(n), ".", i) {
        AtChar(Digits(n), ".", i, i);
      }
    }
  }

  predicate ReadsAs(version: string, major: int, minor: int) { LeadingVersion(version) == Some((major, minor)) }

  /** Read as what it is, and as what it is behind a proxy's prefix. */
  lemma VersionIsRead(major: nat, minor: nat, more: string)
    requires major <= MAX_INT && minor <= MAX_INT
    requires more != "" ==> !IsDigit(more[0]) && !IsSpace(more[|more| - 1])
    ensures !HasPrefix(Printed(major, minor, more), OLD_CLIENT_PREFIX) ==>
            ReadsAs(Printed(major, minor, more), major, minor)
    ensures Contains(Printed(major, minor, more), MARIADB) ==>
              ReadsAs(OLD_CLIENT_PREFIX + Printed(major, minor, more), major, minor)
  {
    var version := Printed(major, minor, more);
    PrintedParts(major, minor, more);
    PrintedIsTrimmed(major, minor, more);
    TrimmedStays(version);
    if Contains(version, MARIADB) {
      PrefixIsSkipped(version);
    }
  }

  lemma PrefixIsSkipped(version: string)
    requires Trimmed(version) && version != "" && Contains(version, MARIADB)
    ensures var trimmed := TrimSpace(OLD_CLIENT_PREFIX + version);
            HasPrefix(trimmed, OLD_CLIENT_PREFIX) && trimmed[|OLD_CLIENT_PREFIX|..] == version
  {
    var prefixed := OLD_CLIENT_PREFIX + version;
    assert prefixed[|prefixed| - 1] == version[|version| - 1] && prefixed[0] == '5';
    TrimmedStays(prefixed);
  }

  lemma PrintedIsTrimmed(major: nat, minor: nat, more: string)
    requires more != "" ==> !IsSpace(more[|more| - 1])
    ensures Trimmed(Printed(major, minor, more))
  {
    var version := Printed(major, minor, more);
    assert version[0] == Digits(major)[0];
    assert version[|version| - 1] == if more == "" then Digits(minor)[|Digits(minor)| - 1] else more[|more| - 1];
  }

  lemma PrintedParts(major: nat, minor: nat, more: string)
    requires major <= MAX_INT && minor <= MAX_INT
    requires more != "" ==> !IsDigit(more[0])
    ensures Cut(Printed(major, minor, more), ".") == Some((Digits(major), Digits(minor) + more))
    ensures Atoi(Digits(major)) == Some(major)
    ensures var rest := Digits(minor) + more; Atoi(rest[..DigitsUntil(rest)]) == Some(minor)
  {
    NoDot(major);
    CutFirst(Digits(major), ".", Digits(minor) + more);
    StopsAfter(Digits(minor), more);
    assert (Digits(minor) + more)[..|Digits(minor)|] == Digits(minor);
    AtoiReadsBack(major);
    AtoiReadsBack(minor);
  }

  // ---- the lock is one the server has

  /** A server, by what it is and its version. */
  datatype Server = Server(maria: bool, percona: bool, major: int, minor: int)

  /** Which server has which statement, from the oldest on. */
  predicate Has(server: Server, lock: Lock) {
    if lock == LOCK_INSTANCE then !server.maria && server.major >= 8
    else if lock == LOCK_TABLES then !server.maria && server.percona && server.major == 5 && server.minor >= 7
    else if lock == BACKUP_STAGE then server.maria && (server.major > 10 || (server.major == 10 && server.minor >= 4))
    else lock == READ_LOCK
  }

  function ServerOf(identity: string): Option<Server> {
    var (version, comment) := Parts(identity);
    match LeadingVersion(version)
    case None => None
    case Some((major, minor)) => Some(Server(Contains(version, MARIADB), Contains(comment, PERCONA), major, minor))
  }

  /** The identity is one a server can be told by, and the lock one that server
      has, the heavy one only if it has no other. */
  predicate Fits(identity: string, lock: Lock) {
    ServerOf(identity).Some? &&
    var server := ServerOf(identity).value;
    lock in LOCKS && Has(server, lock) &&
    (lock == READ_LOCK ==> forall other <- LOCKS :: Has(server, other) ==> other == READ_LOCK)
  }

  /** A lock is chosen exactly if the server's version can be read, and then it
      fits, as no other lock does. */
  lemma ChosenLockFits(identity: string, other: Lock)
    ensures ChooseMySQLLock(identity).Some? <==> ServerOf(identity).Some?
    ensures ChooseMySQLLock(identity) == Some(other) <==> Fits(identity, other)
  {
    LocksDiffer();
    if ServerOf(identity).Some? {
      LockIsHad(identity);
    }
  }

  lemma LockIsHad(identity: string)
    requires ServerOf(identity).Some?
    ensures var lock := ChooseMySQLLock(identity);
            lock.Some? && forall other <- LOCKS :: Has(ServerOf(identity).value, other) <==>
              other == lock.value || other == READ_LOCK
  {
    LocksDiffer();
  }

  /** How a server tells its version and comment is how they are read. */
  lemma ServerIsRead(major: nat, minor: nat, more: string, comment: string)
    requires major <= MAX_INT && minor <= MAX_INT && '|' !in more
    requires more != "" ==> !IsDigit(more[0]) && !IsSpace(more[|more| - 1])
    requires !HasPrefix(Printed(major, minor, more), OLD_CLIENT_PREFIX)
    ensures var version := Printed(major, minor, more);
            ServerOf(version + "|" + comment) ==
            Some(Server(Contains(version, MARIADB), Contains(comment, PERCONA), major, minor))
  {
    var version := Printed(major, minor, more);
    VersionIsRead(major, minor, more);
    assert '|' !in Digits(major) && '|' !in Digits(minor);
    assert '|' !in version;
    NoBar(version);
    CutFirst(version, "|", comment);
  }

  lemma NoBar(version: string)
    requires '|' !in version
    ensures !Contains(version, "|")
  {
    forall i: nat | i <= |version| ensures !At(version, "|", i) {
      if At(version, "|", i) {
        AtChar(version, "|", i, i);
      }
    }
  }

  // ---- the lock a session may take

  /** A lock that fits what the output says of the server. */
  ghost predicate Chosen(output: string, lock: Lock) {
    exists identity :: Says(output, identity) && Fits(identity, lock)
  }

  lemma ChosenLater(output: string, later: string, lock: Lock)
    requires Chosen(output, lock) && output <= later
    ensures Chosen(later, lock)
  {
    var identity :| Says(output, identity) && Fits(identity, lock);
    SaysLater(output, later[|output|..], identity);
    assert output + later[|output|..] == later;
  }

  /** What the output says is all there is to go by: with a version that cannot
      be read, or for another server, the lock is not this one. */
  lemma ChosenFitsWhatIsSaid(output: string, identity: string, lock: Lock)
    requires Chosen(output, lock) && Says(output, identity)
    ensures Fits(identity, lock)
  {
    var other :| Says(output, other) && Fits(other, lock);
    SaysOnce(output, identity, other);
  }

  /** The lock read off an output, trimmed as it is. */
  function LockFor(output: string): Option<Lock> {
    match ParseIdentity(TrimSpace(output))
    case Err(_) => None
    case Ok(identity) => ChooseMySQLLock(identity)
  }

  lemma LockForIsChosen(output: string)
    ensures LockFor(output).Some? ==> Chosen(output, LockFor(output).value)
  {
    var read := ParseIdentity(TrimSpace(output));
    if LockFor(output).Some? {
      IdentityIsRead(TrimSpace(output), read.value);
      ChosenLockFits(read.value, LockFor(output).value);
      SaysUntrimmed(output, read.value);
    }
  }

  lemma LocksDiffer()
    ensures LOCK_INSTANCE != LOCK_TABLES && LOCK_INSTANCE != READ_LOCK && LOCK_INSTANCE != BACKUP_STAGE
    ensures LOCK_TABLES != READ_LOCK && LOCK_TABLES != BACKUP_STAGE && READ_LOCK != BACKUP_STAGE
  {
    assert LOCK_INSTANCE.statement[5] == 'I' && LOCK_TABLES.statement[5] == 'T' && READ_LOCK.statement[5] == ' ';
    assert BACKUP_STAGE.statement[5] == 'P';
  }

  // ---- what a server answers to the statements

  /** An operand of CONCAT: a text, or something the server knows of itself. */
  datatype Operand = Words(text: string) | Version | VersionComment

  function Spelled(o: Operand): string {
    match o
    case Words(text) => "'" + text + "'"
    case Version => "@@version"
    case VersionComment => "@@version_comment"
  }

  function Listed(os: seq<Operand>): string {
    if os == [] then "" else if |os| == 1 then Spelled(os[0]) else Spelled(os[0]) + ", " + Listed(os[1..])
  }

  function Select(os: seq<Operand>): string { "SELECT CONCAT(" + Listed(os) + ");" }

  function Row(os: seq<Operand>, version: string, comment: string): string {
    if os == [] then ""
    else
      var first := match os[0] case Words(text) => text case Version => version case VersionComment => comment;
      first + Row(os[1..], version, comment)
  }

  const PROBE_OPERANDS := [Words("pv-migrate"), Words("-quiesced")]

  const IDENTIFY_OPERANDS := [
    Words("pv-migrate"), Words("-server="), Version, Words("|"), VersionComment, Words("|pv-migrate"), Words("-end")
  ]

  /** The answer to the probe is the marker that is waited for. */
  lemma ProbeSaysMarker(version: string, comment: string)
    ensures PROBE == Select(PROBE_OPERANDS) && Row(PROBE_OPERANDS, version, comment) == MARKER
  {
    var a, b := Words("pv-migrate"), Words("-quiesced");
    assert PROBE_OPERANDS == [a] + [b];
    ListedNext(a, [b]);
    WordsSpelled();
    RowNext(a, [b], version, comment);
    RowOne(a, version, comment);
    RowOne(b, version, comment);
    assert PROBE == "SELECT CONCAT(" + ("'pv-migrate'" + ", " + "'-quiesced'") + ");";
  }

  lemma WordsSpelled()
    ensures Spelled(Words("pv-migrate")) == "'pv-migrate'" && Spelled(Words("-quiesced")) == "'-quiesced'"
    ensures Spelled(Words("-server=")) == "'-server='" && Spelled(Words("|")) == "'|'"
    ensures Spelled(Words("|pv-migrate")) == "'|pv-migrate'" && Spelled(Words("-end")) == "'-end'"
  {}

  lemma ListedNext(o: Operand, os: seq<Operand>)
    requires os != []
    ensures Listed([o] + os) == Spelled(o) + ", " + Listed(os)
  {
    assert ([o] + os)[1..] == os;
  }

  lemma RowOne(o: Operand, version: string, comment: string)
    ensures Row([o], version, comment) ==
            match o case Words(text) => text case Version => version case VersionComment => comment
  {
    assert [o][1..] == [];
    assert forall s: string :: s + "" == s;
  }

  lemma RowNext(o: Operand, os: seq<Operand>, version: string, comment: string)
    ensures Row([o] + os, version, comment) == Row([o], version, comment) + Row(os, version, comment)
  {
    assert ([o] + os)[1..] == os && [o][1..] == [];
  }

  /** The answer to the identity query is the version and the comment, between
      the prefix and the end that are looked for. */
  lemma IdentifySaysServer(version: string, comment: string)
    ensures IDENTIFY == Select(IDENTIFY_OPERANDS)
    ensures Row(IDENTIFY_OPERANDS, version, comment) == IDENTITY_PREFIX + (version + "|" + comment) + IDENTITY_END
  {
    var o := IDENTIFY_OPERANDS;
    assert o == [o[0]] + ([o[1]] + ([o[2]] + ([o[3]] + ([o[4]] + ([o[5]] + [o[6]])))));
    SevenListed(o[0], o[1], o[2], o[3], o[4], o[5], o[6]);
    SevenInRow(o[0], o[1], o[2], o[3], o[4], o[5], o[6], version, comment);
    WordsSpelled();
    assert "pv-migrate" + "-server=" == IDENTITY_PREFIX && "|pv-migrate" + "-end" == IDENTITY_END;
    Regrouped("pv-migrate", "-server=", version, "|", comment, "|pv-migrate", "-end");
  }

  lemma SevenListed(a: Operand, b: Operand, c: Operand, d: Operand, e: Operand, f: Operand, g: Operand)
    ensures Listed([a] + ([b] + ([c] + ([d] + ([e] + ([f] + [g])))))) ==
            Spelled(a) + ", " + (Spelled(b) + ", " + (Spelled(c) + ", " + (Spelled(d) + ", " +
            (Spelled(e) + ", " + (Spelled(f) + ", " + Spelled(g))))))
  {
    ListedNext(f, [g]);
    ListedNext(e, [f] + [g]);
    ListedNext(d, [e] + ([f] + [g]));
    ListedNext(c, [d] + ([e] + ([f] + [g])));
    ListedNext(b, [c] + ([d] + ([e] + ([f] + [g]))));
    ListedNext(a, [b] + ([c] + ([d] + ([e] + ([f] + [g])))));
  }

  lemma SevenInRow(a: Operand, b: Operand, c: Operand, d: Operand, e: Operand, f: Operand, g: Operand,
                   version: string, comment: string)
    requires a.Words? && b.Words? && c.Version? && d.Words? && e.VersionComment? && f.Words? && g.Words?
    ensures Row([a] + ([b] + ([c] + ([d] + ([e] + ([f] + [g]))))), version, comment) ==
            a.text + (b.text + (version + (d.text + (comment + (f.text + g.text)))))
  {
    RowNext(f, [g], version, comment);
    RowNext(e, [f] + [g], version, comment);
    RowNext(d, [e] + ([f] + [g]), version, comment);
    RowNext(c, [d] + ([e] + ([f] + [g])), version, comment);
    RowNext(b, [c] + ([d] + ([e] + ([f] + [g]))), version, comment);
    RowNext(a, [b] + ([c] + ([d] + ([e] + ([f] + [g])))), version, comment);
    RowOne(a, version, comment);
    RowOne(b, version, comment);
    RowOne(c, version, comment);
    RowOne(d, version, comment);
    RowOne(e, version, comment);
    RowOne(f, version, comment);
    RowOne(g, version, comment);
  }

  lemma Regrouped(a: string, b: string, c: string, d: string, e: string, f: string, g: string)
    ensures a + (b + (c + (d + (e + (f + g))))) == (a + b) + (c + d + e) + (f + g)
  {}

  /** So a server that is asked is read right, whatever else its client printed. */
  lemma AnswerIsRead(before: string, version: string, comment: string, after: string)
    requires !Contains(before, IDENTITY_PREFIX) && !Contains(version + "|" + comment, IDENTITY_END)
    ensures Says(before + Row(IDENTIFY_OPERANDS, version, comment) + after, version + "|" + comment)
  {
    IdentifySaysServer(version, comment);
    BetweenIsSaid(before, version + "|" + comment, after);
  }

  lemma BetweenIsSaid(before: string, answer: string, after: string)
    requires !Contains(before, IDENTITY_PREFIX) && !Contains(answer, IDENTITY_END)
    ensures Says(before + (IDENTITY_PREFIX + answer + IDENTITY_END) + after, answer)
  {
    LastsDiffer();
    var rest := answer + IDENTITY_END + after;
    CutFirst(before, IDENTITY_PREFIX, rest);
    CutFirst(answer, IDENTITY_END, after);
    CutIsFirst(before + IDENTITY_PREFIX + rest, IDENTITY_PREFIX, before, rest);
    CutIsFirst(rest, IDENTITY_END, answer, after);
    SaidGlued(before, IDENTITY_PREFIX, answer, IDENTITY_END, after);
  }

  lemma SaidGlued(a: string, b: string, c: string, d: string, e: string)
    ensures a + (b + c + d) + e == a + b + (c + d + e)
  {}

  /** The last characters of both are nowhere else in them. */
  lemma LastsDiffer()
    ensures forall k :: 0 <= k < |IDENTITY_PREFIX| - 1 ==> IDENTITY_PREFIX[k] != IDENTITY_PREFIX[|IDENTITY_PREFIX| - 1]
    ensures forall k :: 0 <= k < |IDENTITY_END| - 1 ==> IDENTITY_END[k] != IDENTITY_END[|IDENTITY_END| - 1]
  {}
}
