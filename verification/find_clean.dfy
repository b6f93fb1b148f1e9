/** What the clean command deletes (internal/archive/cmd.go): the arguments of
    its find are read and evaluated over the paths below the directory, with the
    patterns of IEEE Std 1003.1, Shell Command Language, section 2.13. */
module FindClean {
  import opened ArchiveParts
  import opened Decimal
  import opened GoPath
  import opened Outcome

  const LOST_FOUND := "lost+found"

  // ---- patterns

  /** A piece of a pattern. What -path matches against has its slashes matched
      like any other character. */
  datatype Glob = Any | One | Lit(c: char) | Within(members: string)

  /** Where the bracket expression at the front ends, if it does: its first
      member may be a closing bracket. */
  function BracketEnd(p: string): (end: Option<nat>)
    requires p != ""
    ensures end.Some? ==> 2 <= end.value < |p| && p[end.value] == ']'
  {
    var first := if |p| > 1 && (p[1] == '!' || p[1] == '^') then 2 else 1;
    ClosingFrom(p, first + 1)
  }

  function ClosingFrom(p: string, i: nat): (end: Option<nat>)
    ensures end.Some? ==> i <= end.value < |p| && p[end.value] == ']'
    ensures end.None? ==> forall k :: i <= k < |p| ==> p[k] != ']'
    decreases |p| - i
  {
    if i >= |p| then None else if p[i] == ']' then Some(i) else ClosingFrom(p, i + 1)
  }

  /** How much of the pattern its first piece takes up. */
  function Width(p: string): (n: nat)
    requires p != ""
    ensures 1 <= n
  {
    if p[0] == '\\' then 2 else if p[0] == '[' && BracketEnd(p).Some? then BracketEnd(p).value + 1 else 1
  }

  /** A backslash makes the next character literal, and a bracket that is never
      closed is literal. */
  function Piece(p: string): Glob
    requires p != "" && Width(p) <= |p|
  {
    if p[0] == '\\' then Lit(p[1])
    else if p[0] == '[' && BracketEnd(p).Some? then Within(p[1..BracketEnd(p).value])
    else if p[0] == '*' then Any
    else if p[0] == '?' then One
    else Lit(p[0])
  }

  /** A pattern that ends in the middle of an escape matches nothing. */
  function ReadGlob(p: string): Option<seq<Glob>>
    decreases |p|
  {
    if p == "" then Some([]) else if Width(p) > |p| then None else Then(Piece(p), ReadGlob(p[Width(p)..]))
  }

  function Then(first: Glob, rest: Option<seq<Glob>>): Option<seq<Glob>> {
    match rest case None => None case Some(more) => Some([first] + more)
  }

  predicate AmongMembers(members: string, c: char)
    decreases |members|
  {
    if members == "" then false
    else if |members| >= 3 && members[1] == '-' then
      members[0] <= c <= members[2] || AmongMembers(members[3..], c)
    else members[0] == c || AmongMembers(members[1..], c)
  }

  predicate FitsOne(g: Glob, c: char) {
    match g
    case Any => true
    case One => true
    case Lit(d) => c == d
    case Within(members) =>
      if members != "" && (members[0] == '!' || members[0] == '^') then !AmongMembers(members[1..], c)
      else AmongMembers(members, c)
  }

  predicate Matches(t: seq<Glob>, s: string)
    decreases |t|
  {
    if t == [] then s == ""
    else if t[0].Any? then exists k :: 0 <= k <= |s| && Matches(t[1..], s[k..])
    else s != "" && FitsOne(t[0], s[0]) && Matches(t[1..], s[1..])
  }

  predicate Globs(pattern: string, s: string) {
    match ReadGlob(pattern) case None => false case Some(t) => Matches(t, s)
  }

  // ---- find

  datatype Primary = NotPath(pattern: string) | Delete

  datatype Find = Find(start: string, minDepth: nat, expression: seq<Primary>)

  /** The arguments as find reads them: a directory, and then primaries joined
      by an and that stops at the first that is false. */
  function ReadFind(argv: seq<string>): Option<Find> {
    if |argv| < 2 || argv[0] != "find" || argv[1] == "" || argv[1][0] == '-' then None
    else ReadPrimaries(argv[2..], Find(argv[1], 0, []))
  }

  function ReadPrimaries(args: seq<string>, f: Find): Option<Find>
    decreases |args|
  {
    if args == [] then Some(f)
    else if args[0] == "-mindepth" then
      if |args| < 2 || !AllDigits(args[1]) then None
      else ReadPrimaries(args[2..], f.(minDepth := DigitsValue(args[1])))
    else if args[0] == "-not" then
      if |args| < 3 || args[1] != "-path" then None
      else ReadPrimaries(args[3..], f.(expression := f.expression + [NotPath(args[2])]))
    else if args[0] == "-delete" then ReadPrimaries(args[1..], f.(expression := f.expression + [Delete]))
    else None
  }

  /** The path a find that starts there gives a file so far below. */
  function FindName(start: string, names: seq<string>): string { Below(start) + JoinSlash(names) }

  function Below(start: string): string { if start != "" && start[|start| - 1] == '/' then start else start + "/" }

  predicate ReachesDelete(expression: seq<Primary>, name: string)
    decreases |expression|
  {
    expression != [] &&
    match expression[0]
    case Delete => true
    case NotPath(pattern) => !Globs(pattern, name) && ReachesDelete(expression[1..], name)
  }

  predicate Deletes(f: Find, name: string, depth: nat) { depth >= f.minDepth && ReachesDelete(f.expression, name) }

  // ---- reading patterns, piece by piece

  /** Every character of the text stands for itself or for any one: no star, no
      escape, and no bracket that is closed. */
  predicate Harmless(p: string) {
    forall i :: 0 <= i < |p| ==> p[i] != '*' && p[i] != '\\' && (p[i] == '[' ==> BracketEnd(p[i..]).None?)
  }

  lemma WidthFits(p: string)
    requires p != "" && p[|p| - 1] != '\\'
    ensures Width(p) <= |p|
  {}

  lemma {:induction false} GlobIsRead(p: string)
    requires p == "" || p[|p| - 1] != '\\'
    ensures ReadGlob(p).Some? && |ReadGlob(p).value| <= |p|
    decreases |p|
  {
    if p != "" {
      WidthFits(p);
      var rest := p[Width(p)..];
      assert rest != "" ==> rest[|rest| - 1] == p[|p| - 1];
      GlobIsRead(rest);
    }
  }

  /** A closing bracket that is not in the text behind cannot be found there. */
  lemma {:induction false} ClosingInFront(a: string, b: string, i: nat)
    requires ']' !in b
    ensures ClosingFrom(a + b, i) == ClosingFrom(a, i)
    decreases |a| + |b| - i
  {
    if i < |a + b| {
      ClosingInFront(a, b, i + 1);
    }
  }

  lemma BracketInFront(a: string, b: string)
    requires a != "" && ']' !in b
    ensures BracketEnd(a + b) == BracketEnd(a)
  {
    var first := if |a + b| > 1 && ((a + b)[1] == '!' || (a + b)[1] == '^') then 2 else 1;
    ClosingInFront(a, b, first + 1);
    if |a| == 1 {
      assert ClosingFrom(a, 2).None? && ClosingFrom(a, 3).None?;
    }
  }

  lemma PieceInFront(a: string, b: string)
    requires a != "" && a[|a| - 1] != '\\' && ']' !in b
    ensures Width(a + b) == Width(a) <= |a| && Piece(a + b) == Piece(a)
  {
    BracketInFront(a, b);
    if a[0] == '[' && BracketEnd(a).Some? {
      assert (a + b)[1..BracketEnd(a).value] == a[1..BracketEnd(a).value];
    }
  }

  /** A pattern behind another one, if no bracket reaches across. */
  lemma {:induction false} GlobOfBoth(a: string, b: string)
    requires (a == "" || a[|a| - 1] != '\\') && ']' !in b && ReadGlob(b).Some?
    ensures ReadGlob(a).Some? && ReadGlob(a + b) == Some(ReadGlob(a).value + ReadGlob(b).value)
    decreases |a|
  {
    if a == "" {
      assert a + b == b && [] + ReadGlob(b).value == ReadGlob(b).value;
    } else {
      PieceInFront(a, b);
      var n := Width(a);
      var rest := a[n..];
      assert rest != "" ==> rest[|rest| - 1] == a[|a| - 1];
      assert (a + b)[n..] == rest + b;
      GlobOfBoth(rest, b);
      PieceGlued(Piece(a), ReadGlob(rest).value, ReadGlob(b).value);
    }
  }

  lemma PieceGlued(first: Glob, rest: seq<Glob>, more: seq<Glob>)
    ensures [first] + (rest + more) == [first] + rest + more
  {}

  lemma HarmlessNext(p: string)
    requires p != ""
    ensures Harmless(p) <==>
            p[0] != '*' && p[0] != '\\' && (p[0] == '[' ==> BracketEnd(p).None?) && Harmless(p[1..])
  {
    assert p[0..] == p;
    assert forall i :: 0 <= i < |p| - 1 ==> p[1..][i..] == p[i + 1..];
    if Harmless(p) {
      forall i | 0 <= i < |p| - 1 && p[1..][i] == '[' ensures BracketEnd(p[1..][i..]).None? {
        assert BracketEnd(p[i + 1..]).None?;
      }
    }
    if Harmless(p[1..]) {
      forall i | 0 < i < |p| && p[i] == '[' ensures BracketEnd(p[i..]).None? {
        assert p[1..][i - 1] == p[i];
      }
    }
  }

  predicate Fixed(t: seq<Glob>) { forall i :: 0 <= i < |t| ==> !t[i].Any? }

  /** A harmless text is a pattern of as many pieces as it has characters. */
  lemma {:induction false} HarmlessGlob(p: string)
    requires p == "" || p[|p| - 1] != '\\'
    ensures ReadGlob(p).Some? && |ReadGlob(p).value| <= |p|
    ensures var t := ReadGlob(p).value;
            && (Fixed(t) && |t| == |p| <==> Harmless(p))
            && (Harmless(p) ==> forall i :: 0 <= i < |p| ==> t[i] == if p[i] == '?' then One else Lit(p[i]))
    decreases |p|
  {
    GlobIsRead(p);
    if p != "" {
      var rest := p[Width(p)..];
      assert rest != "" ==> rest[|rest| - 1] == p[|p| - 1];
      HarmlessGlob(rest);
      HarmlessNext(p);
      var t, more := ReadGlob(p).value, ReadGlob(rest).value;
      assert t[0] == Piece(p) && t[1..] == more && |t| == 1 + |more|;
      FixedNext(t);
      if Harmless(p) {
        assert Width(p) == 1 && rest == p[1..];
        forall i | 0 < i < |p| ensures t[i] == if p[i] == '?' then One else Lit(p[i]) {
          assert t[i] == more[i - 1] && p[i] == rest[i - 1];
        }
      }
    }
  }

  lemma FixedNext(t: seq<Glob>)
    requires t != []
    ensures Fixed(t) <==> !t[0].Any? && Fixed(t[1..])
  {
    assert forall i :: 0 < i < |t| ==> t[i] == t[1..][i - 1];
  }

  function Lits(s: string): seq<Glob> { seq(|s|, i requires 0 <= i < |s| => Lit(s[i])) }

  predicate Plainly(p: string) { forall i :: 0 <= i < |p| ==> p[i] !in {'*', '?', '[', '\\', ']'} }

  lemma {:induction false} PlainGlob(p: string)
    requires Plainly(p)
    ensures ReadGlob(p) == Some(Lits(p))
  {
    if p != "" {
      PlainGlob(p[1..]);
      assert Width(p) == 1 && Piece(p) == Lit(p[0]);
      assert [Lit(p[0])] + Lits(p[1..]) == Lits(p);
    }
  }

  // ---- matching

  predicate FitsFront(t: seq<Glob>, s: string) {
    |t| <= |s| && forall i :: 0 <= i < |t| ==> FitsOne(t[i], s[i])
  }

  lemma FitsNext(t: seq<Glob>, s: string)
    requires t != [] && s != ""
    ensures FitsFront(t, s) <==> FitsOne(t[0], s[0]) && FitsFront(t[1..], s[1..])
  {
    if FitsFront(t[1..], s[1..]) && FitsOne(t[0], s[0]) {
      forall i | 0 < i < |t| ensures FitsOne(t[i], s[i]) {
        assert t[1..][i - 1] == t[i] && s[1..][i - 1] == s[i];
      }
    }
  }

  /** Pieces without a star in front, and then a star: some of the text is
      skipped. */
  lemma {:induction false} StarSkips(t: seq<Glob>, rest: seq<Glob>, s: string, k: nat)
    requires Fixed(t) && FitsFront(t, s) && |t| <= k <= |s| && Matches(rest, s[k..])
    ensures Matches(t + [Any] + rest, s)
  {
    if t == [] {
      assert ([Any] + rest)[1..] == rest && t + [Any] + rest == [Any] + rest;
    } else {
      FitsNext(t, s);
      FixedNext(t);
      assert s[1..][k - 1..] == s[k..];
      StarSkips(t[1..], rest, s[1..], k - 1);
      assert (t + [Any] + rest)[1..] == t[1..] + [Any] + rest;
    }
  }

  lemma {:induction false} SkippedByStar(t: seq<Glob>, rest: seq<Glob>, s: string) returns (k: nat)
    requires Fixed(t) && Matches(t + [Any] + rest, s)
    ensures FitsFront(t, s) && |t| <= k <= |s| && Matches(rest, s[k..])
  {
    var all := t + [Any] + rest;
    if t == [] {
      assert all[1..] == rest && all[0] == Any;
      k :| 0 <= k <= |s| && Matches(all[1..], s[k..]);
    } else {
      assert all[1..] == t[1..] + [Any] + rest && all[0] == t[0];
      FixedNext(t);
      k := SkippedByStar(t[1..], rest, s[1..]);
      FitsNext(t, s);
      assert s[1..][k..] == s[k + 1..];
      k := k + 1;
    }
  }

  lemma {:induction false} FixedMatches(t: seq<Glob>, s: string)
    requires Fixed(t)
    ensures Matches(t, s) <==> |s| == |t| && FitsFront(t, s)
  {
    if t != [] {
      FixedNext(t);
      if s != "" {
        FixedMatches(t[1..], s[1..]);
        FitsNext(t, s);
      }
    }
  }

  lemma FrontMatches(t: seq<Glob>, s: string)
    requires Fixed(t)
    ensures Matches(t + [Any], s) <==> FitsFront(t, s)
  {
    assert t + [Any] + [] == t + [Any];
    if FitsFront(t, s) {
      assert Matches([], s[|s|..]);
      StarSkips(t, [], s, |s|);
    }
    if Matches(t + [Any], s) {
      var _ := SkippedByStar(t, [], s);
    }
  }

  // ---- what is kept below a directory

  /** The two patterns of the clean command, piece by piece. */
  function KeptGlob(t: seq<Glob>, name: string): seq<Glob> { t + Lits(name) }

  function KeptBelowGlob(t: seq<Glob>, name: string): seq<Glob> { t + Lits(name + "/") + [Any] }

  lemma KeptIsRead(base: string, name: string)
    requires base != "" && base[|base| - 1] == '/' && name != "" && Plainly(name)
    ensures ReadGlob(base).Some?
    ensures ReadGlob(base + name) == Some(KeptGlob(ReadGlob(base).value, name))
    ensures ReadGlob(base + name + "/*") == Some(KeptBelowGlob(ReadGlob(base).value, name))
  {
    GlobIsRead(base);
    PlainGlob(name);
    GlobOfBoth(base, name);
    PlainGlob(name + "/");
    GlobOfBoth(base, name + "/");
    StarRead();
    GlobOfBoth(base + (name + "/"), "*");
    assert base + (name + "/") + "*" == base + name + "/*";
  }

  lemma StarRead()
    ensures ReadGlob("*") == Some([Any])
  {
    assert "*"[1..] == "" && [Any] + [] == [Any];
  }

  predicate Kept(t: seq<Glob>, name: string, path: string) {
    Matches(KeptGlob(t, name), path) || Matches(KeptBelowGlob(t, name), path)
  }

  /** Of what lies below the directory, exactly this name and what is below it is
      kept. */
  ghost predicate KeepsOnly(t: seq<Glob>, base: string, name: string) {
    forall names :: names != [] && AllNormal(names) ==>
      (Kept(t, name, base + JoinSlash(names)) <==> names[0] == name)
  }

  predicate StartsWith(s: string, front: string) { |front| <= |s| && s[..|front|] == front }

  lemma FirstOfJoined(names: seq<string>, name: string)
    requires names != [] && AllNormal(names) && NoSlash(name)
    ensures names[0] == name <==> JoinSlash(names) == name || StartsWith(JoinSlash(names), name + "/")
  {
    var rest, first := JoinSlash(names), names[0];
    if |names| > 1 {
      var more := JoinSlash(names[1..]);
      assert rest == first + "/" + more && rest[|first|] == '/';
      if first == name {
        assert rest[..|name| + 1] == name + "/";
      }
    }
    if StartsWith(rest, name + "/") {
      assert rest[|name|] == rest[..|name| + 1][|name|] == '/';
      assert forall i :: 0 <= i < |name| ==> rest[i] == rest[..|name| + 1][i] == name[i];
      assert |names| > 1;
      assert |first| == |name|;
      assert first == rest[..|first|] == name;
    }
  }

  /** Pieces that are each the text's own fit it in front of anything. */
  lemma HarmlessKeeps(base: string, t: seq<Glob>, name: string, rest: string)
    requires base != "" && base[|base| - 1] == '/' && Harmless(base) && ReadGlob(base) == Some(t)
    ensures Kept(t, name, base + rest) <==> rest == name || StartsWith(rest, name + "/")
  {
    HarmlessFits(base, t, base + rest);
    FittingKeeps(t, name, base + rest, rest);
  }

  lemma HarmlessFits(base: string, t: seq<Glob>, s: string)
    requires base != "" && base[|base| - 1] == '/' && Harmless(base) && ReadGlob(base) == Some(t) && base <= s
    ensures Fixed(t) && FitsFront(t, s) && |t| == |base|
  {
    HarmlessGlob(base);
    forall i | 0 <= i < |t| ensures FitsOne(t[i], s[i]) {
      assert s[i] == base[i];
    }
  }

  lemma FittingKeeps(t: seq<Glob>, name: string, s: string, rest: string)
    requires Fixed(t) && FitsFront(t, s) && s[|t|..] == rest
    ensures Kept(t, name, s) <==> rest == name || StartsWith(rest, name + "/")
  {
    NameMatches(t, name, s, rest);
    LitsAreFixed(t, name + "/");
    FrontMatches(t + Lits(name + "/"), s);
    LitsFit(t, name + "/", s);
    FrontOfRest(s, |t|, rest, name + "/");
  }

  lemma NameMatches(t: seq<Glob>, name: string, s: string, rest: string)
    requires Fixed(t) && FitsFront(t, s) && s[|t|..] == rest
    ensures Matches(KeptGlob(t, name), s) <==> rest == name
  {
    LitsAreFixed(t, name);
    FixedMatches(KeptGlob(t, name), s);
    LitsFit(t, name, s);
    FrontOfRest(s, |t|, rest, name);
  }

  lemma LitsAreFixed(t: seq<Glob>, name: string)
    requires Fixed(t)
    ensures Fixed(t + Lits(name))
  {}

  lemma FrontOfRest(s: string, n: nat, rest: string, name: string)
    requires n <= |s| && s[n..] == rest
    ensures n + |name| <= |s| && s[n..n + |name|] == name <==> StartsWith(rest, name)
    ensures StartsWith(rest, name) && |rest| == |name| <==> rest == name
  {
    if n + |name| <= |s| {
      assert s[n..n + |name|] == rest[..|name|];
    }
    if |rest| == |name| {
      assert rest[..|name|] == rest;
    }
  }

  lemma LitsFit(t: seq<Glob>, text: string, s: string)
    requires |t| <= |s| && forall i :: 0 <= i < |t| ==> FitsOne(t[i], s[i])
    ensures FitsFront(t + Lits(text), s) <==> |t| + |text| <= |s| && s[|t|..|t| + |text|] == text
  {
    var all := t + Lits(text);
    if FitsFront(all, s) {
      forall i | 0 <= i < |text| ensures s[|t| + i] == text[i] {
        assert FitsOne(all[|t| + i], s[|t| + i]);
      }
    }
    if |t| + |text| <= |s| && s[|t|..|t| + |text|] == text {
      forall i | |t| <= i < |all| ensures FitsOne(all[i], s[i]) {
        assert s[i] == s[|t|..|t| + |text|][i - |t|];
      }
    }
  }

  // ---- a pattern that is not harmless keeps the wrong files

  lemma {:induction false} JoinComponents(p: string)
    ensures JoinSlash(Components(p)) == p
    decreases |p|
  {
    if p != "" {
      var rest := Components(p[1..]);
      JoinComponents(p[1..]);
      assert p == [p[0]] + p[1..];
      if p[0] == '/' {
        assert ([""] + rest)[1..] == rest;
      } else {
        assert ([[p[0]] + rest[0]] + rest[1..])[1..] == rest[1..];
      }
    }
  }

  /** The components of the end of a text are the text's, but for the first. */
  lemma {:induction false} TailComponents(s: string, k: nat)
    requires k <= |s|
    ensures forall c <- Components(s[k..])[1..] :: c in Components(s)[1..]
    decreases k
  {
    if k == 0 {
      assert s[0..] == s;
    } else {
      assert s[1..][k - 1..] == s[k..];
      TailComponents(s[1..], k - 1);
      var rest := Components(s[1..]);
      if s[0] == '/' {
        assert Components(s)[1..] == rest;
        assert forall c <- rest[1..] :: c in rest;
      } else {
        assert Components(s)[1..] == rest[1..];
      }
    }
  }

  /** Any end of a path, behind another letter, is a path to some other file. */
  lemma OtherFile(s: string, k: nat) returns (names: seq<string>)
    requires k <= |s| && forall c <- Components(s)[1..] :: Normal(c)
    ensures names != [] && AllNormal(names) && names[0][0] == 'x' && JoinSlash(names) == "x" + s[k..]
  {
    var end := s[k..];
    names := Components("x" + end);
    ComponentsNext('x', end);
    JoinComponents("x" + end);
    ComponentsNoSlash("x" + end);
    TailComponents(s, k);
    assert names[1..] == Components(end)[1..] && names[0] == "x" + Components(end)[0];
    forall i | 0 <= i < |names| ensures Normal(names[i]) {
      if i > 0 {
        assert names[i] == names[1..][i - 1] && names[i] in Components(end)[1..];
      }
    }
  }

  /** Where the first star stands. */
  function FirstStar(t: seq<Glob>): (n: nat)
    ensures n <= |t| && Fixed(t[..n]) && (n < |t| ==> t[n].Any?)
    ensures Fixed(t) <==> n == |t|
  {
    if t == [] || t[0].Any? then 0
    else
      var n := FirstStar(t[1..]);
      assert t[..n + 1] == [t[0]] + t[1..][..n];
      assert Fixed(t) <==> Fixed(t[1..]) by { FixedNext(t); }
      n + 1
  }

  /** A star in the directory's own name also covers files elsewhere in it. */
  lemma StarKeepsOther(base: string, t: seq<Glob>, more: seq<Glob>, path: string) returns (names: seq<string>)
    requires base <= path && !Fixed(t) && |t| <= |base| && Matches(t + more, path)
    requires forall c <- Components(path)[1..] :: Normal(c)
    ensures names != [] && AllNormal(names) && names[0][0] == 'x' && Matches(t + more, base + JoinSlash(names))
  {
    var n := FirstStar(t);
    var front, back := t[..n], t[n + 1..] + more;
    assert t + more == front + [Any] + back;
    var k := SkippedByStar(front, back, path);
    names := OtherFile(path, k);
    var other := base + JoinSlash(names);
    assert other == base + "x" + path[k..] && other[|base| + 1..] == path[k..];
    assert forall i :: 0 <= i < n ==> other[i] == path[i];
    StarSkips(front, back, other, |base| + 1);
  }

  /** Without a star, a pattern shorter than its text misses what it names. */
  lemma ShortKeepsWrong(base: string, t: seq<Glob>, name: string) returns (names: seq<string>)
    requires base != "" && base[|base| - 1] == '/' && Fixed(t) && |t| < |base| && Normal(name) && name[0] != 'x'
    ensures names != [] && AllNormal(names)
    ensures !(Kept(t, name, base + JoinSlash(names)) <==> names[0] == name)
  {
    var path, below := base + name, t + Lits(name + "/");
    LitsAreFixed(t, name);
    LitsAreFixed(t, name + "/");
    FixedMatches(KeptGlob(t, name), path);
    FrontMatches(below, path);
    names := [name];
    if Kept(t, name, path) {
      assert FitsOne(below[|t| + |name|], path[|t| + |name|]) && path[|t| + |name|] == '/';
      assert |below| <= |base|;
      names := ["x"];
      var other := base + "x";
      assert forall i :: 0 <= i < |below| ==> other[i] == path[i];
      FrontMatches(below, other);
    }
  }

  /** Exactly a harmless directory name keeps exactly what it should. */
  lemma KeepsExactly(base: string, t: seq<Glob>, name: string)
    requires base != "" && base[|base| - 1] == '/' && ReadGlob(base) == Some(t)
    requires Normal(name) && name[0] != 'x' && forall c <- Components(base + name)[1..] :: Normal(c)
    ensures KeepsOnly(t, base, name) <==> Harmless(base)
  {
    HarmlessGlob(base);
    if Harmless(base) {
      forall names | names != [] && AllNormal(names)
        ensures Kept(t, name, base + JoinSlash(names)) <==> names[0] == name
      {
        HarmlessKeeps(base, t, name, JoinSlash(names));
        FirstOfJoined(names, name);
      }
    } else if Fixed(t) {
      var names := ShortKeepsWrong(base, t, name);
    } else {
      StarKeepsWrong(base, t, name);
    }
  }

  lemma StarKeepsWrong(base: string, t: seq<Glob>, name: string)
    requires !Fixed(t) && |t| <= |base|
    requires Normal(name) && name[0] != 'x' && forall c <- Components(base + name)[1..] :: Normal(c)
    ensures !KeepsOnly(t, base, name)
  {
    var path := base + name;
    assert JoinSlash([name]) == name && AllNormal([name]);
    if Matches(KeptGlob(t, name), path) {
      var names := StarKeepsOther(base, t, Lits(name), path);
      assert Kept(t, name, base + JoinSlash(names));
    } else if Matches(KeptBelowGlob(t, name), path) {
      assert KeptBelowGlob(t, name) == t + (Lits(name + "/") + [Any]);
      var names := StarKeepsOther(base, t, Lits(name + "/") + [Any], path);
      assert Kept(t, name, base + JoinSlash(names));
    } else {
      assert !Kept(t, name, base + JoinSlash([name]));
    }
  }

  // ---- the clean command

  /** A path as it is handed on: absolute and cleaned, or with the slash behind
      it that asks for contents. */
  predicate Resolved(path: string) {
    IsAbs(path) && (path == Clean(path) || (path == Clean(path) + "/" && Place(path) != []))
  }

  lemma ResolvedIs(path: string)
    requires Resolved(path)
    ensures GoPath.Join(path, LOST_FOUND) == Below(path) + LOST_FOUND
    ensures Below(path)[|Below(path)| - 1] == '/'
    ensures forall c <- Components(Below(path) + LOST_FOUND)[1..] :: Normal(c)
  {
    var stack := Place(path);
    PlaceIsPlain(path);
    LostFoundNormal();
    JoinedIs(path, stack, LOST_FOUND);
    SpelledBelow(path, stack);
    SpelledNormal(stack + [LOST_FOUND]);
  }

  lemma JoinedIs(path: string, stack: seq<string>, name: string)
    requires IsAbs(path) && Place(path) == stack && Normal(name)
    ensures GoPath.Join(path, name) == Spell(true, stack + [name])
  {
    PlaceOfCat(path, name);
    ComponentsOne(name);
    assert [name][1..] == [];
    assert Walk(true, stack, [name]) == stack + [name];
  }

  lemma SpelledNormal(stack: seq<string>)
    requires stack != [] && AllNormal(stack)
    ensures forall c <- Components(Spell(true, stack))[1..] :: Normal(c)
  {
    JoinedIsRelative(true, stack);
    RootedComponents(JoinSlash(stack));
  }

  lemma LostFoundNormal()
    ensures Normal(LOST_FOUND) && LOST_FOUND[0] != 'x' && Plainly(LOST_FOUND)
  {}

  lemma SpelledBelow(path: string, stack: seq<string>)
    requires AllNormal(stack)
    requires path == Spell(true, stack) || (path == Spell(true, stack) + "/" && stack != [])
    ensures Below(path) + LOST_FOUND == Spell(true, stack + [LOST_FOUND])
    ensures Below(path)[|Below(path)| - 1] == '/'
  {
    if stack == [] {
      assert stack + [LOST_FOUND] == [LOST_FOUND] && "/" + "" == "/";
    } else {
      var spelled := Spell(true, stack);
      JoinCat(stack, [LOST_FOUND]);
      JoinEnds(stack);
      assert spelled[|spelled| - 1] == JoinSlash(stack)[|JoinSlash(stack)| - 1];
      assert Below(path) == spelled + "/";
      assert spelled + "/" + LOST_FOUND == "/" + (JoinSlash(stack) + "/" + LOST_FOUND);
    }
  }

  lemma {:induction false} JoinEnds(stack: seq<string>)
    requires stack != [] && AllNormal(stack)
    ensures JoinSlash(stack) != "" && JoinSlash(stack)[|JoinSlash(stack)| - 1] != '/'
  {
    if |stack| > 1 {
      JoinEnds(stack[1..]);
    }
  }

  /** What find reads of the clean command's arguments. */
  lemma CleanIsRead(path: string)
    requires path != "" && path[0] == '/'
    ensures var kept := GoPath.Join(path, LOST_FOUND);
            ReadFind(CleanArgs(path)) == Some(Find(path, 1, [NotPath(kept), NotPath(kept + "/*"), Delete]))
  {
    var kept := GoPath.Join(path, LOST_FOUND);
    var tests := ["-not", "-path"] + [kept] + (["-not", "-path"] + [kept + "/*"]) + ["-delete"];
    assert CleanArgs(path)[..2] == ["find", path] && CleanArgs(path)[2..] == ["-mindepth", "1"] + tests;
    ReadDepth(tests, Find(path, 0, []));
    ReadTests(kept, kept + "/*", Find(path, 1, []));
    var expression := [NotPath(kept), NotPath(kept + "/*"), Delete];
    assert [] + expression == expression;
  }

  lemma ReadDepth(tests: seq<string>, f: Find)
    ensures ReadPrimaries(["-mindepth", "1"] + tests, f) == ReadPrimaries(tests, f.(minDepth := 1))
  {
    OneIsRead();
    assert (["-mindepth", "1"] + tests)[2..] == tests;
  }

  lemma ReadTests(a: string, b: string, f: Find)
    ensures ReadPrimaries(["-not", "-path"] + [a] + (["-not", "-path"] + [b]) + ["-delete"], f) ==
            Some(f.(expression := f.expression + [NotPath(a), NotPath(b), Delete]))
  {
    var last := ["-not", "-path", b] + ["-delete"];
    assert ["-not", "-path"] + [a] + (["-not", "-path"] + [b]) + ["-delete"] == ["-not", "-path", a] + last;
    ReadKept(a, last, f);
    var g := f.(expression := f.expression + [NotPath(a)]);
    ReadKept(b, ["-delete"], g);
    var h := g.(expression := g.expression + [NotPath(b)]);
    assert ["-delete"][1..] == [];
    assert h.expression + [Delete] == f.expression + [NotPath(a), NotPath(b), Delete];
  }

  lemma OneIsRead()
    ensures AllDigits("1") && DigitsValue("1") == 1
  {
    DigitsReadBack(1);
  }

  lemma ReadKept(pattern: string, rest: seq<string>, f: Find)
    ensures ReadPrimaries(["-not", "-path", pattern] + rest, f) ==
            ReadPrimaries(rest, f.(expression := f.expression + [NotPath(pattern)]))
  {
    assert (["-not", "-path", pattern] + rest)[3..] == rest;
  }

  /** Of everything below the directory, all but lost+found and what is in it
      goes, and the directory stays. */
  ghost predicate Empties(f: Find, path: string) {
    && !Deletes(f, path, 0)
    && forall names :: names != [] && AllNormal(names) ==>
         (Deletes(f, FindName(path, names), |names|) <==> names[0] != LOST_FOUND)
  }

  /** The clean empties the directory, but for lost+found, exactly if the path
      has no star, no backslash and no closed bracket: a star also keeps files
      elsewhere, and the others have the pattern miss lost+found. */
  lemma CleanEmpties(path: string)
    requires Resolved(path)
    ensures ReadFind(CleanArgs(path)).Some?
    ensures Empties(ReadFind(CleanArgs(path)).value, path) <==> Harmless(path)
  {
    var base := Below(path);
    ResolvedIs(path);
    LostFoundNormal();
    CleanIsRead(path);
    KeptIsRead(base, LOST_FOUND);
    KeepsExactly(base, ReadGlob(base).value, LOST_FOUND);
    HarmlessBelow(path);
    DeletesUnlessKept(path, ReadFind(CleanArgs(path)).value, ReadGlob(base).value);
  }

  lemma HarmlessBelow(path: string)
    ensures Harmless(Below(path)) <==> Harmless(path)
  {
    if Below(path) == path + "/" {
      forall i | 0 <= i < |path| ensures BracketEnd((path + "/")[i..]) == BracketEnd(path[i..]) {
        assert (path + "/")[i..] == path[i..] + "/";
        BracketInFront(path[i..], "/");
      }
      assert forall i :: 0 <= i < |path| ==> (path + "/")[i] == path[i];
    }
  }

  lemma DeletesUnlessKept(path: string, f: Find, t: seq<Glob>)
    requires f.expression == [NotPath(Below(path) + LOST_FOUND), NotPath(Below(path) + LOST_FOUND + "/*"), Delete]
    requires ReadGlob(Below(path) + LOST_FOUND) == Some(KeptGlob(t, LOST_FOUND)) && f.minDepth == 1
    requires ReadGlob(Below(path) + LOST_FOUND + "/*") == Some(KeptBelowGlob(t, LOST_FOUND))
    ensures Empties(f, path) <==> KeepsOnly(t, Below(path), LOST_FOUND)
  {
    forall names | names != [] && AllNormal(names)
      ensures Deletes(f, FindName(path, names), |names|) <==> !Kept(t, LOST_FOUND, Below(path) + JoinSlash(names))
    {
      TwoKept(f.expression[0].pattern, f.expression[1].pattern, FindName(path, names));
    }
    NamesAgree(f, path, t, LOST_FOUND);
  }

  lemma TwoKept(a: string, b: string, name: string)
    ensures ReachesDelete([NotPath(a), NotPath(b), Delete], name) <==> !Globs(a, name) && !Globs(b, name)
  {
    var e := [NotPath(a), NotPath(b), Delete];
    assert e[1..] == [NotPath(b), Delete] && e[1..][1..] == [Delete];
    assert ReachesDelete(e[1..][1..], name);
    assert ReachesDelete(e[1..], name) <==> !Globs(b, name);
  }

  lemma NamesAgree(f: Find, path: string, t: seq<Glob>, name: string)
    requires name == LOST_FOUND && f.minDepth == 1
    requires forall names :: names != [] && AllNormal(names) ==>
               (Deletes(f, FindName(path, names), |names|) <==> !Kept(t, name, Below(path) + JoinSlash(names)))
    ensures Empties(f, path) <==> KeepsOnly(t, Below(path), name)
  {
    if Empties(f, path) {
      forall names | names != [] && AllNormal(names)
        ensures Kept(t, name, Below(path) + JoinSlash(names)) <==> names[0] == name
      {
        assert Deletes(f, FindName(path, names), |names|) <==> names[0] != LOST_FOUND;
      }
    }
    if KeepsOnly(t, Below(path), name) {
      forall names | names != [] && AllNormal(names)
        ensures Deletes(f, FindName(path, names), |names|) <==> names[0] != LOST_FOUND
      {
        assert Kept(t, name, Below(path) + JoinSlash(names)) <==> names[0] == name;
      }
    }
  }
}
