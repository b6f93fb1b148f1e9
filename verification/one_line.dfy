/** What keeps a built command on one line: the check of internal/shell/quote.go
    against the character set it is taken from (YAML 1.1, sections 5.1 and 5.4),
    and the texts that are put together from checked values. */
module OneLine {
  import opened Decimal
  import opened GoPath
  import opened ShellQuote

  // ---- the characters

  predicate Printable(c: char) {
    c == '\t' || c == '\n' || c == '\r' || ' ' <= c <= '~' || c == '\U{0085}' || '\U{00A0}' <= c <= '\U{D7FF}' ||
    '\U{E000}' <= c <= '\U{FFFD}' || '\U{10000}' <= c
  }

  predicate BreaksLine(c: char) { c in {'\n', '\r', '\U{0085}', '\U{2028}', '\U{2029}'} }

  /** A value passes exactly if all its characters are printable and break no
      line. */
  lemma SingleLineIs(value: string)
    ensures SingleLine(value) <==> forall i :: 0 <= i < |value| ==> Printable(value[i]) && !BreaksLine(value[i])
  {
    forall i | 0 <= i < |value| ensures NotPlainYaml(value[i]) <==> !(Printable(value[i]) && !BreaksLine(value[i])) {
      CharacterIs(value[i]);
    }
  }

  lemma CharacterIs(c: char)
    ensures NotPlainYaml(c) <==> !(Printable(c) && !BreaksLine(c))
  {}

  // ---- texts

  lemma Both(a: string, b: string)
    ensures SingleLine(a + b) <==> SingleLine(a) && SingleLine(b)
  {
    assert forall i :: 0 <= i < |a| ==> (a + b)[i] == a[i];
    assert forall i :: 0 <= i < |b| ==> (a + b)[|a| + i] == b[i];
  }

  lemma Three(a: string, b: string, c: string)
    ensures SingleLine(a + b + c) <==> SingleLine(a) && SingleLine(b) && SingleLine(c)
  {
    Both(a, b);
    Both(a + b, c);
  }

  lemma Five(a: string, b: string, c: string, d: string, e: string)
    ensures SingleLine(a + b + c + d + e) <==>
            SingleLine(a) && SingleLine(b) && SingleLine(c) && SingleLine(d) && SingleLine(e)
  {
    Three(a, b, c);
    Three(a + b + c, d, e);
  }

  lemma NumberFits(n: int)
    ensures SingleLine(Itoa(n))
  {}

  // ---- paths

  predicate AllFit(names: seq<string>) { forall i :: 0 <= i < |names| ==> SingleLine(names[i]) }

  lemma {:induction false} ComponentsFit(p: string)
    requires SingleLine(p)
    ensures AllFit(Components(p))
    decreases |p|
  {
    if p != "" {
      ComponentsFit(p[1..]);
      Both([p[0]], Components(p[1..])[0]);
    }
  }

  lemma {:induction false} WalkFits(rooted: bool, stack: seq<string>, names: seq<string>)
    requires AllFit(stack) && AllFit(names)
    ensures AllFit(Walk(rooted, stack, names))
    decreases |names|
  {
    if names != [] {
      EnterFits(rooted, stack, names[0]);
      WalkFits(rooted, Enter(rooted, stack, names[0]), names[1..]);
    }
  }

  lemma EnterFits(rooted: bool, stack: seq<string>, name: string)
    requires AllFit(stack) && SingleLine(name)
    ensures AllFit(Enter(rooted, stack, name))
  {}

  lemma {:induction false} JoinFits(stack: seq<string>)
    requires AllFit(stack)
    ensures SingleLine(JoinSlash(stack))
  {
    if |stack| > 1 {
      JoinFits(stack[1..]);
      Both(stack[0], "/");
      Both(stack[0] + "/", JoinSlash(stack[1..]));
    }
  }

  lemma CleanFits(p: string)
    requires SingleLine(p)
    ensures SingleLine(Clean(p))
  {
    ComponentsFit(p);
    WalkFits(IsAbs(p), [], Components(p));
    JoinFits(Place(p));
    Both("/", JoinSlash(Place(p)));
  }

  lemma JoinedFits(a: string, b: string)
    requires SingleLine(a) && SingleLine(b)
    ensures SingleLine(GoPath.Join(a, b))
  {
    Both(a, "/");
    Both(a + "/", b);
    CleanFits(a + "/" + b);
    CleanFits(a);
    CleanFits(b);
  }

  lemma DirFits(p: string)
    requires SingleLine(p)
    ensures SingleLine(Dir(p))
  {
    CleanFits(p[..AfterLastSlash(p)]);
  }

  lemma {:induction false} TrailingFits(p: string)
    requires SingleLine(p)
    ensures SingleLine(DropTrailingSlashes(p))
    decreases |p|
  {
    if p != "" {
      TrailingFits(p[..|p| - 1]);
    }
  }

  lemma BaseFits(p: string)
    requires SingleLine(p)
    ensures SingleLine(Base(p))
  {
    TrailingFits(p);
  }
}
