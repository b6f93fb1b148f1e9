/** Slash-separated paths as Go's package path reads them. Clean is modelled
    concretely, as a walk over the components with a stack. */
module GoPath {

  function Components(p: string): (parts: seq<string>)
    ensures |parts| >= 1
    decreases |p|
  {
    if p == "" then [""]
    else
      var rest := Components(p[1..]);
      if p[0] == '/' then [""] + rest else [[p[0]] + rest[0]] + rest[1..]
  }

  function JoinSlash(parts: seq<string>): string {
    if parts == [] then ""
    else if |parts| == 1 then parts[0]
    else parts[0] + "/" + JoinSlash(parts[1..])
  }

  function Enter(rooted: bool, stack: seq<string>, name: string): seq<string> {
    if name == "" || name == "." then stack
    else if name == ".." then
      if stack != [] && stack[|stack| - 1] != ".." then stack[..|stack| - 1]
      else if rooted then stack
      else stack + [".."]
    else stack + [name]
  }

  function Walk(rooted: bool, stack: seq<string>, names: seq<string>): seq<string>
    decreases |names|
  {
    if names == [] then stack else Walk(rooted, Enter(rooted, stack, names[0]), names[1..])
  }

  predicate IsAbs(p: string) { p != "" && p[0] == '/' }

  /** The directories a path goes down through once "." and ".." are resolved. */
  function Place(p: string): seq<string> { Walk(IsAbs(p), [], Components(p)) }

  function Spell(rooted: bool, stack: seq<string>): string {
    if rooted then "/" + JoinSlash(stack) else if stack == [] then "." else JoinSlash(stack)
  }

  function Clean(p: string): string { Spell(IsAbs(p), Place(p)) }

  function Join(a: string, b: string): string {
    if a == "" && b == "" then "" else if a == "" then Clean(b) else if b == "" then Clean(a) else Clean(a + "/" + b)
  }

  /** The position just behind the last slash, 0 when there is none. */
  function AfterLastSlash(p: string): (k: nat)
    ensures k <= |p|
    ensures k > 0 ==> p[k - 1] == '/'
    ensures forall i :: k <= i < |p| ==> p[i] != '/'
  {
    if p == "" then 0
    else if p[|p| - 1] == '/' then |p|
    else AfterLastSlash(p[..|p| - 1])
  }

  function Dir(p: string): string { Clean(p[..AfterLastSlash(p)]) }

  function DropTrailingSlashes(p: string): string {
    if p != "" && p[|p| - 1] == '/' then DropTrailingSlashes(p[..|p| - 1]) else p
  }

  function Base(p: string): string {
    if p == "" then "."
    else
      var q := DropTrailingSlashes(p);
      if q == "" then "/" else q[AfterLastSlash(q)..]
  }

  // ---- names and components

  predicate NoSlash(s: string) { forall i :: 0 <= i < |s| ==> s[i] != '/' }

  predicate Normal(name: string) { name != "" && name != "." && name != ".." && NoSlash(name) }

  predicate AllNormal(names: seq<string>) { forall i :: 0 <= i < |names| ==> Normal(names[i]) }

  lemma ComponentsNext(c: char, p: string)
    ensures Components([c] + p) == WithHead(c, Components(p))
  {
    assert ([c] + p)[1..] == p;
  }

  lemma {:induction false} ComponentsCat(a: string, b: string)
    ensures Components(a + "/" + b) == Components(a) + Components(b)
    decreases |a|
  {
    if a == "" {
      assert a + "/" + b == ['/'] + b;
      ComponentsNext('/', b);
    } else {
      ComponentsCat(a[1..], b);
      ComponentsNext(a[0], a[1..]);
      ComponentsNext(a[0], a[1..] + "/" + b);
      assert a + "/" + b == [a[0]] + (a[1..] + "/" + b) && a == [a[0]] + a[1..];
      HeadOfCat(a[0], Components(a[1..]), Components(b));
    }
  }

  function WithHead(c: char, parts: seq<string>): seq<string>
    requires parts != []
  {
    if c == '/' then [""] + parts else [[c] + parts[0]] + parts[1..]
  }

  lemma HeadOfCat(c: char, a: seq<string>, b: seq<string>)
    requires a != []
    ensures WithHead(c, a + b) == WithHead(c, a) + b
  {
    assert (a + b)[0] == a[0] && (a + b)[1..] == a[1..] + b;
  }

  lemma {:induction false} ComponentsNoSlash(p: string)
    ensures forall i :: 0 <= i < |Components(p)| ==> NoSlash(Components(p)[i])
    decreases |p|
  {
    if p != "" {
      ComponentsNoSlash(p[1..]);
    }
  }

  lemma {:induction false} ComponentsOne(name: string)
    requires NoSlash(name)
    ensures Components(name) == [name]
    decreases |name|
  {
    if name != "" {
      ComponentsOne(name[1..]);
      assert name == [name[0]] + name[1..];
    }
  }

  lemma {:induction false} ComponentsJoin(parts: seq<string>)
    requires parts != [] && forall i :: 0 <= i < |parts| ==> NoSlash(parts[i])
    ensures Components(JoinSlash(parts)) == parts
  {
    ComponentsOne(parts[0]);
    if |parts| == 1 {
      assert parts == [parts[0]];
    } else {
      ComponentsJoin(parts[1..]);
      ComponentsCat(parts[0], JoinSlash(parts[1..]));
      assert parts == [parts[0]] + parts[1..];
    }
  }

  lemma {:induction false} JoinCat(a: seq<string>, b: seq<string>)
    requires a != [] && b != []
    ensures JoinSlash(a + b) == JoinSlash(a) + "/" + JoinSlash(b)
  {
    if |a| == 1 {
      assert (a + b)[1..] == b;
    } else {
      assert (a + b)[1..] == a[1..] + b;
      JoinCat(a[1..], b);
    }
  }

  // ---- the walk

  lemma {:induction false} WalkCat(rooted: bool, stack: seq<string>, a: seq<string>, b: seq<string>)
    ensures Walk(rooted, stack, a + b) == Walk(rooted, Walk(rooted, stack, a), b)
    decreases |a|
  {
    if a == [] {
      assert a + b == b;
    } else {
      assert (a + b)[1..] == a[1..] + b;
      WalkCat(rooted, Enter(rooted, stack, a[0]), a[1..], b);
    }
  }

  /** What a walk leaves: names to go down, behind the ".."s of a relative path
      that leads out of where it starts. */
  predicate Plain(rooted: bool, stack: seq<string>) {
    forall i :: 0 <= i < |stack| ==>
      Normal(stack[i]) || (!rooted && stack[i] == ".." && forall j :: 0 <= j < i ==> stack[j] == "..")
  }

  lemma {:induction false} WalkIsPlain(rooted: bool, stack: seq<string>, names: seq<string>)
    requires Plain(rooted, stack) && forall i :: 0 <= i < |names| ==> NoSlash(names[i])
    ensures Plain(rooted, Walk(rooted, stack, names))
    decreases |names|
  {
    if names != [] {
      EnterIsPlain(rooted, stack, names[0]);
      WalkIsPlain(rooted, Enter(rooted, stack, names[0]), names[1..]);
    }
  }

  lemma EnterIsPlain(rooted: bool, stack: seq<string>, name: string)
    requires Plain(rooted, stack) && NoSlash(name)
    ensures Plain(rooted, Enter(rooted, stack, name))
  {
    if name == ".." && !rooted && (stack == [] || stack[|stack| - 1] == "..") {
      assert Enter(rooted, stack, name) == stack + [".."];
      assert stack != [] ==> !Normal(stack[|stack| - 1]);
    }
  }

  lemma PlaceIsPlain(p: string)
    ensures Plain(IsAbs(p), Place(p))
  {
    ComponentsNoSlash(p);
    WalkIsPlain(IsAbs(p), [], Components(p));
  }

  /** Names are simply gone down. */
  lemma {:induction false} WalkDown(rooted: bool, stack: seq<string>, names: seq<string>)
    requires Plain(rooted, stack + names)
    ensures Walk(rooted, stack, names) == stack + names
    decreases |names|
  {
    if names == [] {
      assert stack + names == stack;
    } else {
      var next := stack + [names[0]];
      assert (stack + names)[|stack|] == names[0];
      assert names[0] == ".." && stack != [] ==> (stack + names)[|stack| - 1] == "..";
      assert Enter(rooted, stack, names[0]) == next;
      assert next + names[1..] == stack + names;
      WalkDown(rooted, next, names[1..]);
    }
  }

  /** Spelling a place and reading it again gives the place. */
  lemma SpelledIsThere(rooted: bool, stack: seq<string>)
    requires Plain(rooted, stack)
    ensures Place(Spell(rooted, stack)) == stack && IsAbs(Spell(rooted, stack)) == rooted
  {
    assert [] + stack == stack;
    WalkDown(rooted, [], stack);
    if stack == [] {
      EmptyPlace();
    } else {
      JoinedIsRelative(rooted, stack);
      if rooted {
        RootedComponents(JoinSlash(stack));
        assert Walk(true, [], [""] + stack) == Walk(true, [], stack) by { assert ([""] + stack)[1..] == stack; }
      }
    }
  }

  lemma JoinedIsRelative(rooted: bool, stack: seq<string>)
    requires Plain(rooted, stack) && stack != []
    ensures Components(JoinSlash(stack)) == stack && JoinSlash(stack) != "" && !IsAbs(JoinSlash(stack))
  {
    assert NoSlash(stack[0]) && stack[0] != "";
    assert forall i :: 0 <= i < |stack| ==> NoSlash(stack[i]);
    ComponentsJoin(stack);
    assert JoinSlash(stack)[0] == stack[0][0];
  }

  lemma RootedComponents(p: string)
    ensures Components("/" + p) == [""] + Components(p)
  {
    assert ("/" + p)[1..] == p;
  }

  lemma EmptyPlace()
    ensures Place("/") == [] && Place(".") == []
  {
    ComponentsOne("");
    ComponentsOne(".");
    RootedComponents("");
    assert "/" + "" == "/";
    assert ["", ""][1..] == [""] && [""][1..] == [] && ["."][1..] == [];
  }

  /** Cleaning keeps the place, and there is nothing left to clean. */
  lemma CleanStays(p: string)
    ensures Place(Clean(p)) == Place(p) && IsAbs(Clean(p)) == IsAbs(p) && Clean(Clean(p)) == Clean(p)
  {
    PlaceIsPlain(p);
    SpelledIsThere(IsAbs(p), Place(p));
  }

  lemma PlaceOfCat(a: string, b: string)
    requires a != ""
    ensures Place(a + "/" + b) == Walk(IsAbs(a), Place(a), Components(b)) && IsAbs(a + "/" + b) == IsAbs(a)
  {
    ComponentsCat(a, b);
    WalkCat(IsAbs(a), [], Components(a), Components(b));
  }

  lemma TrailingSlash(p: string)
    requires p != ""
    ensures Place(p + "/") == Place(p)
  {
    PlaceOfCat(p, "");
    assert p + "/" + "" == p + "/";
    assert Walk(IsAbs(p), Place(p), [""]) == Place(p) by { assert [""][1..] == []; }
  }

  /** What a path means, one step at a time: a name goes down, two dots go up but
      not above the root, and one dot or a further slash stays. */
  lemma PathSteps(p: string, name: string)
    requires p != "" && Normal(name)
    ensures var place := Place(p);
            && Place(p + "/" + name) == place + [name]
            && Place(p + "/" + ".") == place && Place(p + "/") == place
            && (place != [] && place[|place| - 1] != ".." ==> Place(p + "/" + "..") == place[..|place| - 1])
            && (place == [] && IsAbs(p) ==> Place(p + "/" + "..") == [])
            && (!IsAbs(p) && (place == [] || place[|place| - 1] == "..") ==> Place(p + "/" + "..") == place + [".."])
            && IsAbs(p + "/" + name) == IsAbs(p)
  {
    PlaceOfCat(p, name);
    PlaceOfCat(p, ".");
    PlaceOfCat(p, "..");
    TrailingSlash(p);
    ComponentsOne(name);
    ComponentsOne(".");
    ComponentsOne("..");
    assert [name][1..] == [] && ["."][1..] == [] && [".."][1..] == [];
  }

  /** And a single name is where it says. */
  lemma PathStarts(name: string)
    requires Normal(name)
    ensures Place(name) == [name] && Place("/") == [] && Place(".") == [] && Place("..") == [".."]
    ensures IsAbs("/") && !IsAbs(name) && !IsAbs(".") && !IsAbs("..")
  {
    EmptyPlace();
    ComponentsOne(name);
    ComponentsOne("..");
    assert name[0] != '/' && ".."[0] != '/' && "."[0] != '/';
    WalkOne(false, [], name);
    WalkOne(false, [], "..");
  }

  lemma WalkOne(rooted: bool, stack: seq<string>, name: string)
    ensures Walk(rooted, stack, [name]) == Enter(rooted, stack, name)
  {
    assert [name][1..] == [];
  }
}
