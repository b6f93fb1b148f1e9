/** User paths resolved against where their volume is mounted
    (internal/strategy/paths.go, internal/bucketstorage and the tar source of
    internal/archive/transfer.go): none of them leaves the volume. */
module VolumePaths {
  import opened ArchiveNames
  import opened CommandReading
  import opened GoPath
  import opened Outcome
  import opened ShellExec
  import opened Text
  import opened TransferCommand
  import A = ArchiveCommand
  import FindClean
  import ShellSyntax

  datatype PathError = EscapesVolume | NotRelative | NamesNoFile

  // ---- --source-path and --dest-path

  predicate WantsContents(subPath: string) { HasSuffix(subPath, "/") || HasSuffix(subPath, "/.") || subPath == "." }

  /** The contents are meant exactly if the path ends in a slash or in the name of
      the directory itself. */
  lemma ContentsAreWanted(subPath: string)
    ensures var names := Components(subPath); var last := names[|names| - 1];
            WantsContents(subPath) <==> subPath != "" && (last == "" || last == ".")
  {
    var k := AfterLastSlash(subPath);
    LastComponent(subPath);
    if k > 0 {
      assert subPath[k - 1] == '/';
      assert subPath[k..] == "" ==> subPath[|subPath| - 1..] == "/";
      assert subPath[k..] == "." ==> subPath[|subPath| - 2..] == "/.";
    } else {
      assert subPath[0..] == subPath;
    }
    if HasSuffix(subPath, "/") {
      assert subPath[|subPath| - 1] == subPath[|subPath| - 1..][0];
    }
    if HasSuffix(subPath, "/.") {
      var end := subPath[|subPath| - 2..];
      assert subPath[|subPath| - 2] == end[0] && subPath[|subPath| - 1] == end[1];
    }
  }

  function MountSubPath(mount: string, subPath: string): Result<string, PathError> {
    var resolved := Clean(mount + "/" + subPath);
    if resolved != mount && !HasPrefix(resolved, mount + "/") then Err(EscapesVolume)
    else if resolved == mount || WantsContents(subPath) then Ok(resolved + "/")
    else Ok(resolved)
  }

  /** The path goes down into this directory, and the names are all that is left
      of it. */
  predicate StaysIn(p: string, directory: string) {
    IsAbs(p) && Place(p) != [] && Place(p)[0] == directory && AllNormal(Place(p))
  }

  lemma FirstName(a: string, rest: string, name: string)
    requires NoSlash(a) && NoSlash(name)
    ensures HasPrefix(a + "/" + rest, name + "/") <==> a == name
  {
    var s, sub := a + "/" + rest, name + "/";
    PrefixAt(s, sub);
    assert s[0 + |a|] == '/' && sub[|name|] == '/';
    assert forall k :: 0 <= k < |name| ==> sub[k] == name[k];
    assert At(s, sub, 0) ==> |a| == |name| by {
      if At(s, sub, 0) {
        AtChar(s, sub, 0, |a|);
        AtChar(s, sub, 0, |name|);
      }
    }
    assert At(s, sub, 0) ==> a == name;
    assert a == name ==> s[..|sub|] == sub;
  }

  /** Cleaned absolute paths start with "/name/" exactly when they go down from
      there. */
  lemma CleanedPrefix(stack: seq<string>, name: string)
    requires AllNormal(stack) && Normal(name)
    ensures Spell(true, stack) == "/" + name <==> stack == [name]
    ensures HasPrefix(Spell(true, stack), "/" + name + "/") <==> |stack| >= 2 && stack[0] == name
  {
    var s := JoinSlash(stack);
    assert ("/" + s)[1..] == s && ("/" + name)[1..] == name;
    if |stack| >= 2 {
      var rest := JoinSlash(stack[1..]);
      FirstName(stack[0], rest, name);
      AfterFirst("/", s, name + "/");
      assert "/" + name + "/" == "/" + (name + "/");
      assert s[|stack[0]|] == '/';
    } else {
      assert NoSlash(s);
      PrefixAt("/" + s, "/" + name + "/");
      assert ("/" + name + "/")[|name| + 1] == '/';
    }
  }

  lemma AfterFirst(head: string, s: string, prefix: string)
    ensures HasPrefix(head + s, head + prefix) <==> HasPrefix(s, prefix)
  {
    if |prefix| <= |s| {
      assert (head + s)[..|head + prefix|] == head + s[..|prefix|];
      assert (head + s[..|prefix|])[|head|..] == s[..|prefix|] && (head + prefix)[|head|..] == prefix;
    }
  }

  /** A path is accepted exactly when, all resolved, it leads into the volume;
      what is handed on is that place, spelled out, with the trailing slash that
      asks for contents where contents are meant. */
  lemma MountedStaysIn(name: string, subPath: string)
    requires Normal(name)
    ensures var place := Place("/" + name + "/" + subPath); var r := MountSubPath("/" + name, subPath);
            && (r.Ok? <==> place != [] && place[0] == name)
            && (r.Ok? ==> StaysIn(r.value, name) && Place(r.value) == place)
            && (r.Ok? ==>
                  r.value == Spell(true, place) + (if place == [name] || WantsContents(subPath) then "/" else ""))
  {
    var p := "/" + name + "/" + subPath;
    PlaceIsPlain(p);
    CleanedPrefix(Place(p), name);
    SpelledIsThere(true, Place(p));
    TrailingSlash(Spell(true, Place(p)));
  }

  lemma {:induction false} AfterLastSlashOf(a: string, name: string)
    requires NoSlash(name)
    ensures AfterLastSlash(a + "/" + name) == |a| + 1
    decreases |name|
  {
    var s := a + "/" + name;
    if name == "" {
      assert s[|s| - 1] == '/';
    } else {
      var front := name[..|name| - 1];
      assert s[|s| - 1] == name[|name| - 1] && s[..|s| - 1] == a + "/" + front;
      AfterLastSlashOf(a, front);
    }
  }

  lemma SpelledLast(front: seq<string>, last: string)
    requires front != []
    ensures Spell(true, front + [last]) == Spell(true, front) + "/" + last
  {
    JoinCat(front, [last]);
    assert "/" + (JoinSlash(front) + "/" + last) == "/" + JoinSlash(front) + "/" + last;
  }

  lemma DirAndBase(front: seq<string>, last: string)
    requires front != [] && AllNormal(front) && Normal(last)
    ensures var p := Spell(true, front + [last]); Place(Dir(p)) == front && IsAbs(Dir(p)) && Base(p) == last
    ensures var p := Spell(true, front + [last]); p != "" && p[|p| - 1] != '/'
  {
    var a := Spell(true, front);
    var p := a + "/" + last;
    SpelledLast(front, last);
    AfterLastSlashOf(a, last);
    assert p[..|a| + 1] == a + "/" && p[|a| + 1..] == last && p[|p| - 1] == last[|last| - 1];
    SpelledIsThere(true, front);
    TrailingSlash(a);
    CleanStays(a + "/");
    assert DropTrailingSlashes(p) == p;
  }

  /** The directory and the member put together are the place the path means,
      inside the volume, and the member is "." exactly where the contents are
      meant. */
  lemma TarSourceIsTheTree(name: string, subPath: string)
    requires Normal(name) && MountSubPath("/" + name, subPath).Ok?
    ensures var r := MountSubPath("/" + name, subPath).value; var (dir, member) := TarSource(r);
            && StaysIn(dir, name)
            && (member == "." <==> Place(r) == [name] || WantsContents(subPath))
            && Place(r) == (if member == "." then Place(dir) else Place(dir) + [member])
  {
    MountedStaysIn(name, subPath);
    var r := MountSubPath("/" + name, subPath).value;
    var place := Place(r);
    if place != [name] && !WantsContents(subPath) {
      assert Spell(true, place) + "" == Spell(true, place);
      SourceOfDirectory(place, name);
    } else {
      assert r[|r| - 1] == '/';
    }
  }

  /** The member follows tar's options without a "--" in between, so it is the
      member only unless it looks like one of them: unless the path means a
      directory or file whose own name starts with a dash. */
  lemma MemberIsOption(name: string, subPath: string)
    requires Normal(name) && MountSubPath("/" + name, subPath).Ok?
    ensures var r := MountSubPath("/" + name, subPath).value; var place := Place(r);
            IsOption(TarSource(r).1) <==>
              |place| > 1 && !WantsContents(subPath) && IsOption(place[|place| - 1])
  {
    MountedStaysIn(name, subPath);
    TarSourceIsTheTree(name, subPath);
    var r := MountSubPath("/" + name, subPath).value;
    var (dir, member) := TarSource(r);
    if member == "." {
      assert !IsOption(".");
    } else {
      LastOf(Place(r), Place(dir), member);
    }
  }

  lemma LastOf(place: seq<string>, front: seq<string>, last: string)
    requires place == front + [last] && front != []
    ensures |place| > 1 && place[|place| - 1] == last
  {}

  lemma SourceOfDirectory(place: seq<string>, name: string)
    requires |place| >= 2 && AllNormal(place) && place[0] == name
    ensures var (dir, member) := TarSource(Spell(true, place));
            StaysIn(dir, name) && member != "." && Place(dir) + [member] == place
  {
    var front, last := place[..|place| - 1], place[|place| - 1];
    assert place == front + [last];
    DirAndBase(front, last);
  }

  // ---- --path

  const DATA_MOUNT := "/" + "data"
  const ARCHIVE_MOUNT := "/" + "archive"

  /** The place on the data volume a backup or restore works on. */
  function DataPath(p: string): Result<string, PathError> {
    if p == "" then Ok(DATA_MOUNT)
    else if IsAbs(p) then Err(NotRelative)
    else if Clean(p) == ".." || HasPrefix(Clean(p), "../") then Err(EscapesVolume)
    else Ok(Join(DATA_MOUNT, p))
  }

  predicate LeadsOut(place: seq<string>) { place != [] && place[0] == ".." }

  lemma CleanedEscape(stack: seq<string>)
    requires Plain(false, stack)
    ensures Spell(false, stack) == ".." || HasPrefix(Spell(false, stack), "../") <==> LeadsOut(stack)
  {
    PrefixAt(Spell(false, stack), "../");
    assert "../"[2] == '/' && ".." + "/" == "../";
    if |stack| >= 2 {
      FirstName(stack[0], JoinSlash(stack[1..]), "..");
      assert Spell(false, stack)[|stack[0]|] == '/';
    } else if |stack| == 1 {
      assert NoSlash(stack[0]);
    }
  }

  lemma {:induction false} OutStaysOut(stack: seq<string>, names: seq<string>)
    requires LeadsOut(stack)
    ensures LeadsOut(Walk(false, stack, names))
    decreases |names|
  {
    if names != [] {
      OutStaysOut(Enter(false, stack, names[0]), names[1..]);
    }
  }

  /** A relative walk that does not end outside never leaves, so it can be made
      from any directory. */
  lemma {:induction false} WalkBelow(base: seq<string>, stack: seq<string>, names: seq<string>)
    requires AllNormal(stack) && !LeadsOut(Walk(false, stack, names))
    requires forall i :: 0 <= i < |names| ==> NoSlash(names[i])
    ensures Walk(true, base + stack, names) == base + Walk(false, stack, names)
    ensures AllNormal(Walk(false, stack, names))
    decreases |names|
  {
    if names != [] {
      var next := Enter(false, stack, names[0]);
      if LeadsOut(next) {
        OutStaysOut(next, names[1..]);
      }
      BelowStep(base, stack, names[0]);
      WalkBelow(base, next, names[1..]);
    }
  }

  lemma BelowStep(base: seq<string>, stack: seq<string>, name: string)
    requires AllNormal(stack) && NoSlash(name) && !LeadsOut(Enter(false, stack, name))
    ensures Enter(true, base + stack, name) == base + Enter(false, stack, name)
    ensures AllNormal(Enter(false, stack, name))
  {
    if name == ".." && stack != [] {
      assert (base + stack)[..|base + stack| - 1] == base + stack[..|stack| - 1];
    }
  }

  lemma OneName(name: string)
    requires Normal(name)
    ensures Place("/" + name) == [name] && IsAbs("/" + name)
  {
    SpelledIsThere(true, [name]);
  }

  /** Below a mount, a path that does not lead out is that path. */
  lemma BelowMount(name: string, p: string)
    requires Normal(name) && !LeadsOut(Walk(false, [], Components(p)))
    ensures StaysIn(Clean("/" + name + "/" + p), name)
    ensures Place(Clean("/" + name + "/" + p)) == [name] + Walk(false, [], Components(p))
  {
    var mount := "/" + name;
    OneName(name);
    PlaceOfCat(mount, p);
    ComponentsNoSlash(p);
    assert [name] + [] == [name];
    WalkBelow([name], [], Components(p));
    CleanStays(mount + "/" + p);
  }

  /** --path is accepted exactly when it is relative and never leads above the
      volume's root, and then it is that path below the mount; without one it is
      the mount itself. */
  lemma DataPathStaysIn(p: string)
    ensures DataPath(p).Ok? <==> !IsAbs(p) && !LeadsOut(Place(p))
    ensures DataPath(p).Ok? ==> StaysIn(DataPath(p).value, "data") && Place(DataPath(p).value) == ["data"] + Place(p)
  {
    PlaceIsPlain(p);
    OneName("data");
    ComponentsOne("");
    assert [""][1..] == [] && ["data"] + [] == ["data"];
    if !IsAbs(p) && p != "" {
      CleanedEscape(Place(p));
      if !LeadsOut(Place(p)) {
        BelowMount("data", p);
        assert Join(DATA_MOUNT, p) == Clean("/" + "data" + "/" + p);
      }
    }
  }

  // ---- what the commands are handed

  lemma CleanIsResolved(p: string)
    requires IsAbs(p)
    ensures FindClean.Resolved(Clean(p))
    ensures Place(p) != [] ==> FindClean.Resolved(Clean(p) + "/")
  {
    CleanStays(p);
    TrailingSlash(Clean(p));
    PlaceOfSlash(Clean(p));
  }

  lemma PlaceOfSlash(p: string)
    requires IsAbs(p)
    ensures IsAbs(p + "/") && Clean(p + "/") == Clean(p)
  {
    TrailingSlash(p);
  }

  /** Every path a command is built with is one the clean command reads right:
      the destination of a transfer, */
  lemma MountedIsResolved(name: string, subPath: string)
    requires Normal(name)
    ensures MountSubPath("/" + name, subPath).Ok? ==> FindClean.Resolved(MountSubPath("/" + name, subPath).value)
  {
    MountedStaysIn(name, subPath);
    CleanIsResolved("/" + name + "/" + subPath);
  }

  /** and the data path of an archive. */
  lemma DataIsResolved(p: string)
    ensures DataPath(p).Ok? ==> FindClean.Resolved(DataPath(p).value)
  {
    OneName("data");
    CleanIsResolved(DATA_MOUNT);
    CleanIsResolved(DATA_MOUNT + "/" + p);
  }

  // ---- --archive-file

  function TrimSlash(p: string): string { if IsAbs(p) then p[1..] else p }

  /** Where on its mount an archive's claim-relative path is. */
  function ArchiveFilePath(path: string): Result<string, PathError> {
    var cleaned := Clean(TrimSlash(path));
    if cleaned == ".." || HasPrefix(cleaned, "../") || cleaned == "." then Err(NamesNoFile)
    else Ok(Join(ARCHIVE_MOUNT, cleaned))
  }

  predicate EndsIn(p: string, ext: string) { |ext| > 2 && NoSlash(ext) && HasSuffix(p, ext) }

  lemma SuffixChars(p: string, ext: string)
    requires HasSuffix(p, ext)
    ensures forall i :: |p| - |ext| <= i < |p| ==> p[i] == ext[i - (|p| - |ext|)]
  {
    forall i | |p| - |ext| <= i < |p| ensures p[i] == ext[i - (|p| - |ext|)] {
      assert p[|p| - |ext|..][i - (|p| - |ext|)] == p[i];
    }
  }

  lemma LastComponent(p: string)
    ensures var names := Components(p); names[|names| - 1] == p[AfterLastSlash(p)..]
  {
    var k := AfterLastSlash(p);
    TailHasNoSlash(p, k);
    ComponentsOne(p[k..]);
    if k > 0 {
      SlashBefore(p, k);
      LastOfCat(p[..k - 1], p[k..]);
    } else {
      assert p == p[0..];
    }
  }

  lemma TailHasNoSlash(p: string, k: nat)
    requires k <= |p| && forall i :: k <= i < |p| ==> p[i] != '/'
    ensures NoSlash(p[k..])
  {}

  lemma SlashBefore(p: string, k: nat)
    requires 0 < k <= |p| && p[k - 1] == '/'
    ensures p == p[..k - 1] + "/" + p[k..]
  {}

  lemma LastOfCat(a: string, name: string)
    requires Components(name) == [name]
    ensures var names := Components(a + "/" + name); names[|names| - 1] == name
  {
    ComponentsCat(a, name);
  }

  lemma WalkEndsIn(rooted: bool, names: seq<string>)
    requires names != [] && Normal(names[|names| - 1])
    ensures var place := Walk(rooted, [], names); place != [] && place[|place| - 1] == names[|names| - 1]
  {
    var front, last := names[..|names| - 1], names[|names| - 1];
    assert names == front + [last];
    WalkCat(rooted, [], front, [last]);
    assert [last][1..] == [];
  }

  /** A path that ends in an extension ends in a name that does. */
  lemma LastName(p: string, ext: string)
    requires EndsIn(p, ext)
    ensures var place := Place(p); place != [] && Normal(place[|place| - 1]) && HasSuffix(place[|place| - 1], ext)
  {
    LastHasSuffix(p, ext);
    LastComponent(p);
    WalkEndsIn(IsAbs(p), Components(p));
  }

  /** An extension has no slash, so it is in the last name. */
  lemma LastHasSuffix(p: string, ext: string)
    requires EndsIn(p, ext)
    ensures HasSuffix(p[AfterLastSlash(p)..], ext) && Normal(p[AfterLastSlash(p)..])
  {
    SuffixChars(p, ext);
    var last := p[AfterLastSlash(p)..];
    assert last[|last| - |ext|..] == p[|p| - |ext|..];
  }

  lemma TrimmedEndsIn(p: string, ext: string)
    requires EndsIn(p, ext)
    ensures EndsIn(TrimSlash(p), ext)
  {
    SuffixChars(p, ext);
    assert IsAbs(p) ==> p[1..][|p| - 1 - |ext|..] == p[|p| - |ext|..];
  }

  /** Reading a cleaned path as one below a mount: an absolute one loses only its
      leading slash. */
  lemma CleanedBelow(p: string)
    requires IsAbs(p) || !LeadsOut(Place(p))
    ensures Walk(false, [], Components(Clean(p))) == Place(p) && AllNormal(Place(p))
  {
    var place := Place(p);
    PlaceIsPlain(p);
    SpelledIsThere(IsAbs(p), place);
    if IsAbs(p) {
      RootedComponents(JoinSlash(place));
      assert ([""] + Components(JoinSlash(place)))[1..] == Components(JoinSlash(place));
      if place != [] {
        ComponentsJoin(place);
        assert [] + place == place;
        WalkDown(false, [], place);
      } else {
        assert [""][1..] == [];
      }
    } else {
      ComponentsNoSlash(p);
      WalkBelow([], [], Components(p));
    }
  }

  /** The archive of a parsed target is a file inside the claim, under its own
      extension; a path that leads out is refused. */
  lemma ArchiveStaysIn(path: string, ext: string)
    requires EndsIn(path, ext)
    ensures var p := TrimSlash(path); var r := ArchiveFilePath(path);
            && (r.Ok? <==> IsAbs(p) || !LeadsOut(Place(p)))
            && (r.Ok? ==>
                  StaysIn(r.value, "archive") && Place(r.value) == ["archive"] + Place(p) && |Place(r.value)| >= 2)
            && (r.Ok? ==> HasSuffix(Place(r.value)[|Place(r.value)| - 1], ext))
  {
    var p := TrimSlash(path);
    TrimmedEndsIn(path, ext);
    LastName(p, ext);
    ArchiveAccepts(p);
    if IsAbs(p) || !LeadsOut(Place(p)) {
      CleanedBelow(p);
      BelowMount("archive", Clean(p));
      assert Join(ARCHIVE_MOUNT, Clean(p)) == Clean("/" + "archive" + "/" + Clean(p));
    }
  }

  lemma ArchiveAccepts(p: string)
    requires Place(p) != []
    ensures var cleaned := Clean(p);
            !(cleaned == ".." || HasPrefix(cleaned, "../") || cleaned == ".") <==> IsAbs(p) || !LeadsOut(Place(p))
    ensures Clean(p) != ""
  {
    PlaceIsPlain(p);
    SpelledIsThere(IsAbs(p), Place(p));
    EmptyPlace();
    if !IsAbs(p) {
      CleanedEscape(Place(p));
    }
  }

  /** The directory that the mkdir of a built backup makes is the one its archive
      is in, inside the mount. */
  lemma ArchiveDirectoryIsMade(c: A.Cmd, t: ShellSyntax.Tree, path: string, ext: string)
    requires EndsIn(path, ext) && ArchiveFilePath(path) == Ok(c.archivePath)
    requires c.Accepted() && c.direction == BACKUP && c.IsBuiltAs(t)
    ensures var args := Args(t[0][0][0]); var place := Place(c.archivePath);
            && args.Some? && ReadMkdir(args.value).Some? && |place| >= 2
            && match ReadMkdir(args.value).value case (parents, made) =>
                 parents && |made| == 1 && StaysIn(made[0], "archive") && Place(made[0]) == place[..|place| - 1]
  {
    ArchiveDirectory(path, ext);
    PreparedIsRead(t[0], Dir(c.archivePath), false);
  }

  lemma ArchiveDirectory(path: string, ext: string)
    requires EndsIn(path, ext) && ArchiveFilePath(path).Ok?
    ensures var p := ArchiveFilePath(path).value; var place := Place(p);
            |place| >= 2 && Place(Dir(p)) == place[..|place| - 1] && StaysIn(Dir(p), "archive") &&
            FindClean.Resolved(Dir(p))
  {
    ArchiveStaysIn(path, ext);
    var p := ArchiveFilePath(path).value;
    var place := Place(p);
    TrimmedEndsIn(path, ext);
    LastName(TrimSlash(path), ext);
    ArchiveAccepts(TrimSlash(path));
    CleanStays(ARCHIVE_MOUNT + "/" + Clean(TrimSlash(path)));
    assert place == place[..|place| - 1] + [place[|place| - 1]];
    DirAndBase(place[..|place| - 1], place[|place| - 1]);
    CleanStays(p[..AfterLastSlash(p)]);
  }

  /** The extension is what keeps the archive a file: the root spelled with two
      slashes would be let through. */
  lemma RootWouldPass()
    ensures ArchiveFilePath("//") == Ok(ARCHIVE_MOUNT)
  {
    assert "//"[1..] == "/";
    RootIsClean();
    BelowRoot();
  }

  lemma RootIsClean()
    ensures Clean("/") == "/"
  {
    EmptyPlace();
  }

  lemma BelowRoot()
    ensures Join(ARCHIVE_MOUNT, "/") == ARCHIVE_MOUNT
  {
    RootedComponents("");
    ComponentsOne("");
    assert "/" + "" == "/" && Components("/") == ["", ""];
    OneName("archive");
    PlaceOfCat(ARCHIVE_MOUNT, "/");
    assert ["", ""][1..] == [""] && [""][1..] == [];
    assert Place(ARCHIVE_MOUNT + "/" + "/") == ["archive"];
  }
}
