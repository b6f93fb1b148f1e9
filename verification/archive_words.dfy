/** Source text for the commands the archive package builds: how runs of plain
    words are spelled, and when a script made of them is valid. */
module ArchiveWords {
  import opened ShellQuote
  import opened ShellLexer
  import opened ShellSyntax
  import opened ShellReading
  import opened ShellExec
  import opened Outcome

  function Quoted(value: string): Item { WordOf([Literal(value)]) }

  function Plain(words: seq<string>): seq<Item> {
    seq(|words|, i requires 0 <= i < |words| => WordOf([Bare(words[i])]))
  }

  predicate PlainWords(words: seq<string>) {
    forall i :: 0 <= i < |words| ==> words[i] != "" && AllPlain(words[i])
  }

  /** The words a caller runs a program with. */
  function Words(args: seq<string>, quoted: bool): seq<Word> {
    seq(|args|, i requires 0 <= i < |args| => Chars(args[i], quoted))
  }

  lemma JoinCons(first: string, rest: seq<string>, sep: string)
    requires rest != []
    ensures ShellSyntax.Join([first] + rest, sep) == first + sep + ShellSyntax.Join(rest, sep)
  {
    assert ([first] + rest)[1..] == rest;
  }

  lemma {:induction false} JoinBoth(a: seq<string>, b: seq<string>, sep: string)
    requires a != [] && b != []
    ensures ShellSyntax.Join(a + b, sep) == ShellSyntax.Join(a, sep) + sep + ShellSyntax.Join(b, sep)
  {
    if |a| == 1 {
      assert (a + b)[1..] == b;
    } else {
      assert (a + b)[1..] == a[1..] + b;
      JoinBoth(a[1..], b, sep);
    }
  }

  lemma CommandTextOf(a: seq<Item>, b: seq<Item>)
    requires a != [] && b != []
    ensures CommandText(a + b) == CommandText(a) + " " + CommandText(b)
  {
    var ta := seq(|a|, i requires 0 <= i < |a| => ItemText(a[i]));
    var tb := seq(|b|, i requires 0 <= i < |b| => ItemText(b[i]));
    assert seq(|a + b|, i requires 0 <= i < |a + b| => ItemText((a + b)[i])) == ta + tb;
    JoinBoth(ta, tb, " ");
  }

  lemma PlainText(words: seq<string>)
    ensures CommandText(Plain(words)) == ShellSyntax.Join(words, " ")
  {
    var p := Plain(words);
    forall i | 0 <= i < |p| ensures ItemText(p[i]) == words[i] {
      assert WordText([Bare(words[i])]) == words[i] + WordText([]);
    }
    assert seq(|p|, i requires 0 <= i < |p| => ItemText(p[i])) == words;
  }

  lemma QuotedText(value: string)
    ensures CommandText([Quoted(value)]) == Quote(value)
  {
    assert WordText([Literal(value)]) == Quote(value) + WordText([]);
  }

  lemma PlainValid(words: seq<string>)
    requires PlainWords(words)
    ensures forall i :: 0 <= i < |words| ==> ValidItem(Plain(words)[i])
  {}

  lemma FirstWord(word: string, chunks: seq<Chunk>)
    requires chunks == [Bare(word)] && word !in RESERVED
    ensures !IsReserved(WordPieces(chunks))
  {
    var w := Chars(word, false);
    assert WordPieces(chunks) == w + WordPieces([]);
    assert w + [] == w;
    assert seq(|w|, i requires 0 <= i < |w| => if w[i].Ch? then w[i].c else ' ') == word;
  }

  // ---- texts of the joins

  lemma TwoCommandsText(c: seq<Item>, d: seq<Item>)
    ensures PipelineText([c, d]) == CommandText(c) + " | " + CommandText(d)
  {
    assert seq(2, i requires 0 <= i < 2 => CommandText([c, d][i])) == [CommandText(c)] + [CommandText(d)];
    JoinCons(CommandText(c), [CommandText(d)], " | ");
  }

  lemma AndTextOf(first: seq<seq<Item>>, rest: seq<seq<seq<Item>>>)
    requires rest != []
    ensures AndText([first] + rest) == PipelineText(first) + " && " + AndText(rest)
  {
    var tr := seq(|rest|, i requires 0 <= i < |rest| => PipelineText(rest[i]));
    var all := [first] + rest;
    assert seq(|all|, i requires 0 <= i < |all| => PipelineText(all[i])) == [PipelineText(first)] + tr;
    JoinCons(PipelineText(first), tr, " && ");
  }

  lemma RenderOf(first: seq<seq<seq<Item>>>, rest: Source)
    requires rest != []
    ensures Render([first] + rest) == AndText(first) + "; " + Render(rest)
  {
    var tr := seq(|rest|, i requires 0 <= i < |rest| => AndText(rest[i]));
    var all := [first] + rest;
    assert seq(|all|, i requires 0 <= i < |all| => AndText(all[i])) == [AndText(first)] + tr;
    JoinCons(AndText(first), tr, "; ");
  }

  // ---- arguments

  /** An item that is one literal argument. */
  predicate Static(item: Item) {
    item.WordOf? && |item.chunks| == 1 &&
    match item.chunks[0]
    case Bare(text) => AllPlain(text) && '[' !in text
    case Literal(_) => true
    case _ => false
  }

  function ArgOf(item: Item): string
    requires Static(item)
  {
    match item.chunks[0]
    case Bare(text) => text
    case Literal(value) => value
  }

  predicate AllStatic(items: seq<Item>) { forall i :: 0 <= i < |items| ==> Static(items[i]) }

  function Argv(items: seq<Item>): (r: seq<string>)
    requires AllStatic(items)
    ensures |r| == |items|
  {
    seq(|items|, i requires 0 <= i < |items| => ArgOf(items[i]))
  }

  /** A command is exactly a program run with these arguments. */
  predicate Is(c: Command, argv: seq<string>) { Args(c) == Some(argv) && c.redirects == [] }

  lemma {:induction false} StaticCommand(items: seq<Item>)
    requires AllStatic(items)
    ensures Is(CommandTree(items), Argv(items))
    decreases |items|
  {
    if items != [] {
      StaticCommand(items[1..]);
      StaticWord(items[0]);
      var c, w := CommandTree(items), WordPieces(items[0].chunks);
      assert c.words == [w] + CommandTree(items[1..]).words;
      assert c.words[0] == w && c.words[1..] == CommandTree(items[1..]).words;
      assert [ArgOf(items[0])] + Argv(items[1..]) == Argv(items);
    }
  }

  lemma StaticWord(item: Item)
    requires Static(item)
    ensures Field(WordPieces(item.chunks)) == Some(ArgOf(item))
  {
    var w := Pieces(item.chunks[0]);
    assert WordPieces(item.chunks) == w + [] && w + [] == w;
    FieldOfChars(ArgOf(item), item.chunks[0].Literal?);
  }

  /** What Args says, word by word. */
  lemma {:induction false} ArgsFields(words: seq<Word>, argv: seq<string>)
    requires Collect(Field, words) == Some(argv)
    ensures |words| == |argv| && forall i :: 0 <= i < |words| ==> Field(words[i]) == Some(argv[i])
    decreases |words|
  {
    if words != [] {
      ArgsFields(words[1..], argv[1..]);
      forall i | 0 < i < |words| ensures Field(words[i]) == Some(argv[i]) {
        assert words[i] == words[1..][i - 1] && argv[i] == argv[1..][i - 1];
      }
    }
  }

  // ---- items, their text and their arguments, together

  /** Valid literal items that are spelled `text` and mean `argv`. */
  predicate Spells(items: seq<Item>, text: string, argv: seq<string>) {
    items != [] && (forall i :: 0 <= i < |items| ==> ValidItem(items[i])) &&
    AllStatic(items) && Argv(items) == argv && CommandText(items) == text
  }

  predicate NoGlob(words: seq<string>) { forall i :: 0 <= i < |words| ==> '[' !in words[i] }

  lemma SpellsPlain(words: seq<string>)
    requires words != [] && PlainWords(words) && NoGlob(words)
    ensures Spells(Plain(words), ShellSyntax.Join(words, " "), words)
  {
    PlainValid(words);
    PlainText(words);
    assert Argv(Plain(words)) == words;
  }

  lemma SpellsQuoted(value: string)
    ensures Spells([Quoted(value)], Quote(value), [value])
  {
    QuotedText(value);
  }

  lemma SpellsBoth(a: seq<Item>, ta: string, x: seq<string>, b: seq<Item>, tb: string, y: seq<string>)
    requires Spells(a, ta, x) && Spells(b, tb, y)
    ensures Spells(a + b, ta + " " + tb, x + y)
  {
    CommandTextOf(a, b);
    StaticBoth(a, b);
    assert forall i :: 0 <= i < |a + b| ==> (a + b)[i] == if i < |a| then a[i] else b[i - |a|];
  }

  lemma StaticBoth(a: seq<Item>, b: seq<Item>)
    requires AllStatic(a) && AllStatic(b)
    ensures AllStatic(a + b) && Argv(a + b) == Argv(a) + Argv(b)
  {}

  /** A valid command that is spelled `text` and runs exactly `argv`. */
  predicate Runs(items: seq<Item>, text: string, argv: seq<string>) {
    ValidCommand(items) && CommandText(items) == text && Is(CommandTree(items), argv)
  }

  /** A spelled command runs its arguments, unless it starts with a reserved word. */
  lemma SpelledRuns(word: string, items: seq<Item>, text: string, argv: seq<string>)
    requires Spells(items, text, argv) && items[0] == WordOf([Bare(word)]) && word !in RESERVED
    ensures Runs(items, text, argv)
  {
    FirstWord(word, [Bare(word)]);
    StaticCommand(items);
  }

  lemma {:induction false} TreeConcat(a: seq<Item>, b: seq<Item>)
    ensures CommandTree(a + b).words == CommandTree(a).words + CommandTree(b).words
    ensures CommandTree(a + b).redirects == CommandTree(a).redirects + CommandTree(b).redirects
    decreases |a|
  {
    if a == [] {
      assert a + b == b;
    } else {
      assert (a + b)[1..] == a[1..] + b;
      TreeConcat(a[1..], b);
      var first, rest := a[0], CommandTree(a[1..]);
      Before(FirstWords(first), rest.words, CommandTree(b).words);
      Before(FirstRedirects(first), rest.redirects, CommandTree(b).redirects);
      TreeNext(a);
      TreeNext(a + b);
    }
  }

  function FirstWords(item: Item): seq<Word> {
    match item
    case WordOf(chunks) => [WordPieces(chunks)]
    case Raw(text) => RawWords(text)
    case Into(_, _) => []
  }

  function FirstRedirects(item: Item): seq<Redirect> {
    match item
    case Into(op, target) => [Redirect(op, Chars(target, false))]
    case _ => []
  }

  lemma TreeNext(a: seq<Item>)
    requires a != []
    ensures CommandTree(a).words == FirstWords(a[0]) + CommandTree(a[1..]).words
    ensures CommandTree(a).redirects == FirstRedirects(a[0]) + CommandTree(a[1..]).redirects
  {}

  lemma Before<T>(a: seq<T>, b: seq<T>, c: seq<T>)
    ensures a + (b + c) == a + b + c
  {}

  // ---- whole scripts from their commands

  lemma OneStage(c: seq<Item>)
    requires ValidCommand(c)
    ensures ValidPipeline([c]) && PipelineText([c]) == CommandText(c) && PipelineTree([c]) == [CommandTree(c)]
  {}

  lemma TwoStages(c: seq<Item>, d: seq<Item>)
    requires ValidCommand(c) && ValidCommand(d)
    ensures ValidPipeline([c, d]) && PipelineText([c, d]) == CommandText(c) + " | " + CommandText(d)
    ensures PipelineTree([c, d]) == [CommandTree(c), CommandTree(d)]
  {
    TwoCommandsText(c, d);
    assert PipelineTree([c, d]) == [CommandTree(c), CommandTree(d)];
  }

  lemma OnePipeline(p: seq<seq<Item>>)
    requires ValidPipeline(p)
    ensures ValidAnd([p]) && AndText([p]) == PipelineText(p) && AndTree([p]) == [PipelineTree(p)]
  {}

  lemma GuardedPipeline(p: seq<seq<Item>>, rest: seq<seq<seq<Item>>>)
    requires ValidPipeline(p) && ValidAnd(rest)
    ensures ValidAnd([p] + rest) && AndText([p] + rest) == PipelineText(p) + " && " + AndText(rest)
    ensures AndTree([p] + rest) == [PipelineTree(p)] + AndTree(rest)
  {
    AndTextOf(p, rest);
    GuardedTree(p, rest);
    var all := [p] + rest;
    forall i | 0 <= i < |all| ensures ValidPipeline(all[i]) {
      assert i > 0 ==> all[i] == rest[i - 1];
    }
  }

  lemma GuardedTree(p: seq<seq<Item>>, rest: seq<seq<seq<Item>>>)
    ensures AndTree([p] + rest) == [PipelineTree(p)] + AndTree(rest)
  {}

  lemma CommandList(c: seq<Item>)
    requires ValidCommand(c)
    ensures ValidAnd([[c]]) && AndText([[c]]) == CommandText(c) && AndTree([[c]]) == [[CommandTree(c)]]
  {
    OneStage(c);
    OnePipeline([c]);
  }

  lemma PipeList(c: seq<Item>, d: seq<Item>)
    requires ValidCommand(c) && ValidCommand(d)
    ensures ValidAnd([[c, d]]) && AndText([[c, d]]) == CommandText(c) + " | " + CommandText(d)
    ensures AndTree([[c, d]]) == [[CommandTree(c), CommandTree(d)]]
  {
    TwoStages(c, d);
    OnePipeline([c, d]);
  }

  type SourceList = seq<seq<seq<Item>>>

  lemma LastList(a: SourceList)
    requires ValidAnd(a)
    ensures Valid([a]) && Render([a]) == AndText(a) && TreeOf([a]) == [AndTree(a)]
  {}

  lemma NextList(a: SourceList, rest: Source)
    requires ValidAnd(a) && Valid(rest)
    ensures Valid([a] + rest) && Render([a] + rest) == AndText(a) + "; " + Render(rest)
    ensures TreeOf([a] + rest) == [AndTree(a)] + TreeOf(rest)
  {
    RenderOf(a, rest);
    NextTree(a, rest);
    NextValid(a, rest);
  }

  lemma NextValid(a: SourceList, rest: Source)
    requires ValidAnd(a) && Valid(rest)
    ensures Valid([a] + rest)
  {
    var all := [a] + rest;
    forall i | 0 <= i < |all| ensures ValidAnd(all[i]) {
      assert i > 0 ==> all[i] == rest[i - 1];
    }
  }

  lemma NextTree(a: SourceList, rest: Source)
    ensures TreeOf([a] + rest) == [AndTree(a)] + TreeOf(rest)
  {
    var all := [a] + rest;
    forall i | 0 <= i < |all| ensures TreeOf(all)[i] == ([AndTree(a)] + TreeOf(rest))[i] {
      assert i > 0 ==> all[i] == rest[i - 1];
    }
  }

  // ---- what scripts of one, two, three and five lists are read as

  lemma OneListRead(a: SourceList)
    requires ValidAnd(a)
    ensures Parse(AndText(a)) == Some([AndTree(a)])
  {
    LastList(a);
    RenderedScriptIsRead([a]);
  }

  lemma TwoListsRead(a: SourceList, b: SourceList)
    requires ValidAnd(a) && ValidAnd(b)
    ensures Parse(AndText(a) + "; " + AndText(b)) == Some([AndTree(a), AndTree(b)])
  {
    LastList(b);
    NextList(a, [b]);
    RenderedScriptIsRead([a] + [b]);
    assert [AndTree(a)] + [AndTree(b)] == [AndTree(a), AndTree(b)];
  }

  lemma ThreeListsRead(a: SourceList, b: SourceList, c: SourceList)
    requires ValidAnd(a) && ValidAnd(b) && ValidAnd(c)
    ensures Parse(AndText(a) + "; " + (AndText(b) + "; " + AndText(c))) == Some([AndTree(a), AndTree(b), AndTree(c)])
  {
    LastList(c);
    NextList(b, [c]);
    NextList(a, [b] + [c]);
    RenderedScriptIsRead([a] + ([b] + [c]));
    assert [AndTree(a)] + ([AndTree(b)] + [AndTree(c)]) == [AndTree(a), AndTree(b), AndTree(c)];
  }

  lemma FiveListsRead(a: SourceList, b: SourceList, c: SourceList, d: SourceList, e: SourceList)
    requires ValidAnd(a) && ValidAnd(b) && ValidAnd(c) && ValidAnd(d) && ValidAnd(e)
    ensures Parse(AndText(a) + "; " + (AndText(b) + "; " + (AndText(c) + "; " + (AndText(d) + "; " + AndText(e))))) ==
            Some([AndTree(a), AndTree(b), AndTree(c), AndTree(d), AndTree(e)])
  {
    LastList(e);
    NextList(d, [e]);
    NextList(c, [d] + [e]);
    NextList(b, [c] + ([d] + [e]));
    NextList(a, [b] + ([c] + ([d] + [e])));
    RenderedScriptIsRead([a] + ([b] + ([c] + ([d] + [e]))));
    FiveJoined(AndTree(a), AndTree(b), AndTree(c), AndTree(d), AndTree(e));
  }

  lemma FiveJoined<X>(a: X, b: X, c: X, d: X, e: X)
    ensures [a] + ([b] + ([c] + ([d] + [e]))) == [a, b, c, d, e]
  {}
}
