/** Reading a rendered script gives back its tree, for every valid script. The
    proof goes level by level: chunks, words, items, and one lemma for each of
    the two joins (text with a separator, tokens with an operator). */
module ShellReading {
  import opened Outcome
  import opened ShellQuote
  import opened ShellLexer
  import opened ShellSyntax

  // ---- quoting

  /** Quote yields one word made of the value's own characters, all literal,
      whatever stood in front of it inside the word. */
  lemma QuotedWord(l: Lexer, value: string)
    requires l.mode == InWord
    ensures Run(l, Quote(value)) == l.(word := l.word + Chars(value, true))
  {
    if value == "" {
      RunConcat(l, "'", "'");
      RunOne(l, '\'');
      RunOne(l.At(InSingle), '\'');
      assert "'" + "'" == "''";
    } else {
      var inner := l.At(InSingle);
      var read := inner.(word := inner.word + Chars(value, true));
      calc {
        Run(l, Quote(value));
        { RunConcat(l, "'" + ReplaceQuotes(value), "'"); RunConcat(l, "'", ReplaceQuotes(value)); }
        Run(Run(Run(l, "'"), ReplaceQuotes(value)), "'");
        { RunOne(l, '\''); }
        Run(Run(inner, ReplaceQuotes(value)), "'");
        { ReplacedQuotes(inner, value); }
        Run(read, "'");
        { RunOne(read, '\''); }
        read.At(InWord);
      }
    }
  }

  lemma {:induction false} ReplacedQuotes(l: Lexer, value: string)
    requires l.mode == InSingle
    ensures Run(l, ReplaceQuotes(value)) == l.(word := l.word + Chars(value, true))
    decreases |value|
  {
    if value == [] {
      assert l.word + Chars(value, true) == l.word;
    } else {
      var c, rest := value[0], value[1..];
      ReplacedQuote(l, c, Replaced(c));
      RunConcat(l, Replaced(c), ReplaceQuotes(rest));
      ReplacedQuotes(l.Put(Ch(c, true)), rest);
      assert (l.word + [Ch(c, true)]) + Chars(rest, true) == l.word + Chars(value, true);
    }
  }

  function Replaced(c: char): string { if c == '\'' then ESCAPED_QUOTE else [c] }

  lemma ReplacedQuote(l: Lexer, c: char, text: string)
    requires l.mode == InSingle && text == Replaced(c)
    ensures Run(l, text) == l.Put(Ch(c, true))
  {
    if c == '\'' {
      EscapedQuote(l);
    } else {
      RunOne(l, c);
    }
  }

  lemma EscapedQuote(l: Lexer)
    requires l.mode == InSingle
    ensures Run(l, ESCAPED_QUOTE) == l.Put(Ch('\'', true))
  {
    assert ESCAPED_QUOTE == ['\''] + (['"'] + (['\''] + (['"'] + ['\''])));
    RunFive(l, '\'', '"', '\'', '"', '\'');
  }

  lemma RunFive(l: Lexer, a: char, b: char, c: char, d: char, e: char)
    ensures Run(l, [a] + ([b] + ([c] + ([d] + [e])))) == Step(Step(Step(Step(Step(l, a), b), c), d), e)
  {
    RunTwo(l, a, b, [c] + ([d] + [e]));
    RunTwo(Step(Step(l, a), b), c, d, [e]);
    RunOne(Step(Step(Step(Step(l, a), b), c), d), e);
  }

  lemma RunTwo(l: Lexer, a: char, b: char, s: string)
    ensures Run(l, [a] + ([b] + s)) == Run(Step(Step(l, a), b), s)
  {
    RunCons(l, a, [b] + s);
    RunCons(Step(l, a), b, s);
  }

  // ---- the other chunks

  lemma {:induction false} BareText(l: Lexer, s: string)
    requires l.mode == InWord && AllPlain(s)
    ensures Run(l, s) == l.(word := l.word + Chars(s, false))
    decreases |s|
  {
    if s == [] {
      assert l.word + Chars(s, false) == l.word;
    } else {
      BareText(l.Put(Ch(s[0], false)), s[1..]);
      assert (l.word + [Ch(s[0], false)]) + Chars(s[1..], false) == l.word + Chars(s, false);
    }
  }

  lemma {:induction false} DoubleText(l: Lexer, s: string)
    requires l.mode == InDouble && AllPlain(s)
    ensures Run(l, s) == l.(word := l.word + Chars(s, true))
    decreases |s|
  {
    if s == [] {
      assert l.word + Chars(s, true) == l.word;
    } else {
      DoubleText(l.Put(Ch(s[0], true)), s[1..]);
      assert (l.word + [Ch(s[0], true)]) + Chars(s[1..], true) == l.word + Chars(s, true);
    }
  }

  lemma {:induction false} NestedEmpty(s: string)
    ensures NestedRun(Closed, s) == Closed
    decreases |s|
  {
    if s != [] {
      NestedEmpty(s[1..]);
    }
  }

  lemma {:induction false} NestedConcat(open: Nesting, a: string, b: string)
    ensures NestedRun(open, a + b) == NestedRun(NestedRun(open, a), b)
    decreases |a|
  {
    if a == [] {
      assert a + b == b;
    } else {
      assert (a + b)[1..] == a[1..] + b;
      NestedConcat(Nested(open, a[0]), a[1..], b);
    }
  }

  /** A substitution is skipped exactly as far as its nesting is still open. */
  lemma {:induction false} SkipNested(l: Lexer, open: Nesting, text: string, quoted: bool, s: string)
    requires l.mode == InSub(open, text, quoted) && NestedRun(open, s) != Closed
    ensures Run(l, s) == l.At(InSub(NestedRun(open, s), text + s, quoted))
    decreases |s|
  {
    if s == [] {
      assert text + s == text;
    } else {
      var next := Nested(open, s[0]);
      var more := l.At(InSub(next, text + [s[0]], quoted));
      NestedEmpty(s[1..]);
      SkipOne(l, open, text, quoted, s[0], next);
      SkipNested(more, next, text + [s[0]], quoted, s[1..]);
      assert (text + [s[0]]) + s[1..] == text + s;
    }
  }

  lemma SkipOne(l: Lexer, open: Nesting, text: string, quoted: bool, c: char, next: Nesting)
    requires l.mode == InSub(open, text, quoted) && next == Nested(open, c)
    ensures next != Closed ==> Step(l, c) == l.At(InSub(next, text + [c], quoted))
  {}

  lemma Substitution(l: Lexer, script: string, quoted: bool)
    requires l.mode == Back(quoted) && SubSafe(script)
    ensures Run(l, "$(" + script + ")") == l.Put(Sub(script, quoted))
  {
    var l1 := l.At(Dollar(quoted));
    var l2 := l.At(InSub(IN_GROUP, "", quoted));
    var l3 := l.At(InSub(IN_GROUP, script, quoted));
    calc {
      Run(l, "$(" + script + ")");
      { RunConcat(l, "$(" + script, ")"); RunConcat(l, "$(", script); }
      Run(Run(Run(l, "$("), script), ")");
      { assert "$(" == "$" + "("; RunConcat(l, "$", "("); RunOne(l, '$'); RunOne(l1, '('); }
      Run(Run(l2, script), ")");
      { SkipNested(l2, IN_GROUP, "", quoted, script); assert "" + script == script; }
      Run(l3, ")");
      { RunOne(l3, ')'); }
      l.Put(Sub(script, quoted));
    }
  }

  lemma {:induction false} NameText(l: Lexer, name: string, s: string, quoted: bool)
    requires l.mode == Name(name, quoted) && forall i :: 0 <= i < |s| ==> IsNameChar(s[i])
    ensures Run(l, s) == l.At(Name(name + s, quoted))
    decreases |s|
  {
    if s == [] {
      assert name + s == name;
    } else {
      NameText(l.At(Name(name + [s[0]], quoted)), name + [s[0]], s[1..], quoted);
      assert (name + [s[0]]) + s[1..] == name + s;
    }
  }

  lemma {:induction false} BraceText(l: Lexer, name: string, s: string, quoted: bool)
    requires l.mode == Brace(name, quoted) && forall i :: 0 <= i < |s| ==> IsNameChar(s[i])
    requires name == "" && s != "" ==> IsNameStart(s[0])
    ensures Run(l, s) == l.At(Brace(name + s, quoted))
    decreases |s|
  {
    if s == [] {
      assert name + s == name;
    } else {
      BraceText(l.At(Brace(name + [s[0]], quoted)), name + [s[0]], s[1..], quoted);
      assert (name + [s[0]]) + s[1..] == name + s;
    }
  }

  lemma NameRead(l: Lexer, name: string, quoted: bool)
    requires l.mode == Dollar(quoted) && IsName(name)
    ensures Run(l, name) == l.At(Name(name, quoted))
  {
    assert name == [name[0]] + name[1..];
    RunCons(l, name[0], name[1..]);
    NameText(l.At(Name([name[0]], quoted)), [name[0]], name[1..], quoted);
  }

  lemma Enclosed(open: string, a: char, b: char, s: string, close: string)
    requires open == [a, b]
    ensures open + s + close == [a] + ([b] + (s + close))
  {}

  lemma DoubleNameText(l: Lexer, name: string)
    requires l.mode == InWord && IsName(name)
    ensures Run(l, "\"$" + name + "\"") == l.Put(Var(name, true))
  {
    Enclosed("\"$", '"', '$', name, "\"");
    RunTwo(l, '"', '$', name + "\"");
    NameEnds(l.At(Dollar(true)), name);
  }

  lemma NameEnds(l: Lexer, name: string)
    requires l.mode == Dollar(true) && IsName(name)
    ensures Run(l, name + "\"") == l.At(InWord).Put(Var(name, true))
  {
    RunConcat(l, name, "\"");
    NameRead(l, name, true);
    RunOne(l.At(Name(name, true)), '"');
  }

  lemma BraceRead(l: Lexer, name: string)
    requires l.mode == InDouble && IsName(name)
    ensures Run(l, "${" + name + "}") == l.Put(Var(name, true))
  {
    Enclosed("${", '$', '{', name, "}");
    RunTwo(l, '$', '{', name + "}");
    BraceEnds(l.At(Brace("", true)), name);
  }

  lemma BraceEnds(l: Lexer, name: string)
    requires l.mode == Brace("", true) && IsName(name)
    ensures Run(l, name + "}") == l.At(InDouble).Put(Var(name, true))
  {
    RunConcat(l, name, "}");
    BraceText(l, "", name, true);
    assert "" + name == name;
    RunOne(l.At(Brace(name, true)), '}');
  }

  lemma BraceEnclosed(name: string, tail: string)
    ensures "\"${" + name + "}" + tail + "\"" == ['"'] + (("${" + name + "}") + (tail + "\""))
  {
    assert "\"${" == ['"'] + "${";
  }

  lemma DoubleBraceText(l: Lexer, name: string, tail: string)
    requires l.mode == InWord && IsName(name) && AllPlain(tail)
    ensures Run(l, "\"${" + name + "}" + tail + "\"") == l.(word := l.word + ([Var(name, true)] + Chars(tail, true)))
  {
    var l1 := l.At(InDouble);
    var l2 := l1.Put(Var(name, true));
    var l3 := l2.(word := l2.word + Chars(tail, true));
    var brace := "${" + name + "}";
    BraceEnclosed(name, tail);
    RunCons(l, '"', brace + (tail + "\""));
    RunConcat(l1, brace, tail + "\"");
    BraceRead(l1, name);
    RunConcat(l2, tail, "\"");
    DoubleText(l2, tail);
    RunOne(l3, '"');
    assert (l.word + [Var(name, true)]) + Chars(tail, true) == l.word + ([Var(name, true)] + Chars(tail, true));
  }

  lemma DoubleSubRead(l: Lexer, text: string, script: string)
    requires l.mode == InWord && SubSafe(script) && text == "$(" + script + ")"
    ensures Run(l, "\"" + text + "\"") == l.Put(Sub(script, true))
  {
    var l1 := l.At(InDouble);
    RunConcat(l, "\"" + text, "\"");
    RunConcat(l, "\"", text);
    RunOne(l, '"');
    Substitution(l1, script, true);
    RunOne(l1.Put(Sub(script, true)), '"');
  }

  lemma ChunkRead(l: Lexer, c: Chunk)
    requires l.mode == InWord && ValidChunk(c)
    ensures Run(l, ChunkText(c)) == l.(word := l.word + Pieces(c))
  {
    match c
    case Bare(text) => BareText(l, text);
    case Literal(value) => QuotedWord(l, value);
    case DoubleSub(script) =>
      DoubleSubRead(l, "$(" + script + ")", script);
      assert ChunkText(c) == "\"" + ("$(" + script + ")") + "\"";
    case BareSub(script) => Substitution(l, script, false);
    case DoubleName(name) => DoubleNameText(l, name);
    case DoubleBrace(name, tail) => DoubleBraceText(l, name, tail);
  }

  predicate ValidChunks(chunks: seq<Chunk>) { forall i :: 0 <= i < |chunks| ==> ValidChunk(chunks[i]) }

  lemma FirstChunk(l: Lexer, chunks: seq<Chunk>)
    requires l.mode == InWord && chunks != [] && ValidChunks(chunks)
    ensures Run(l, WordText(chunks)) == Run(l.(word := l.word + Pieces(chunks[0])), WordText(chunks[1..]))
  {
    RunConcat(l, ChunkText(chunks[0]), WordText(chunks[1..]));
    ChunkRead(l, chunks[0]);
  }

  lemma {:induction false} WordRead(l: Lexer, chunks: seq<Chunk>)
    requires l.mode == InWord && ValidChunks(chunks)
    ensures Run(l, WordText(chunks)) == l.(word := l.word + WordPieces(chunks))
    decreases |chunks|
  {
    if chunks == [] {
      assert l.word + WordPieces(chunks) == l.word;
    } else {
      FirstChunk(l, chunks);
      WordRead(l.(word := l.word + Pieces(chunks[0])), chunks[1..]);
      Associative(l.word, Pieces(chunks[0]), WordPieces(chunks[1..]));
    }
  }

  lemma Associative<T>(a: seq<T>, b: seq<T>, c: seq<T>)
    ensures (a + b) + c == a + (b + c)
  {}

  /** The first character of a word both ends the gap and belongs to the word. */
  lemma WordStarts(l: Lexer, chunks: seq<Chunk>)
    requires l.mode == Gap && ValidItem(WordOf(chunks))
    ensures Run(l, WordText(chunks)) == Run(l.At(InWord), WordText(chunks))
  {
    var text := WordText(chunks);
    var c := ChunkText(chunks[0])[0];
    assert text[0] == c && text != [];
    assert Step(l, c) == Step(l.At(InWord), c);
  }

  // ---- texts and the tokens they give

  /** Reading `text` leaves nothing open: at the end of the input its tokens are
      `tokens`, and a blank or a `;` after it starts afresh behind them. */
  predicate Gives(text: string, tokens: seq<Token>) {
    var l := Run(START, text);
    Finish(l) == Some(tokens) && Step(l, ' ') == Lexer(tokens, [], Gap) &&
    Step(l, ';') == Lexer(tokens, [], InOp(";"))
  }

  lemma {:induction false} NoWordInGaps(l: Lexer, s: string)
    requires l.mode.Gap? || l.mode.InOp? ==> l.word == []
    ensures Run(l, s).mode.Gap? || Run(l, s).mode.InOp? ==> Run(l, s).word == []
    decreases |s|
  {
    if s != [] {
      NoWordInGap(l, s[0]);
      NoWordInGaps(Step(l, s[0]), s[1..]);
    }
  }

  lemma NoWordInGap(l: Lexer, c: char)
    requires l.mode.Gap? || l.mode.InOp? ==> l.word == []
    ensures Step(l, c).mode.Gap? || Step(l, c).mode.InOp? ==> Step(l, c).word == []
  {}

  lemma ItemRead(item: Item)
    requires ValidItem(item)
    ensures Gives(ItemText(item), ItemTokens(item))
  {
    match item
    case WordOf(chunks) =>
      WordStarts(START, chunks);
      WordRead(START.At(InWord), chunks);
      assert [] + WordPieces(chunks) == WordPieces(chunks);
      assert [] + [Text(WordPieces(chunks))] == ItemTokens(item);
    case Raw(text) => RawRead(text);
    case Into(op, target) =>
      IntoRead(target);
  }

  lemma IntoRead(target: string)
    requires target != "" && AllPlain(target)
    ensures Gives(">&" + target, [Op(">&"), Text(Chars(target, false))])
  {
    var l1, l2 := START.At(InOp(">")), START.At(InOp(">&"));
    assert ">&" + target == ['>'] + (['&'] + target);
    RunTwo(START, '>', '&', target);
    assert ">" + "&" == ">&" && Step(START, '>') == l1 && Step(l1, '&') == l2;
    TargetRead(l2, target);
    assert [Op(">&")] + [Text(Chars(target, false))] == [Op(">&"), Text(Chars(target, false))];
  }

  lemma TargetRead(l: Lexer, target: string)
    requires l == START.At(InOp(">&")) && target != "" && AllPlain(target)
    ensures Run(l, target) == Lexer([Op(">&")], Chars(target, false), InWord)
  {
    var next := Lexer([Op(">&")], [], InWord);
    assert [] + [Op(">&")] == [Op(">&")];
    assert Step(l, target[0]) == Step(next, target[0]);
    BareText(next, target);
    assert [] + Chars(target, false) == Chars(target, false);
  }

  lemma RawRead(text: string)
    requires OnlyWords(text)
    ensures Gives(text, ItemTokens(Raw(text)))
  {
    var l := Run(START, text);
    NoWordInGaps(START, text);
    match l.mode
    case InOp(op) =>
      LastIsOp(l.tokens, op);
    case _ =>
  }

  lemma LastIsOp(tokens: seq<Token>, op: string)
    ensures exists i :: 0 <= i < |tokens + [Op(op)]| && !(tokens + [Op(op)])[i].Text?
  {
    assert (tokens + [Op(op)])[|tokens|] == Op(op);
  }

  /** How the separators of the grammar are spelled, and the tokens they are. */
  predicate IsSeparator(text: string, tokens: seq<Token>) {
    || (text == " " && tokens == [])
    || (text == " | " && tokens == [Op("|")])
    || (text == " && " && tokens == [Op("&&")])
    || (text == "; " && tokens == [Op(";")])
  }

  lemma SeparatorRead(l: Lexer, tokens: seq<Token>, sep: string, sepTokens: seq<Token>)
    requires IsSeparator(sep, sepTokens)
    requires Step(l, ' ') == Lexer(tokens, [], Gap) && Step(l, ';') == Lexer(tokens, [], InOp(";"))
    ensures Run(l, sep) == Lexer(tokens + sepTokens, [], Gap)
  {
    var gap := Lexer(tokens, [], Gap);
    if sep == " " {
      RunOne(l, ' ');
      assert tokens + [] == tokens;
    } else if sep == "; " {
      assert sep == [';'] + " ";
      RunCons(l, ';', " ");
      RunOne(Lexer(tokens, [], InOp(";")), ' ');
    } else if sep == " | " {
      assert sep == [' '] + (['|'] + " ");
      RunCons(l, ' ', ['|'] + " ");
      RunCons(gap, '|', " ");
      RunOne(gap.At(InOp("|")), ' ');
    } else {
      assert sep == [' '] + (['&'] + (['&'] + " "));
      RunCons(l, ' ', ['&'] + (['&'] + " "));
      RunCons(gap, '&', ['&'] + " ");
      RunCons(gap.At(InOp("&")), '&', " ");
      assert "&" + ['&'] == "&&";
      RunOne(gap.At(InOp("&&")), ' ');
    }
  }

  lemma GivesJoined(a: string, ta: seq<Token>, sep: string, ts: seq<Token>, b: string, tb: seq<Token>)
    requires Gives(a, ta) && Gives(b, tb) && IsSeparator(sep, ts)
    ensures Gives(a + sep + b, ta + ts + tb)
  {
    var front := ta + ts;
    RunConcat(START, a + sep, b);
    RunConcat(START, a, sep);
    SeparatorRead(Run(START, a), ta, sep, ts);
    assert front + [] == front;
    assert Lexer(front, [], Gap) == Before(front, START);
    RunBefore(front, START, b);
    var l := Run(START, b);
    FinishBefore(front, l);
    StepBefore(front, l, ' ');
    StepBefore(front, l, ';');
  }

  lemma FinishBefore(front: seq<Token>, l: Lexer)
    requires Finish(l).Some?
    ensures Finish(Before(front, l)) == Some(front + Finish(l).value)
  {
    assert forall t: Token :: front + (l.tokens + [t]) == (front + l.tokens) + [t];
  }

  lemma {:induction false} GivesAll(texts: seq<string>, tokens: seq<seq<Token>>, sep: string, ts: seq<Token>)
    requires |texts| == |tokens| >= 1 && IsSeparator(sep, ts)
    requires forall i :: 0 <= i < |texts| ==> Gives(texts[i], tokens[i])
    ensures Gives(Join(texts, sep), JoinTokens(tokens, ts))
    decreases |texts|
  {
    if |texts| > 1 {
      GivesAll(texts[1..], tokens[1..], sep, ts);
      GivesJoined(texts[0], tokens[0], sep, ts, Join(texts[1..], sep), JoinTokens(tokens[1..], ts));
    }
  }

  // ---- rendered scripts are read level by level

  function CommandTokens(c: seq<Item>): seq<Token> {
    JoinTokens(seq(|c|, i requires 0 <= i < |c| => ItemTokens(c[i])), [])
  }

  function PipelineTokens(p: seq<seq<Item>>): seq<Token> {
    JoinTokens(seq(|p|, i requires 0 <= i < |p| => CommandTokens(p[i])), [Op("|")])
  }

  function AndTokens(a: seq<seq<seq<Item>>>): seq<Token> {
    JoinTokens(seq(|a|, i requires 0 <= i < |a| => PipelineTokens(a[i])), [Op("&&")])
  }

  function SourceTokens(s: Source): seq<Token> {
    JoinTokens(seq(|s|, i requires 0 <= i < |s| => AndTokens(s[i])), [Op(";")])
  }

  lemma CommandRead(c: seq<Item>)
    requires ValidCommand(c)
    ensures Gives(CommandText(c), CommandTokens(c))
  {
    forall i | 0 <= i < |c| ensures Gives(ItemText(c[i]), ItemTokens(c[i])) { ItemRead(c[i]); }
    GivesAll(seq(|c|, i requires 0 <= i < |c| => ItemText(c[i])),
             seq(|c|, i requires 0 <= i < |c| => ItemTokens(c[i])), " ", []);
  }

  lemma PipelineRead(p: seq<seq<Item>>)
    requires ValidPipeline(p)
    ensures Gives(PipelineText(p), PipelineTokens(p))
  {
    forall i | 0 <= i < |p| ensures Gives(CommandText(p[i]), CommandTokens(p[i])) { CommandRead(p[i]); }
    GivesAll(seq(|p|, i requires 0 <= i < |p| => CommandText(p[i])),
             seq(|p|, i requires 0 <= i < |p| => CommandTokens(p[i])), " | ", [Op("|")]);
  }

  lemma AndRead(a: seq<seq<seq<Item>>>)
    requires ValidAnd(a)
    ensures Gives(AndText(a), AndTokens(a))
  {
    forall i | 0 <= i < |a| ensures Gives(PipelineText(a[i]), PipelineTokens(a[i])) { PipelineRead(a[i]); }
    GivesAll(seq(|a|, i requires 0 <= i < |a| => PipelineText(a[i])),
             seq(|a|, i requires 0 <= i < |a| => PipelineTokens(a[i])), " && ", [Op("&&")]);
  }

  lemma SourceRead(s: Source)
    requires Valid(s)
    ensures Gives(Render(s), SourceTokens(s))
  {
    forall i | 0 <= i < |s| ensures Gives(AndText(s[i]), AndTokens(s[i])) { AndRead(s[i]); }
    GivesAll(seq(|s|, i requires 0 <= i < |s| => AndText(s[i])),
             seq(|s|, i requires 0 <= i < |s| => AndTokens(s[i])), "; ", [Op(";")]);
  }

  // ---- tokens are parsed level by level

  predicate OnlyOps(tokens: seq<Token>, ops: set<string>) {
    forall i :: 0 <= i < |tokens| && tokens[i].Op? ==> tokens[i].op in ops
  }

  lemma {:induction false} OnlyOpsJoined(parts: seq<seq<Token>>, sep: seq<Token>, ops: set<string>)
    requires forall i :: 0 <= i < |parts| ==> OnlyOps(parts[i], ops)
    requires OnlyOps(sep, ops)
    ensures OnlyOps(JoinTokens(parts, sep), ops)
    decreases |parts|
  {
    if |parts| > 1 {
      OnlyOpsJoined(parts[1..], sep, ops);
    }
  }

  lemma {:induction false} SplitNothing(a: seq<Token>, sep: Token)
    requires sep !in a
    ensures Split(a, sep) == [a]
  {
    if a != [] {
      SplitNothing(a[1..], sep);
      assert [a[0]] + a[1..] == a;
    }
  }

  lemma {:induction false} SplitFirst(a: seq<Token>, sep: Token, b: seq<Token>)
    requires sep !in a
    ensures Split(a + [sep] + b, sep) == [a] + Split(b, sep)
  {
    var all := a + [sep] + b;
    if a == [] {
      assert all[1..] == b;
    } else {
      assert all[1..] == a[1..] + [sep] + b;
      SplitFirst(a[1..], sep, b);
      assert [a[0]] + a[1..] == a;
    }
  }

  lemma {:induction false} SplitJoined(parts: seq<seq<Token>>, sep: Token)
    requires parts != [] && forall i :: 0 <= i < |parts| ==> sep !in parts[i]
    ensures Split(JoinTokens(parts, [sep]), sep) == parts
    decreases |parts|
  {
    if |parts| == 1 {
      SplitNothing(parts[0], sep);
    } else {
      SplitFirst(parts[0], sep, JoinTokens(parts[1..], [sep]));
      SplitJoined(parts[1..], sep);
    }
  }

  lemma {:induction false} CollectAll<A, B>(f: A -> Option<B>, xs: seq<A>, ys: seq<B>)
    requires |xs| == |ys| && forall i :: 0 <= i < |xs| ==> f(xs[i]) == Some(ys[i])
    ensures Collect(f, xs) == Some(ys)
    decreases |xs|
  {
    if xs != [] {
      CollectAll(f, xs[1..], ys[1..]);
      assert [ys[0]] + ys[1..] == ys;
    }
  }

  lemma {:induction false} WordsParsed(words: seq<Token>, rest: seq<Token>)
    requires ParseWords(rest).Some? && forall i :: 0 <= i < |words| ==> words[i].Text?
    ensures ParseWords(words + rest).Some?
    ensures var c := ParseWords(rest).value;
            ParseWords(words + rest).value.redirects == c.redirects &&
            ParseWords(words + rest).value.words ==
              seq(|words|, i requires 0 <= i < |words| => if words[i].Text? then words[i].word else []) + c.words
    decreases |words|
  {
    if words == [] {
      assert words + rest == rest;
    } else {
      assert (words + rest)[1..] == words[1..] + rest;
      WordsParsed(words[1..], rest);
    }
  }

  lemma {:induction false} ItemsParsed(c: seq<Item>)
    requires forall i :: 0 <= i < |c| ==> ValidItem(c[i])
    ensures ParseWords(CommandTokens(c)) == Some(CommandTree(c))
    ensures OnlyOps(CommandTokens(c), {">&"})
    decreases |c|
  {
    if c != [] {
      var first, rest := ItemTokens(c[0]), CommandTokens(c[1..]);
      ItemsParsed(c[1..]);
      FirstItem(c);
      var all := first + rest;
      match c[0] {
        case WordOf(chunks) => assert all[1..] == rest;
        case Into(op, target) => assert all[2..] == rest;
        case Raw(text) => WordsParsed(first, rest);
      }
    }
  }

  lemma FirstItem(c: seq<Item>)
    requires c != []
    ensures CommandTokens(c) == ItemTokens(c[0]) + CommandTokens(c[1..])
  {
    var parts := seq(|c|, i requires 0 <= i < |c| => ItemTokens(c[i]));
    assert parts[1..] == seq(|c| - 1, i requires 0 <= i < |c| - 1 => ItemTokens(c[1..][i]));
    assert parts[0] + [] == parts[0];
  }

  lemma CommandParsed(c: seq<Item>)
    requires ValidCommand(c)
    ensures CommandTokens(c) != [] && ParseCommand(CommandTokens(c)) == Some(CommandTree(c))
    ensures OnlyOps(CommandTokens(c), {">&"})
  {
    ItemsParsed(c);
    FirstItem(c);
  }

  lemma PipelineParsed(p: seq<seq<Item>>)
    requires ValidPipeline(p)
    ensures PipelineTokens(p) != [] && ParsePipeline(PipelineTokens(p)) == Some(PipelineTree(p))
    ensures OnlyOps(PipelineTokens(p), {">&", "|"})
  {
    var parts := seq(|p|, i requires 0 <= i < |p| => CommandTokens(p[i]));
    forall i | 0 <= i < |p|
      ensures parts[i] != [] && ParseCommand(parts[i]) == Some(CommandTree(p[i])) && OnlyOps(parts[i], {">&"})
    {
      CommandParsed(p[i]);
    }
    OnlyOpsJoined(parts, [Op("|")], {">&", "|"});
    SplitJoined(parts, Op("|"));
    CollectAll(ParseCommand, parts, PipelineTree(p));
  }

  lemma AndParsed(a: seq<seq<seq<Item>>>)
    requires ValidAnd(a)
    ensures AndTokens(a) != [] && ParseAnd(AndTokens(a)) == Some(AndTree(a))
    ensures OnlyOps(AndTokens(a), {">&", "|", "&&"})
  {
    var parts := seq(|a|, i requires 0 <= i < |a| => PipelineTokens(a[i]));
    forall i | 0 <= i < |a|
      ensures parts[i] != [] && ParsePipeline(parts[i]) == Some(PipelineTree(a[i])) && OnlyOps(parts[i], {">&", "|"})
    {
      PipelineParsed(a[i]);
    }
    OnlyOpsJoined(parts, [Op("&&")], {">&", "|", "&&"});
    SplitJoined(parts, Op("&&"));
    CollectAll(ParsePipeline, parts, AndTree(a));
  }

  lemma SourceParsed(s: Source)
    requires Valid(s)
    ensures ParseTokens(SourceTokens(s)) == Some(TreeOf(s))
  {
    var parts := seq(|s|, i requires 0 <= i < |s| => AndTokens(s[i]));
    forall i | 0 <= i < |s|
      ensures parts[i] != [] && ParseAnd(parts[i]) == Some(AndTree(s[i])) && OnlyOps(parts[i], {">&", "|", "&&"})
    {
      AndParsed(s[i]);
    }
    SplitJoined(parts, Op(";"));
    CollectAll(ParseAnd, parts, TreeOf(s));
  }

  /** The theorem: reading any valid rendered script gives exactly its tree. */
  lemma RenderedScriptIsRead(s: Source)
    requires Valid(s)
    ensures Parse(Render(s)) == Some(TreeOf(s))
  {
    SourceRead(s);
    SourceParsed(s);
  }
}
