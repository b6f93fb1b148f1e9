/** Token recognition of the POSIX Shell Command Language (IEEE Std 1003.1,
    sections 2.2.2, 2.2.3 and 2.3), one character at a time. The state is what
    the standard's rules look at: the tokens delimited so far, the word being
    built, and what the previous characters opened. */
module ShellLexer {
  import opened Outcome
  import opened ShellQuote

  /** One piece of a word after quote removal. `quoted` tells a literal
      character from one that globbing could still see, and a substitution
      whose result is split into fields from one whose result is not. */
  datatype Piece =
    | Ch(c: char, quoted: bool)
    | Var(name: string, quoted: bool)
    | Sub(text: string, quoted: bool)

  type Word = seq<Piece>

  datatype Token = Text(word: Word) | Op(op: string)

  /** What is open inside a `$( ... )` that is being skipped to its end. */
  datatype Nest = Group | Single | Double | DoubleDollar | Escape

  /** The innermost first; Closed is the end of the substitution. */
  datatype Nesting = Closed | Open(top: Nest, below: Nesting)

  const IN_GROUP := Open(Group, Closed)

  datatype Mode =
    | Gap
    | InOp(op: string)
    | InWord
    | InSingle
    | InDouble
    | Escaped(quoted: bool)
    | Dollar(quoted: bool)
    | Brace(name: string, quoted: bool)
    | Name(name: string, quoted: bool)
    | InSub(open: Nesting, text: string, quoted: bool)
    | Bad

  datatype Lexer = Lexer(tokens: seq<Token>, word: Word, mode: Mode) {
    function Put(p: Piece): Lexer { this.(word := word + [p]) }
    function At(m: Mode): Lexer { this.(mode := m) }
    function EndWord(m: Mode): Lexer { Lexer(tokens + [Text(word)], [], m) }
    function EndOp(op: string): Lexer { Lexer(tokens + [Op(op)], [], Gap) }
  }

  const START := Lexer([], [], Gap)

  predicate IsBlank(c: char) { c == ' ' || c == '\t' }

  predicate IsOperator(c: char) {
    c == '|' || c == '&' || c == ';' || c == '<' || c == '>' || c == '(' || c == ')'
  }

  predicate IsNameStart(c: char) { 'a' <= c <= 'z' || 'A' <= c <= 'Z' || c == '_' }

  predicate IsNameChar(c: char) { IsNameStart(c) || '0' <= c <= '9' }

  predicate ExtendsOp(op: string, c: char) {
    || ((op == "&" || op == "|" || op == ";") && op[0] == c)
    || (op == "<" && (c == '<' || c == '&' || c == '>'))
    || (op == ">" && (c == '>' || c == '&' || c == '|'))
    || (op == "<<" && c == '-')
  }

  function Back(quoted: bool): Mode { if quoted then InDouble else InWord }

  function Step(l: Lexer, c: char): Lexer {
    match l.mode
    case Gap => AtGap(l, c)
    case InOp(op) => if ExtendsOp(op, c) then l.At(InOp(op + [c])) else AtGap(l.EndOp(op), c)
    case InWord => AtWord(l, c)
    case InSingle => if c == '\'' then l.At(InWord) else l.Put(Ch(c, true))
    case InDouble => AtDouble(l, c)
    case Escaped(quoted) =>
      if !quoted || c in {'$', '`', '"', '\\'} then l.At(Back(quoted)).Put(Ch(c, true))
      else l.At(InDouble).Put(Ch('\\', true)).Put(Ch(c, true))
    case Dollar(quoted) =>
      if c == '(' then l.At(InSub(IN_GROUP, "", quoted))
      else if c == '{' then l.At(Brace("", quoted))
      else if IsNameStart(c) then l.At(Name([c], quoted))
      else l.At(Bad)
    case Brace(name, quoted) =>
      if c == '}' && name != "" then l.At(Back(quoted)).Put(Var(name, quoted))
      else if (if name == "" then IsNameStart(c) else IsNameChar(c)) then l.At(Brace(name + [c], quoted))
      else l.At(Bad)
    case Name(name, quoted) =>
      if IsNameChar(c) then l.At(Name(name + [c], quoted))
      else AtOpenWord(l.At(Back(quoted)).Put(Var(name, quoted)), c)
    case InSub(open, text, quoted) =>
      var rest := Nested(open, c);
      if rest.Closed? then l.At(Back(quoted)).Put(Sub(text, quoted))
      else l.At(InSub(rest, text + [c], quoted))
    case Bad => l
  }

  /** A character met outside any word or operator. */
  function AtGap(l: Lexer, c: char): Lexer {
    if IsBlank(c) then l.At(Gap)
    else if IsOperator(c) then l.At(InOp([c]))
    else if c == '#' || c == '\n' then l.At(Bad)
    else AtWord(l.At(InWord), c)
  }

  /** A character met inside a word and outside quotes. */
  function AtWord(l: Lexer, c: char): Lexer {
    if IsBlank(c) then l.EndWord(Gap)
    else if IsOperator(c) then l.EndWord(InOp([c]))
    else if c == '\'' then l.At(InSingle)
    else if c == '"' then l.At(InDouble)
    else if c == '\\' then l.At(Escaped(false))
    else if c == '$' then l.At(Dollar(false))
    else if c == '`' || c == '\n' then l.At(Bad)
    else l.Put(Ch(c, false))
  }

  function AtDouble(l: Lexer, c: char): Lexer {
    if c == '"' then l.At(InWord)
    else if c == '\\' then l.At(Escaped(true))
    else if c == '$' then l.At(Dollar(true))
    else if c == '`' then l.At(Bad)
    else l.Put(Ch(c, true))
  }

  function AtOpenWord(l: Lexer, c: char): Lexer {
    if l.mode == InDouble then AtDouble(l, c) else AtWord(l, c)
  }

  /** Section 2.3, rule 5: the end of a substitution is found by reading the
      quotes, escapes and parentheses nested in it. */
  function Nested(open: Nesting, c: char): Nesting {
    match open
    case Closed => Closed
    case Open(Escape, below) => below
    case Open(Single, below) => if c == '\'' then below else open
    case Open(Double, below) =>
      if c == '"' then below
      else if c == '\\' then Open(Escape, open)
      else if c == '$' then Open(DoubleDollar, open)
      else open
    case Open(DoubleDollar, below) =>
      if c == '(' then Open(Group, below)
      else if c == '"' then Outer(below)
      else if c == '\\' then Open(Escape, below)
      else if c == '$' then open
      else below
    case Open(Group, below) =>
      if c == '\'' then Open(Single, open)
      else if c == '"' then Open(Double, open)
      else if c == '\\' then Open(Escape, open)
      else if c == '(' then Open(Group, open)
      else if c == ')' then below
      else open
  }

  function Outer(open: Nesting): Nesting {
    match open
    case Closed => Closed
    case Open(_, below) => below
  }

  function Run(l: Lexer, s: string): Lexer
    decreases |s|
  {
    if s == [] then l else Run(Step(l, s[0]), s[1..])
  }

  /** The tokens of a complete input, or None when a quote or a substitution is
      left open or the input uses a construct this model does not read. */
  function Finish(l: Lexer): Option<seq<Token>> {
    match l.mode
    case Gap => Some(l.tokens)
    case InWord => Some(l.tokens + [Text(l.word)])
    case InOp(op) => Some(l.tokens + [Op(op)])
    case Name(name, false) => Some(l.tokens + [Text(l.word + [Var(name, false)])])
    case _ => None
  }

  function Lex(s: string): Option<seq<Token>> { Finish(Run(START, s)) }

  // ---- composition

  lemma {:induction false} RunConcat(l: Lexer, a: string, b: string)
    ensures Run(l, a + b) == Run(Run(l, a), b)
    decreases |a|
  {
    if a == [] {
      assert a + b == b;
    } else {
      assert (a + b)[1..] == a[1..] + b;
      RunConcat(Step(l, a[0]), a[1..], b);
    }
  }

  lemma RunOne(l: Lexer, c: char)
    ensures Run(l, [c]) == Step(l, c)
  {
    assert [c][1..] == [];
    assert Run(Step(l, c), []) == Step(l, c);
  }

  lemma RunCons(l: Lexer, c: char, s: string)
    ensures Run(l, [c] + s) == Run(Step(l, c), s)
  {
    assert ([c] + s)[1..] == s;
  }

  /** What was recognised before does not change how the rest is read. */
  function Before(front: seq<Token>, l: Lexer): Lexer { l.(tokens := front + l.tokens) }

  lemma StepBefore(front: seq<Token>, l: Lexer, c: char)
    ensures Step(Before(front, l), c) == Before(front, Step(l, c))
  {
    match l.mode
    case Gap => AtGapBefore(front, l, c);
    case InOp(op) =>
      var ended := l.EndOp(op);
      assert Before(front, l).EndOp(op) == Before(front, ended);
      AtGapBefore(front, ended, c);
    case InWord => AtWordBefore(front, l, c);
    case Name(name, quoted) =>
      var back := l.At(Back(quoted)).Put(Var(name, quoted));
      assert Before(front, l).At(Back(quoted)).Put(Var(name, quoted)) == Before(front, back);
      AtWordBefore(front, back, c);
    case _ =>
  }

  lemma AtGapBefore(front: seq<Token>, l: Lexer, c: char)
    ensures AtGap(Before(front, l), c) == Before(front, AtGap(l, c))
  {
    AtWordBefore(front, l.At(InWord), c);
  }

  lemma AtWordBefore(front: seq<Token>, l: Lexer, c: char)
    ensures AtWord(Before(front, l), c) == Before(front, AtWord(l, c))
  {
    assert front + (l.tokens + [Text(l.word)]) == (front + l.tokens) + [Text(l.word)];
  }

  lemma {:induction false} RunBefore(front: seq<Token>, l: Lexer, s: string)
    ensures Run(Before(front, l), s) == Before(front, Run(l, s))
    decreases |s|
  {
    if s != [] {
      StepBefore(front, l, s[0]);
      RunBefore(front, Step(l, s[0]), s[1..]);
    }
  }
}
