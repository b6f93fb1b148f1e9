/** The command grammar the built strings use (sections 2.9.1 to 2.9.3 of the
    POSIX Shell Command Language): simple commands with redirections,
    pipelines, `&&` lists and `;` lists. A `Script` is source text in structured
    form; the theorem of this module is that reading a rendered script gives
    back exactly its tree. */
module ShellSyntax {
  import opened Outcome
  import opened ShellQuote
  import opened ShellLexer

  // ---- trees

  datatype Redirect = Redirect(op: string, target: Word)
  datatype Command = Command(words: seq<Word>, redirects: seq<Redirect>)
  type Pipeline = seq<Command>
  type AndList = seq<Pipeline>
  type Tree = seq<AndList>

  const REDIRECTIONS := {"<", ">", ">>", "<&", ">&", "<>", ">|"}

  const RESERVED := {
    "if", "then", "else", "elif", "fi", "do", "done", "case", "esac",
    "while", "until", "for", "{", "}", "!", "in"
  }

  // ---- parsing

  function Split(tokens: seq<Token>, sep: Token): (parts: seq<seq<Token>>)
    ensures |parts| >= 1
  {
    if tokens == [] then [[]]
    else
      var rest := Split(tokens[1..], sep);
      if tokens[0] == sep then [[]] + rest else [[tokens[0]] + rest[0]] + rest[1..]
  }

  function Collect<A, B>(f: A -> Option<B>, xs: seq<A>): Option<seq<B>> {
    if xs == [] then Some([])
    else
      var first, rest := f(xs[0]), Collect(f, xs[1..]);
      if first.None? || rest.None? then None else Some([first.value] + rest.value)
  }

  predicate IsReserved(w: Word) {
    (forall i :: 0 <= i < |w| ==> w[i].Ch? && !w[i].quoted) &&
    seq(|w|, i requires 0 <= i < |w| => if w[i].Ch? then w[i].c else ' ') in RESERVED
  }

  function ParseWords(tokens: seq<Token>): Option<Command> {
    if tokens == [] then Some(Command([], []))
    else match tokens[0]
      case Text(w) =>
        (match ParseWords(tokens[1..])
         case None => None
         case Some(c) => Some(c.(words := [w] + c.words)))
      case Op(op) =>
        if op in REDIRECTIONS && |tokens| >= 2 && tokens[1].Text? then
          match ParseWords(tokens[2..])
          case None => None
          case Some(c) => Some(c.(redirects := [Redirect(op, tokens[1].word)] + c.redirects))
        else None
  }

  function ParseCommand(tokens: seq<Token>): Option<Command> {
    if tokens == [] || (tokens[0].Text? && IsReserved(tokens[0].word)) then None
    else ParseWords(tokens)
  }

  function ParsePipeline(tokens: seq<Token>): Option<Pipeline> {
    Collect(ParseCommand, Split(tokens, Op("|")))
  }

  function ParseAnd(tokens: seq<Token>): Option<AndList> {
    Collect(ParsePipeline, Split(tokens, Op("&&")))
  }

  function ParseTokens(tokens: seq<Token>): Option<Tree> {
    var parts := Split(tokens, Op(";"));
    Collect(ParseAnd, if |parts| > 1 && parts[|parts| - 1] == [] then parts[..|parts| - 1] else parts)
  }

  /** Reads a complete command string. */
  function Parse(s: string): Option<Tree> {
    match Lex(s)
    case None => None
    case Some(tokens) => ParseTokens(tokens)
  }

  // ---- scripts: source text in structured form

  datatype Chunk =
    | Bare(text: string)                        // text
    | Literal(value: string)                    // 'value', through Quote
    | DoubleSub(script: string)                 // "$(script)"
    | BareSub(script: string)                   // $(script)
    | DoubleName(name: string)                  // "$name"
    | DoubleBrace(name: string, tail: string)   // "${name}tail"

  datatype Item =
    | WordOf(chunks: seq<Chunk>)
    | Raw(text: string)
    | Into(op: string, target: string)

  type Source = seq<seq<seq<seq<Item>>>>

  predicate IsPlain(c: char) {
    'a' <= c <= 'z' || 'A' <= c <= 'Z' || '0' <= c <= '9' || c == '-' || c == '_' || c == '=' ||
    c == '.' || c == '/' || c == '+' || c == ':' || c == '[' || c == ']'
  }

  predicate AllPlain(s: string) { forall i :: 0 <= i < |s| ==> IsPlain(s[i]) }

  predicate IsName(s: string) {
    s != "" && IsNameStart(s[0]) && forall i :: 0 <= i < |s| ==> IsNameChar(s[i])
  }

  function NestedRun(open: Nesting, s: string): Nesting
    decreases |s|
  {
    if s == [] then open else NestedRun(Nested(open, s[0]), s[1..])
  }

  /** The parentheses and quotes of a text close inside it, so that the text
      can be put between `$(` and `)`. */
  predicate SubSafe(s: string) { NestedRun(IN_GROUP, s) == IN_GROUP }

  predicate ValidChunk(c: Chunk) {
    match c
    case Bare(text) => text != "" && AllPlain(text)
    case Literal(_) => true
    case DoubleSub(script) => SubSafe(script)
    case BareSub(script) => SubSafe(script)
    case DoubleName(name) => IsName(name)
    case DoubleBrace(name, tail) => IsName(name) && AllPlain(tail)
  }

  /** A raw text is one the user wrote: it may hold any words, but no operator
      and nothing left open. */
  predicate OnlyWords(s: string) {
    Lex(s).Some? && forall i :: 0 <= i < |Lex(s).value| ==> Lex(s).value[i].Text?
  }

  predicate ValidItem(item: Item) {
    match item
    case WordOf(chunks) => chunks != [] && forall i :: 0 <= i < |chunks| ==> ValidChunk(chunks[i])
    case Raw(text) => OnlyWords(text)
    case Into(op, target) => op == ">&" && target != "" && AllPlain(target)
  }

  predicate ValidCommand(c: seq<Item>) {
    c != [] && c[0].WordOf? && (forall i :: 0 <= i < |c| ==> ValidItem(c[i])) &&
    !IsReserved(WordPieces(c[0].chunks))
  }

  predicate ValidPipeline(p: seq<seq<Item>>) {
    p != [] && forall i :: 0 <= i < |p| ==> ValidCommand(p[i])
  }

  predicate ValidAnd(a: seq<seq<seq<Item>>>) {
    a != [] && forall i :: 0 <= i < |a| ==> ValidPipeline(a[i])
  }

  predicate Valid(s: Source) {
    s != [] && forall i :: 0 <= i < |s| ==> ValidAnd(s[i])
  }

  // ---- rendering

  function ChunkText(c: Chunk): string {
    match c
    case Bare(text) => text
    case Literal(value) => Quote(value)
    case DoubleSub(script) => "\"$(" + script + ")\""
    case BareSub(script) => "$(" + script + ")"
    case DoubleName(name) => "\"$" + name + "\""
    case DoubleBrace(name, tail) => "\"${" + name + "}" + tail + "\""
  }

  function WordText(chunks: seq<Chunk>): string {
    if chunks == [] then "" else ChunkText(chunks[0]) + WordText(chunks[1..])
  }

  function ItemText(item: Item): string {
    match item
    case WordOf(chunks) => WordText(chunks)
    case Raw(text) => text
    case Into(op, target) => op + target
  }

  function Join(parts: seq<string>, sep: string): string {
    if parts == [] then ""
    else if |parts| == 1 then parts[0]
    else parts[0] + sep + Join(parts[1..], sep)
  }

  function CommandText(c: seq<Item>): string {
    Join(seq(|c|, i requires 0 <= i < |c| => ItemText(c[i])), " ")
  }

  function PipelineText(p: seq<seq<Item>>): string {
    Join(seq(|p|, i requires 0 <= i < |p| => CommandText(p[i])), " | ")
  }

  function AndText(a: seq<seq<seq<Item>>>): string {
    Join(seq(|a|, i requires 0 <= i < |a| => PipelineText(a[i])), " && ")
  }

  function Render(s: Source): string {
    Join(seq(|s|, i requires 0 <= i < |s| => AndText(s[i])), "; ")
  }

  // ---- the tree a script stands for

  function Chars(s: string, quoted: bool): Word {
    seq(|s|, i requires 0 <= i < |s| => Ch(s[i], quoted))
  }

  function Pieces(c: Chunk): Word {
    match c
    case Bare(text) => Chars(text, false)
    case Literal(value) => Chars(value, true)
    case DoubleSub(script) => [Sub(script, true)]
    case BareSub(script) => [Sub(script, false)]
    case DoubleName(name) => [Var(name, true)]
    case DoubleBrace(name, tail) => [Var(name, true)] + Chars(tail, true)
  }

  function WordPieces(chunks: seq<Chunk>): Word {
    if chunks == [] then [] else Pieces(chunks[0]) + WordPieces(chunks[1..])
  }

  function ItemTokens(item: Item): seq<Token> {
    match item
    case WordOf(chunks) => [Text(WordPieces(chunks))]
    case Raw(text) => if OnlyWords(text) then Lex(text).value else []
    case Into(op, target) => [Op(op), Text(Chars(target, false))]
  }

  function JoinTokens(parts: seq<seq<Token>>, sep: seq<Token>): seq<Token> {
    if parts == [] then []
    else if |parts| == 1 then parts[0]
    else parts[0] + sep + JoinTokens(parts[1..], sep)
  }

  function CommandTree(c: seq<Item>): Command {
    if c == [] then Command([], [])
    else
      var rest := CommandTree(c[1..]);
      match c[0]
      case WordOf(chunks) => rest.(words := [WordPieces(chunks)] + rest.words)
      case Raw(text) => rest.(words := RawWords(text) + rest.words)
      case Into(op, target) => rest.(redirects := [Redirect(op, Chars(target, false))] + rest.redirects)
  }

  function RawWords(text: string): seq<Word> {
    var tokens := ItemTokens(Raw(text));
    seq(|tokens|, i requires 0 <= i < |tokens| => if tokens[i].Text? then tokens[i].word else [])
  }

  function PipelineTree(p: seq<seq<Item>>): Pipeline {
    seq(|p|, i requires 0 <= i < |p| => CommandTree(p[i]))
  }

  function AndTree(a: seq<seq<seq<Item>>>): AndList {
    seq(|a|, i requires 0 <= i < |a| => PipelineTree(a[i]))
  }

  function TreeOf(s: Source): Tree {
    seq(|s|, i requires 0 <= i < |s| => AndTree(s[i]))
  }
}
