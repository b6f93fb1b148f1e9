/** Extra rclone arguments, which are one text: the shell reads it as words, and
    the dry-run scan splits it with strings.FieldsSeq. */
module ExtraArgs {
  import opened Outcome
  import opened ShellExec
  import opened ShellLexer
  import opened ShellQuote
  import opened ShellReading
  import opened ShellSyntax
  import opened Trim

  function WordBegun(word: string): seq<string> { if word == "" then [] else [word] }

  /** What is left to split, behind the word begun. */
  function FieldsFrom(word: string, s: string): seq<string>
    decreases |s|
  {
    if s == "" then WordBegun(word)
    else if IsSpace(s[0]) then WordBegun(word) + FieldsFrom("", s[1..])
    else FieldsFrom(word + [s[0]], s[1..])
  }

  function Fields(s: string): seq<string> { FieldsFrom("", s) }

  /** Blanks, and characters that mean themselves to a shell inside a word. */
  predicate OrdinaryChar(c: char) {
    if IsSpace(c) then IsBlank(c) else !IsOperator(c) && c !in {'\'', '"', '\\', '$', '`'}
  }

  predicate OrdinaryText(s: string) { forall i :: 0 <= i < |s| ==> OrdinaryChar(s[i]) }

  /** A shell reads the text as these literal words and nothing else. */
  predicate ReadsAs(text: string, words: seq<string>) {
    OnlyWords(text) && Collect(Field, RawWords(text)) == Some(words)
  }

  function WordTokens(words: seq<string>): seq<Token> {
    seq(|words|, i requires 0 <= i < |words| => Text(Chars(words[i], false)))
  }

  /** The scan's fields are the words a shell reads exactly if the text holds no
      quote, no escape and no space but blanks. */
  lemma FieldsAreWords(text: string, words: seq<string>)
    requires ReadsAs(text, words)
    ensures words == Fields(text) <==> OrdinaryText(text)
  {
    if OrdinaryText(text) {
      OrdinaryIsSplitAlike(text, words);
    } else {
      LosesWeight(text, words);
    }
  }

  // ---- an ordinary text

  function Begun(tokens: seq<Token>, word: string): Lexer {
    if word == "" then Lexer(tokens, [], Gap) else Lexer(tokens, Chars(word, false), InWord)
  }

  /** Unless a comment is met, the two split alike. */
  lemma {:induction false} SplitAlike(l: Lexer, word: string, s: string)
    requires l == Begun(l.tokens, word) && OrdinaryText(s)
    ensures Finish(Run(l, s)) == None || Finish(Run(l, s)) == Some(l.tokens + WordTokens(FieldsFrom(word, s)))
    decreases |s|
  {
    if s == "" {
      OneToken(word);
      assert l.tokens + [] == l.tokens;
    } else {
      var c, rest := s[0], s[1..];
      assert OrdinaryChar(c) && OrdinaryText(rest);
      if IsBlank(c) {
        OneToken(word);
        var next := Begun(l.tokens + WordTokens(WordBegun(word)), "");
        assert Step(l, c) == next;
        SplitAlike(next, "", rest);
        TokensJoined(WordBegun(word), FieldsFrom("", rest));
        assert (l.tokens + WordTokens(WordBegun(word))) + WordTokens(FieldsFrom("", rest))
            == l.tokens + (WordTokens(WordBegun(word)) + WordTokens(FieldsFrom("", rest)));
      } else if c == '#' && word == "" {
        BadStays(Step(l, c), rest);
      } else {
        assert Chars(word + [c], false) == Chars(word, false) + [Ch(c, false)];
        assert Step(l, c) == Begun(l.tokens, word + [c]);
        SplitAlike(Begun(l.tokens, word + [c]), word + [c], rest);
      }
    }
  }

  lemma {:induction false} BadStays(l: Lexer, s: string)
    requires l.mode == Bad
    ensures Run(l, s) == l
    decreases |s|
  {
    if s != "" {
      BadStays(l, s[1..]);
    }
  }

  lemma OneToken(word: string)
    ensures WordTokens(WordBegun(word)) == if word == "" then [] else [Text(Chars(word, false))]
  {}

  lemma OrdinaryIsSplitAlike(text: string, words: seq<string>)
    requires ReadsAs(text, words) && OrdinaryText(text)
    ensures words == Fields(text)
  {
    OrdinaryLexes(text);
    RawOf(text, Fields(text));
    CollectFields(Fields(text), words);
  }

  lemma OrdinaryLexes(text: string)
    requires Lex(text).Some? && OrdinaryText(text)
    ensures Lex(text).value == WordTokens(Fields(text))
  {
    SplitAlike(START, "", text);
    assert [] + WordTokens(Fields(text)) == WordTokens(Fields(text));
  }

  lemma RawOf(text: string, fields: seq<string>)
    requires OnlyWords(text) && Lex(text).value == WordTokens(fields)
    ensures RawWords(text) == seq(|fields|, i requires 0 <= i < |fields| => Chars(fields[i], false))
  {
    assert |RawWords(text)| == |fields|;
  }

  lemma {:induction false} CollectFields(fields: seq<string>, words: seq<string>)
    requires Collect(Field, seq(|fields|, i requires 0 <= i < |fields| => Chars(fields[i], false))) == Some(words)
    ensures words == fields
  {
    var pieces := seq(|fields|, i requires 0 <= i < |fields| => Chars(fields[i], false));
    if fields != [] {
      var rest := fields[1..];
      assert pieces[1..] == seq(|rest|, i requires 0 <= i < |rest| => Chars(rest[i], false));
      CollectFields(rest, words[1..]);
      FieldSpells(fields[0]);
    }
  }

  lemma FieldSpells(s: string)
    ensures Field(Chars(s, false)).Some? ==> Field(Chars(s, false)).value == s
  {
    var w := Chars(s, false);
    assert seq(|w|, i requires 0 <= i < |w| => if w[i].Ch? then w[i].c else ' ') == s;
  }

  lemma TokensJoined(a: seq<string>, b: seq<string>)
    ensures WordTokens(a + b) == WordTokens(a) + WordTokens(b)
  {}

  // ---- any other text: what the shell drops is missing in its words

  /** Whether a character counts: all do, or all but spaces. */
  function One(c: char, all: bool): nat { if all || !IsSpace(c) then 1 else 0 }

  function Count(s: string, all: bool): nat { if s == "" then 0 else One(s[0], all) + Count(s[1..], all) }

  function Sum(words: seq<string>, all: bool): nat {
    if words == [] then 0 else Count(words[0], all) + Sum(words[1..], all)
  }

  function Weight(w: Word, all: bool): nat {
    if w == [] then 0
    else
      var last := w[|w| - 1];
      Weight(w[..|w| - 1], all) + if last.Ch? then One(last.c, all) else 0
  }

  function TokensWeight(tokens: seq<Token>, all: bool): nat {
    if tokens == [] then 0
    else
      var last := tokens[|tokens| - 1];
      TokensWeight(tokens[..|tokens| - 1], all) + if last.Text? then Weight(last.word, all) else 0
  }

  /** The literal characters recognised so far, and a backslash that may become one. */
  function Recognised(l: Lexer, all: bool): nat {
    TokensWeight(l.tokens, all) + Weight(l.word, all) + if l.mode == Escaped(true) then 1 else 0
  }

  lemma PutWeight(l: Lexer, p: Piece, all: bool)
    ensures Weight(l.Put(p).word, all) == Weight(l.word, all) + if p.Ch? then One(p.c, all) else 0
  {
    assert (l.word + [p])[..|l.word|] == l.word;
  }

  lemma EndWeight(l: Lexer, m: Mode, op: string, all: bool)
    ensures TokensWeight(l.EndWord(m).tokens, all) == TokensWeight(l.tokens, all) + Weight(l.word, all)
    ensures TokensWeight(l.EndOp(op).tokens, all) == TokensWeight(l.tokens, all)
  {
    assert (l.tokens + [Text(l.word)])[..|l.tokens|] == l.tokens;
    assert (l.tokens + [Op(op)])[..|l.tokens|] == l.tokens;
  }

  predicate Outside(m: Mode) { m.Gap? || m.InWord? }

  /** Outside quotes a blank ends the word, other spaces and ordinary characters
      are kept, and whatever else there is is dropped. */
  lemma WordStep(l: Lexer, c: char, all: bool)
    requires l.mode != Escaped(true)
    ensures Recognised(AtWord(l, c), all) <= Recognised(l, all) + One(c, all)
    ensures !IsSpace(c) && !OrdinaryChar(c) ==> Recognised(AtWord(l, c), all) <= Recognised(l, all)
    ensures OrdinaryChar(c) || IsSpace(c) ==>
              AtWord(l, c).mode.Bad? ||
              Recognised(AtWord(l, c), all) == Recognised(l, all) + if IsBlank(c) then 0 else One(c, all)
  {
    if IsBlank(c) {
      WordEnds(l, Gap, all);
    } else if OrdinaryChar(c) || IsSpace(c) {
      WordKeeps(l, c, all);
    } else {
      WordDrops(l, c, all);
    }
  }

  lemma WordEnds(l: Lexer, m: Mode, all: bool)
    requires m != Escaped(true)
    ensures Recognised(l.EndWord(m), all) <= Recognised(l, all)
    ensures l.mode != Escaped(true) ==> Recognised(l.EndWord(m), all) == Recognised(l, all)
  {
    EndWeight(l, m, "", all);
  }

  lemma WordKeeps(l: Lexer, c: char, all: bool)
    requires l.mode != Escaped(true) && !IsBlank(c) && (OrdinaryChar(c) || IsSpace(c))
    ensures AtWord(l, c) == l.At(Bad) || Recognised(AtWord(l, c), all) == Recognised(l, all) + One(c, all)
  {
    IsKept(l, c);
    if AtWord(l, c) != l.At(Bad) {
      PutIsOne(l, c, all);
    }
  }

  lemma IsKept(l: Lexer, c: char)
    requires !IsBlank(c) && (OrdinaryChar(c) || IsSpace(c))
    ensures AtWord(l, c) == l.At(Bad) || AtWord(l, c) == l.Put(Ch(c, false))
  {}

  lemma PutIsOne(l: Lexer, c: char, all: bool)
    requires l.mode != Escaped(true)
    ensures Recognised(l.Put(Ch(c, false)), all) == Recognised(l, all) + One(c, all)
  {
    PutWeight(l, Ch(c, false), all);
  }

  lemma WordDrops(l: Lexer, c: char, all: bool)
    requires !IsSpace(c) && !OrdinaryChar(c)
    ensures Recognised(AtWord(l, c), all) <= Recognised(l, all)
  {
    if IsOperator(c) {
      WordEnds(l, InOp([c]), all);
    }
  }

  lemma GapStep(l: Lexer, c: char, all: bool)
    requires !(l.mode == Escaped(true))
    ensures Recognised(AtGap(l, c), all) <= Recognised(l, all) + One(c, all)
    ensures !IsSpace(c) && !OrdinaryChar(c) ==> Recognised(AtGap(l, c), all) <= Recognised(l, all)
    ensures OrdinaryChar(c) || IsSpace(c) ==>
              AtGap(l, c).mode.Bad? ||
              Recognised(AtGap(l, c), all) == Recognised(l, all) + if IsBlank(c) then 0 else One(c, all)
  {
    WordStep(l.At(InWord), c, all);
  }

  lemma DoubleStep(l: Lexer, c: char)
    requires !(l.mode == Escaped(true))
    ensures Recognised(AtDouble(l, c), false) <= Recognised(l, false) + One(c, false)
  {
    PutWeight(l, Ch(c, true), false);
  }

  lemma EscapedStep(l: Lexer, c: char)
    requires l.mode.Escaped?
    ensures Recognised(Step(l, c), false) <= Recognised(l, false) + One(c, false)
  {
    var slash := Ch('\\', true);
    if !l.mode.quoted || c in {'$', '`', '"', '\\'} {
      PutWeight(l.At(Back(l.mode.quoted)), Ch(c, true), false);
    } else {
      TwoPut(l.At(InDouble), slash, c);
    }
  }

  lemma TwoPut(l: Lexer, p: Piece, c: char)
    requires p == Ch('\\', true) && l.mode == InDouble
    ensures Recognised(l.Put(p).Put(Ch(c, true)), false) == Recognised(l, false) + 1 + One(c, false)
  {
    PutWeight(l, p, false);
    PutWeight(l.Put(p), Ch(c, true), false);
  }

  lemma OpenWordStep(l: Lexer, c: char)
    requires l.mode.InDouble? || l.mode.InWord?
    ensures Recognised(AtOpenWord(l, c), false) <= Recognised(l, false) + One(c, false)
  {
    if l.mode.InDouble? {
      DoubleStep(l, c);
    } else {
      WordStep(l, c, false);
    }
  }

  /** A substitution is no character. */
  lemma PutsNone(l: Lexer, p: Piece, quoted: bool)
    requires !p.Ch?
    ensures Recognised(l.At(Back(quoted)).Put(p), false) <= Recognised(l, false)
  {
    PutWeight(l, p, false);
  }

  lemma UnquotedStep(l: Lexer, c: char)
    requires l.mode.Gap? || l.mode.InOp? || l.mode.InWord?
    ensures Recognised(Step(l, c), false) <= Recognised(l, false) + One(c, false)
  {
    match l.mode
    case Gap => GapStep(l, c, false);
    case InOp(op) =>
      EndWeight(l, Gap, op, false);
      GapStep(l.EndOp(op), c, false);
    case InWord => WordStep(l, c, false);
  }

  lemma ModeOnly(l: Lexer, m: Mode)
    requires m != Escaped(true)
    ensures Recognised(l.At(m), false) <= Recognised(l, false)
  {}

  lemma NameStep(l: Lexer, c: char)
    requires l.mode.Name?
    ensures Recognised(Step(l, c), false) <= Recognised(l, false) + One(c, false)
  {
    var name, quoted := l.mode.name, l.mode.quoted;
    if IsNameChar(c) {
      ModeOnly(l, Name(name + [c], quoted));
    } else {
      NameEnds(l, name, quoted, c);
      PutsNone(l, Var(name, quoted), quoted);
      OpenWordStep(l.At(Back(quoted)).Put(Var(name, quoted)), c);
    }
  }

  lemma NameEnds(l: Lexer, name: string, quoted: bool, c: char)
    requires l.mode == Name(name, quoted) && !IsNameChar(c)
    ensures Step(l, c) == AtOpenWord(l.At(Back(quoted)).Put(Var(name, quoted)), c)
  {}

  lemma SubStep(l: Lexer, c: char)
    requires l.mode.InSub?
    ensures Recognised(Step(l, c), false) <= Recognised(l, false) + One(c, false)
  {
    var open, text, quoted := l.mode.open, l.mode.text, l.mode.quoted;
    var rest := Nested(open, c);
    if rest.Closed? {
      PutsNone(l, Sub(text, quoted), quoted);
    } else {
      ModeOnly(l, InSub(rest, text + [c], quoted));
    }
  }

  lemma DollarStep(l: Lexer, c: char)
    requires l.mode.Dollar? || l.mode.Brace?
    ensures Recognised(Step(l, c), false) <= Recognised(l, false) + One(c, false)
  {
    if Step(l, c).mode != Back(l.mode.quoted) {
      ModeOnly(l, Step(l, c).mode);
    } else {
      PutsNone(l, Var(l.mode.name, l.mode.quoted), l.mode.quoted);
    }
  }

  /** No step recognises more than the character it is given. */
  lemma StepWeight(l: Lexer, c: char)
    ensures Recognised(Step(l, c), false) <= Recognised(l, false) + One(c, false)
  {
    match l.mode
    case InSingle => PutWeight(l, Ch(c, true), false);
    case InDouble => DoubleStep(l, c);
    case Escaped(quoted) => EscapedStep(l, c);
    case Bad =>
    case Gap => UnquotedStep(l, c);
    case InOp(_) => UnquotedStep(l, c);
    case InWord => UnquotedStep(l, c);
    case Name(_, _) => NameStep(l, c);
    case InSub(_, _, _) => SubStep(l, c);
    case _ => DollarStep(l, c);
  }

  lemma {:induction false} RunWeight(l: Lexer, s: string)
    ensures Recognised(Run(l, s), false) <= Recognised(l, false) + Count(s, false)
    decreases |s|
  {
    if s != "" {
      StepWeight(l, s[0]);
      RunWeight(Step(l, s[0]), s[1..]);
    }
  }

  /** A step from outside quotes: a character that is not ordinary is dropped,
      any other kept, unless reading ends there. */
  lemma OutsideStep(l: Lexer, c: char, all: bool)
    requires Outside(l.mode)
    ensures !IsSpace(c) && !OrdinaryChar(c) ==> Recognised(Step(l, c), all) <= Recognised(l, all)
    ensures OrdinaryChar(c) || IsSpace(c) ==>
              Step(l, c).mode.Bad? ||
              (Outside(Step(l, c).mode) &&
               Recognised(Step(l, c), all) == Recognised(l, all) + if IsBlank(c) then 0 else One(c, all))
  {
    if l.mode.Gap? {
      GapStep(l, c, all);
    } else {
      WordStep(l, c, all);
    }
  }

  /** The first quote, escape or operator outside a word or in it is dropped. */
  lemma {:induction false} DropsOne(l: Lexer, s: string)
    requires Outside(l.mode) && exists i :: 0 <= i < |s| && !IsSpace(s[i]) && !OrdinaryChar(s[i])
    ensures Run(l, s).mode.Bad? || Recognised(Run(l, s), false) < Recognised(l, false) + Count(s, false)
    decreases |s|
  {
    var c, rest, next := s[0], s[1..], Step(l, s[0]);
    OutsideStep(l, c, false);
    if !IsSpace(c) && !OrdinaryChar(c) {
      RunWeight(next, rest);
    } else {
      var i :| 0 <= i < |s| && !IsSpace(s[i]) && !OrdinaryChar(s[i]);
      assert rest[i - 1] == s[i];
      if next.mode.Bad? {
        BadStays(next, rest);
      } else {
        DropsOne(next, rest);
      }
    }
  }

  function Blanks(s: string): nat { if s == "" then 0 else (if IsBlank(s[0]) then 1 else 0) + Blanks(s[1..]) }

  predicate Tidy(l: Lexer) { Outside(l.mode) && (l.mode.Gap? ==> l.word == []) }

  lemma TidyStep(l: Lexer, c: char)
    requires Tidy(l) && (OrdinaryChar(c) || IsSpace(c))
    ensures Step(l, c).mode.Bad? || Tidy(Step(l, c))
  {}

  /** Where there is none, every character but a blank is kept. */
  lemma {:induction false} KeepsAll(l: Lexer, s: string)
    requires Tidy(l) && forall i :: 0 <= i < |s| ==> IsSpace(s[i]) || OrdinaryChar(s[i])
    ensures var r := Run(l, s);
            r.mode.Bad? || (Tidy(r) && Recognised(r, true) + Blanks(s) == Recognised(l, true) + |s|)
    decreases |s|
  {
    if s != "" {
      var c, rest, next := s[0], s[1..], Step(l, s[0]);
      OutsideStep(l, c, true);
      TidyStep(l, c);
      if next.mode.Bad? {
        BadStays(next, rest);
      } else {
        KeepsAll(next, rest);
      }
    }
  }

  lemma {:induction false} FieldsWeight(word: string, s: string, all: bool)
    requires forall i :: 0 <= i < |word| ==> !IsSpace(word[i])
    ensures Sum(FieldsFrom(word, s), all) == |word| + Count(s, false)
    decreases |s|
  {
    if s == "" {
      BegunWeight(word, [], all);
    } else if IsSpace(s[0]) {
      FieldsWeight("", s[1..], all);
      BegunWeight(word, FieldsFrom("", s[1..]), all);
    } else {
      FieldsWeight(word + [s[0]], s[1..], all);
    }
  }

  lemma BegunWeight(word: string, rest: seq<string>, all: bool)
    requires forall i :: 0 <= i < |word| ==> !IsSpace(word[i])
    ensures Sum(WordBegun(word) + rest, all) == |word| + Sum(rest, all)
    ensures Sum(WordBegun(word), all) == |word|
  {
    CountsAll(word, all);
    assert ([word] + rest)[1..] == rest && [] + rest == rest;
  }

  lemma {:induction false} CountsAll(s: string, all: bool)
    requires all || forall i :: 0 <= i < |s| ==> !IsSpace(s[i])
    ensures Count(s, all) == |s|
  {
    if s != "" {
      CountsAll(s[1..], all);
    }
  }

  lemma {:induction false} CountAppend(s: string, c: char, all: bool)
    ensures Count(s + [c], all) == Count(s, all) + One(c, all)
  {
    if s == "" {
      assert s + [c] == [c] && [c][1..] == "";
    } else {
      assert (s + [c])[1..] == s[1..] + [c];
      CountAppend(s[1..], c, all);
    }
  }

  lemma {:induction false} SumAppend(words: seq<string>, word: string, all: bool)
    ensures Sum(words + [word], all) == Sum(words, all) + Count(word, all)
  {
    if words == [] {
      assert words + [word] == [word] && [word][1..] == [];
    } else {
      assert (words + [word])[1..] == words[1..] + [word];
      SumAppend(words[1..], word, all);
    }
  }

  lemma {:induction false} LiteralWeight(w: Word, all: bool)
    requires forall i :: 0 <= i < |w| ==> w[i].Ch?
    ensures Count(seq(|w|, i requires 0 <= i < |w| => if w[i].Ch? then w[i].c else ' '), all) == Weight(w, all)
  {
    if w != [] {
      var front, n := w[..|w| - 1], |w| - 1;
      LiteralWeight(front, all);
      var s := seq(n, i requires 0 <= i < n => if front[i].Ch? then front[i].c else ' ');
      CountAppend(s, w[n].c, all);
      assert seq(|w|, i requires 0 <= i < |w| => if w[i].Ch? then w[i].c else ' ') == s + [w[n].c];
    }
  }

  lemma {:induction false} CollectIs(raw: seq<Word>, words: seq<string>)
    requires Collect(Field, raw) == Some(words)
    ensures |words| == |raw| && forall i :: 0 <= i < |raw| ==> Field(raw[i]) == Some(words[i])
  {
    if raw != [] {
      CollectIs(raw[1..], words[1..]);
      forall i | 0 < i < |raw| ensures Field(raw[i]) == Some(words[i]) {
        assert raw[1..][i - 1] == raw[i];
      }
    }
  }

  lemma {:induction false} WordsWeight(tokens: seq<Token>, words: seq<string>, all: bool)
    requires |words| == |tokens|
    requires forall i :: 0 <= i < |tokens| ==> tokens[i].Text? && Field(tokens[i].word) == Some(words[i])
    ensures Sum(words, all) == TokensWeight(tokens, all)
    decreases |tokens|
  {
    if tokens != [] {
      var n := |tokens| - 1;
      WordsWeight(tokens[..n], words[..n], all);
      SumAppend(words[..n], words[n], all);
      assert words == words[..n] + [words[n]];
      LiteralWeight(tokens[n].word, all);
    }
  }

  lemma ReadWeight(text: string, words: seq<string>, all: bool)
    requires ReadsAs(text, words)
    ensures Sum(words, all) == TokensWeight(Lex(text).value, all)
  {
    var tokens := Lex(text).value;
    CollectIs(RawWords(text), words);
    WordsWeight(tokens, words, all);
  }

  lemma FinishWeight(l: Lexer, all: bool)
    requires Finish(l).Some?
    ensures TokensWeight(Finish(l).value, all) <= Recognised(l, all)
    ensures Outside(l.mode) && (l.mode.Gap? ==> l.word == []) ==>
            TokensWeight(Finish(l).value, all) == Recognised(l, all)
  {
    EndWeight(l, Gap, "", all);
    match l.mode
    case InOp(op) => EndWeight(l, Gap, op, all);
    case Name(name, quoted) =>
      var last := l.Put(Var(name, false));
      PutWeight(l, Var(name, false), all);
      EndWeight(last, Gap, "", all);
    case _ =>
  }

  lemma LosesWeight(text: string, words: seq<string>)
    requires ReadsAs(text, words) && !OrdinaryText(text)
    ensures words != Fields(text)
  {
    if exists i :: 0 <= i < |text| && !IsSpace(text[i]) && !OrdinaryChar(text[i]) {
      QuoteIsLost(text, words);
    } else {
      SpaceIsKept(text, words);
    }
  }

  lemma QuoteIsLost(text: string, words: seq<string>)
    requires ReadsAs(text, words) && exists i :: 0 <= i < |text| && !IsSpace(text[i]) && !OrdinaryChar(text[i])
    ensures Sum(words, false) < Sum(Fields(text), false)
  {
    DropsOne(START, text);
    FinishWeight(Run(START, text), false);
    ReadWeight(text, words, false);
    FieldsWeight("", text, false);
  }

  lemma SpaceIsKept(text: string, words: seq<string>)
    requires ReadsAs(text, words) && !OrdinaryText(text)
    requires forall i :: 0 <= i < |text| ==> IsSpace(text[i]) || OrdinaryChar(text[i])
    ensures Sum(words, true) > Sum(Fields(text), true)
  {
    KeepsAll(START, text);
    FinishWeight(Run(START, text), true);
    ReadWeight(text, words, true);
    FieldsWeight("", text, true);
    OddSpace(text);
  }

  lemma {:induction false} OddSpace(s: string)
    ensures |s| >= Blanks(s) + Count(s, false)
    ensures (exists i :: 0 <= i < |s| && IsSpace(s[i]) && !IsBlank(s[i])) ==> |s| > Blanks(s) + Count(s, false)
  {
    if s != "" {
      OddSpace(s[1..]);
      assert forall i :: 0 < i < |s| ==> s[i] == s[1..][i - 1];
    }
  }

  lemma {:induction false} OneField(word: string, s: string)
    requires forall i :: 0 <= i < |s| ==> !IsSpace(s[i])
    ensures FieldsFrom(word, s) == WordBegun(word + s)
    decreases |s|
  {
    if s == "" {
      assert word + s == word;
    } else {
      OneField(word + [s[0]], s[1..]);
      assert word + [s[0]] + s[1..] == word + s;
    }
  }

  /** A quoted argument is one word to the shell, without its quotes, and one
      field with them. */
  lemma QuotedArgument(arg: string)
    requires forall i :: 0 <= i < |arg| ==> !IsSpace(arg[i])
    ensures Lex(Quote(arg)) == Some([Text(Chars(arg, true))]) && Field(Chars(arg, true)) == Some(arg)
    ensures Fields(Quote(arg)) == [Quote(arg)] && Quote(arg)[0] == '\''
  {
    var l, text := START.At(InWord), Quote(arg);
    QuotedWord(l, arg);
    assert [] + Chars(arg, true) == Chars(arg, true);
    assert text[0] == '\'' && Step(START, text[0]) == Step(l, text[0]);
    assert Run(START, text) == Run(l, text);
    assert [] + [Text(Chars(arg, true))] == [Text(Chars(arg, true))];
    FieldOfChars(arg, true);
    QuoteAddsNoSpace(arg);
    OneField("", text);
    assert "" + text == text;
  }

  lemma {:induction false} QuoteAddsNoSpace(arg: string)
    requires forall i :: 0 <= i < |arg| ==> !IsSpace(arg[i])
    ensures forall i :: 0 <= i < |Quote(arg)| ==> !IsSpace(Quote(arg)[i])
  {
    ReplaceAddsNoSpace(arg);
  }

  lemma {:induction false} ReplaceAddsNoSpace(arg: string)
    requires forall i :: 0 <= i < |arg| ==> !IsSpace(arg[i])
    ensures forall i :: 0 <= i < |ReplaceQuotes(arg)| ==> !IsSpace(ReplaceQuotes(arg)[i])
  {
    if arg != "" {
      ReplaceAddsNoSpace(arg[1..]);
    }
  }
}
