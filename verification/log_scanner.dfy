/** Reading progress lines off a log stream (internal/progresslog/logger.go): a
    split function that sees as much of the stream as has arrived, the scanner
    loop around it, and what it finds however the stream is cut up. */
module LogScanner {
  import opened LineSplit
  import opened Outcome
  import opened Text

  /** One break: a carriage return, a line feed, or the one before the other. */
  predicate IsSeparator(s: string) { (|s| == 1 && IsBreak(s[0])) || s == "\r\n" }

  /** The split function: how far to advance and the token, if there is one. A
      CRLF seen whole is one break. Given a break or the end, it always
      advances. */
  function ScanCRLF(data: string, atEOF: bool): (r: (nat, Option<string>))
    ensures r.0 <= |data| && (r.1.None? ==> r.0 == 0)
    ensures r.1.Some? <==> data != "" && (atEOF || !Unbroken(data))
    ensures r.1.Some? ==> r.0 > 0 && |r.1.value| <= r.0 && Unbroken(r.1.value) && r.1.value == data[..|r.1.value|]
    ensures r.1.Some? && HasPrefix(data[|r.1.value|..], "\r\n") ==> r.0 == |r.1.value| + 2
    ensures r.1.Some? ==> IsSeparator(data[|r.1.value|..r.0]) || (r.1.value == data && r.0 == |data|)
  {
    var i := FirstBreak(data);
    if i < |data| then
      var end := if data[i] == '\r' && i + 1 < |data| && data[i + 1] == '\n' then i + 2 else i + 1;
      assert data[i..end] == if end == i + 1 then [data[i]] else "\r\n";
      (end, Some(data[..i]))
    else
      assert data[..i] == data;
      if atEOF && data != "" then (|data|, Some(data)) else (0, None)
  }

  /** A token with its separator is one piece of the text, and, where the
      separator is only half of a CRLF, leaves an empty piece. */
  lemma TokenIsPiece(piece: string, separator: string, more: string)
    requires Unbroken(piece) && IsSeparator(separator)
    ensures Pieces(piece + separator + more) == NonEmpty([piece]) + Pieces(more)
    ensures Stripped(piece + separator + more) == piece + Stripped(more)
  {
    SeparatorIsStripped(piece, separator, more);
    if |separator| == 1 {
      assert separator == [separator[0]];
      BreakTakes(piece, separator[0], more);
    } else {
      CRLFTakes(piece, more);
    }
  }

  lemma CRLFTakes(piece: string, more: string)
    requires Unbroken(piece)
    ensures Pieces(piece + "\r\n" + more) == NonEmpty([piece]) + Pieces(more)
  {
    var rest := "" + ['\n'] + more;
    assert piece + "\r\n" + more == piece + ['\r'] + rest;
    BreakTakes(piece, '\r', rest);
    BreakTakes("", '\n', more);
    OneEmptyPiece(Pieces(more));
  }

  lemma OneEmptyPiece(pieces: seq<string>)
    ensures NonEmpty([""]) + pieces == pieces
  {
    assert NonEmpty([""][1..]) == [];
  }

  lemma SeparatorIsStripped(piece: string, separator: string, more: string)
    requires Unbroken(piece) && IsSeparator(separator)
    ensures Stripped(piece + separator + more) == piece + Stripped(more)
  {
    StrippedAppend(piece + separator, more);
    SeparatorVanishes(piece, separator);
  }

  lemma SeparatorVanishes(piece: string, separator: string)
    requires Unbroken(piece) && IsSeparator(separator)
    ensures Stripped(piece + separator) == piece
  {
    StrippedAppend(piece, separator);
    UnbrokenStays(piece);
    BreaksVanish(separator);
    assert piece + "" == piece;
  }

  lemma BreaksVanish(separator: string)
    requires IsSeparator(separator)
    ensures Stripped(separator) == ""
  {
    BreakVanishes(separator[0], separator[1..]);
    if |separator| == 2 {
      BreakVanishes(separator[1], "");
      assert separator[1..] == [separator[1]] + "";
    }
    assert separator == [separator[0]] + separator[1..];
  }

  lemma BreakVanishes(c: char, more: string)
    requires IsBreak(c)
    ensures Stripped([c] + more) == Stripped(more)
  {
    assert ([c] + more)[1..] == more && "" + Stripped(more) == Stripped(more);
  }

  lemma BreakTakes(piece: string, c: char, more: string)
    requires Unbroken(piece) && IsBreak(c)
    ensures Pieces(piece + [c] + more) == NonEmpty([piece]) + Pieces(more)
  {
    CutAtBreak(piece, c, more);
    assert [piece] + Complete(more) + [Rest(more)] == [piece] + (Complete(more) + [Rest(more)]);
    NonEmptyAppend([piece], Complete(more) + [Rest(more)]);
  }

  lemma LastToken(data: string)
    requires Unbroken(data)
    ensures Stripped(data) == data && Pieces(data) == NonEmpty([data]) && Pieces("") == []
  {
    NoBreak(data);
    NoBreak("");
    UnbrokenStays(data);
    assert [] + [data] == [data];
  }

  /** What a reader will hand over: chunks of any size, then the end. */
  class Scanner {
    var chunks: seq<string>
    var buffer: string
    var atEOF: bool

    ghost function Ahead(): string
      reads this
    {
      buffer + Joined(chunks)
    }

    ghost predicate Valid()
      reads this
    {
      atEOF ==> chunks == []
    }

    constructor (chunks: seq<string>)
      ensures Valid() && Ahead() == Joined(chunks)
    {
      this.chunks, buffer, atEOF := chunks, "", false;
    }

    /** The next token, reading as much as that takes. */
    method Scan() returns (token: Option<string>)
      requires Valid()
      modifies this
      ensures Valid()
      ensures token.None? ==> old(Ahead()) == "" == Ahead()
      ensures token.Some? ==> |Ahead()| < |old(Ahead())| && Unbroken(token.value)
      ensures token.Some? ==> Takes(token.value, old(Ahead()), Ahead())
    {
      token := None;
      while true
        invariant Valid() && Ahead() == old(Ahead())
        decreases |chunks|, if atEOF then 0 else 1
      {
        var (advance, found) := ScanCRLF(buffer, atEOF);
        if found.Some? {
          BufferIsPrefix(buffer, Joined(chunks), atEOF);
          token := found;
          buffer := buffer[advance..];
          return;
        }
        if atEOF {
          return;
        }
        if chunks == [] {
          atEOF := true;
        } else {
          assert buffer + chunks[0] + Joined(chunks[1..]) == buffer + Joined(chunks);
          buffer, chunks := buffer + chunks[0], chunks[1..];
        }
      }
    }
  }

  /** A token found in what has arrived is one of the whole text's, but for an
      empty one where a CRLF was cut in two. */
  lemma BufferIsPrefix(buffer: string, rest: string, atEOF: bool)
    requires atEOF ==> rest == ""
    requires ScanCRLF(buffer, atEOF).1.Some?
    ensures var (advance, token) := ScanCRLF(buffer, atEOF); Takes(token.value, buffer + rest, buffer[advance..] + rest)
  {
    var (advance, token) := ScanCRLF(buffer, atEOF);
    var piece, separator := token.value, buffer[|token.value|..advance];
    if IsSeparator(separator) {
      assert buffer + rest == piece + separator + (buffer[advance..] + rest);
      TokenIsPiece(piece, separator, buffer[advance..] + rest);
    } else {
      assert rest == "" && buffer + rest == piece && buffer[advance..] + rest == "";
      LastTakes(piece);
    }
  }

  /** Taking the token off the text leaves the rest: piece by piece, and byte by
      byte. */
  predicate Takes(token: string, text: string, rest: string) {
    Pieces(text) == NonEmpty([token]) + Pieces(rest) && Stripped(text) == token + Stripped(rest)
  }

  lemma LastTakes(piece: string)
    requires Unbroken(piece)
    ensures Takes(piece, piece, "")
  {
    LastToken(piece);
    assert NonEmpty([piece]) + [] == NonEmpty([piece]);
  }

  lemma TokensGrow(tokens: seq<string>, token: string, text: string, rest: string)
    requires Takes(token, text, rest)
    ensures NonEmpty(tokens + [token]) + Pieces(rest) == NonEmpty(tokens) + Pieces(text)
    ensures Joined(tokens + [token]) + Stripped(rest) == Joined(tokens) + Stripped(text)
  {
    NonEmptyAppend(tokens, [token]);
    JoinedAppend(tokens, [token]);
    assert [token][1..] == [] && Joined([token]) == token + "" == token;
    Regrouped(NonEmpty(tokens), NonEmpty([token]), Pieces(rest));
    Regrouped(Joined(tokens), token, Stripped(rest));
  }

  lemma Regrouped<T>(a: seq<T>, b: seq<T>, c: seq<T>)
    ensures (a + b) + c == a + (b + c)
  {}

  /** What tailing sends on: every piece of the whole text, no byte of it lost or
      added, and nothing else but empty tokens. The context can be cancelled at
      any moment, and what was sent is then the beginning of that. */
  method TailLogs(chunks: seq<string>) returns (tokens: seq<string>, canceled: bool)
    ensures NonEmpty(tokens) <= Pieces(Joined(chunks)) && Joined(tokens) <= Stripped(Joined(chunks))
    ensures !canceled ==> NonEmpty(tokens) == Pieces(Joined(chunks)) && Joined(tokens) == Stripped(Joined(chunks))
    ensures forall i :: 0 <= i < |tokens| ==> Unbroken(tokens[i])
  {
    var scanner := new Scanner(chunks);
    tokens := [];
    ghost var text := scanner.Ahead();
    while true
      invariant fresh(scanner) && scanner.Valid()
      invariant NonEmpty(tokens) + Pieces(scanner.Ahead()) == Pieces(text)
      invariant Joined(tokens) + Stripped(scanner.Ahead()) == Stripped(text)
      invariant forall i :: 0 <= i < |tokens| ==> Unbroken(tokens[i])
      decreases |scanner.Ahead()|
    {
      ghost var before := scanner.Ahead();
      var token := scanner.Scan();
      canceled := *;
      if token.None? {
        LastToken("");
        return;
      }
      if canceled {
        return;
      }
      TokensGrow(tokens, token.value, before, scanner.Ahead());
      tokens := tokens + [token.value];
    }
  }

  // ---- the last progress line

  function Later<U>(first: Option<U>, second: Option<U>): Option<U> { if second.Some? then second else first }

  function LastParsed<U>(lines: seq<string>, parse: string -> Option<U>): Option<U> {
    if lines == [] then None else Later(LastParsed(lines[..|lines| - 1], parse), parse(lines[|lines| - 1]))
  }

  /** What the last line that parses says; nothing only if none does. */
  ghost predicate IsLast<U(!new)>(lines: seq<string>, parse: string -> Option<U>, found: Option<U>) {
    if found.None? then forall i :: 0 <= i < |lines| ==> parse(lines[i]).None?
    else exists i :: 0 <= i < |lines| && parse(lines[i]) == found &&
           forall j :: i < j < |lines| ==> parse(lines[j]).None?
  }

  lemma {:induction false} LastParsedIsLast<U(!new)>(lines: seq<string>, parse: string -> Option<U>)
    ensures IsLast(lines, parse, LastParsed(lines, parse))
  {
    if lines != [] {
      var front, last := lines[..|lines| - 1], lines[|lines| - 1];
      LastParsedIsLast(front, parse);
      if parse(last).Some? {
        assert parse(lines[|lines| - 1]) == LastParsed(lines, parse);
      } else if LastParsed(front, parse).Some? {
        var i :| 0 <= i < |front| && parse(front[i]) == LastParsed(front, parse) &&
          forall j :: i < j < |front| ==> parse(front[j]).None?;
        assert parse(lines[i]) == LastParsed(lines, parse);
        forall j | i < j < |lines| ensures parse(lines[j]).None? {
          assert j < |front| ==> lines[j] == front[j];
        }
      } else {
        forall j | 0 <= j < |lines| ensures parse(lines[j]).None? {
          assert j < |front| ==> lines[j] == front[j];
        }
      }
    }
  }

  lemma {:induction false} EmptyDoesNotParse<U>(lines: seq<string>, parse: string -> Option<U>)
    requires parse("") == None
    ensures LastParsed(NonEmpty(lines), parse) == LastParsed(lines, parse)
  {
    if lines != [] {
      var front, last := lines[..|lines| - 1], lines[|lines| - 1];
      EmptyDoesNotParse(front, parse);
      assert lines == front + [last];
      NonEmptyAppend(front, [last]);
      assert [last][1..] == [];
      assert NonEmpty(lines) == if last == "" then NonEmpty(front) + [] else NonEmpty(front) + [last];
      assert NonEmpty(front) + [] == NonEmpty(front);
      assert (NonEmpty(front) + [last])[..|NonEmpty(front)|] == NonEmpty(front);
    }
  }

  lemma LastParsedNext<U>(lines: seq<string>, line: string, parse: string -> Option<U>)
    ensures LastParsed(lines + [line], parse) == Later(LastParsed(lines, parse), parse(line))
  {
    assert (lines + [line])[..|lines|] == lines;
  }

  /** The last progress the text states. For a parser that makes nothing of an
      empty line, it does not matter how the text reached the scanner. */
  method FindLast<U(!new)>(chunks: seq<string>, parse: string -> Option<U>) returns (latest: Option<U>)
    ensures parse("") == None ==> latest == LastParsed(Pieces(Joined(chunks)), parse)
    ensures parse("") == None ==> IsLast(Pieces(Joined(chunks)), parse, latest)
  {
    var scanner := new Scanner(chunks);
    latest := None;
    ghost var tokens: seq<string> := [];
    ghost var text := scanner.Ahead();
    var ended := false;
    while !ended
      invariant fresh(scanner) && scanner.Valid()
      invariant ended ==> scanner.Ahead() == ""
      invariant latest == LastParsed(tokens, parse)
      invariant NonEmpty(tokens) + Pieces(scanner.Ahead()) == Pieces(text)
      decreases |scanner.Ahead()|, !ended
    {
      ghost var before := scanner.Ahead();
      var token := scanner.Scan();
      if token.None? {
        ended := true;
        continue;
      }
      TokensGrow(tokens, token.value, before, scanner.Ahead());
      LastParsedNext(tokens, token.value, parse);
      tokens := tokens + [token.value];
      var progress := parse(token.value);
      if progress.Some? {
        latest := progress;
      }
    }
    LastToken("");
    assert NonEmpty(tokens) + [] == NonEmpty(tokens);
    if parse("") == None {
      EmptyDoesNotParse(tokens, parse);
      LastParsedIsLast(Pieces(text), parse);
    }
  }
}
