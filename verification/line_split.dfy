/** A text cut at every carriage return and line feed, as a whole. */
module LineSplit {
  predicate IsBreak(c: char) { c == '\r' || c == '\n' }

  predicate Unbroken(s: string) { forall i :: 0 <= i < |s| ==> !IsBreak(s[i]) }

  /** bytes.IndexAny(s, "\r\n"), with the length for "not found". */
  function FirstBreak(s: string): (i: nat)
    ensures i <= |s| && Unbroken(s[..i]) && (i < |s| ==> IsBreak(s[i]))
  {
    if s == "" || IsBreak(s[0]) then 0
    else
      var i := FirstBreak(s[1..]);
      assert s[..i + 1] == [s[0]] + s[1..][..i];
      i + 1
  }

  lemma {:induction false} FirstBreakOf(piece: string, more: string)
    requires Unbroken(piece) && (more != "" ==> IsBreak(more[0]))
    ensures FirstBreak(piece + more) == |piece|
  {
    if piece == "" {
      assert piece + more == more;
    } else {
      assert (piece + more)[1..] == piece[1..] + more;
      FirstBreakOf(piece[1..], more);
    }
  }

  /** The pieces that a break ends, and what follows the last one. */
  function Complete(s: string): seq<string>
    decreases |s|
  {
    var i := FirstBreak(s);
    if i == |s| then [] else [s[..i]] + Complete(s[i + 1..])
  }

  function Rest(s: string): string
    decreases |s|
  {
    var i := FirstBreak(s);
    if i == |s| then s else Rest(s[i + 1..])
  }

  lemma Appended(a: seq<string>, piece: string, b: seq<string>)
    ensures a + ([piece] + b) == a + [piece] + b
  {}

  lemma Prepended(piece: string, a: seq<string>, b: seq<string>)
    ensures [piece] + (a + b) == [piece] + a + b
  {}

  lemma CutAtBreak(piece: string, c: char, more: string)
    requires Unbroken(piece) && IsBreak(c)
    ensures Complete(piece + [c] + more) == [piece] + Complete(more) && Rest(piece + [c] + more) == Rest(more)
  {
    var s := piece + ([c] + more);
    FirstBreakOf(piece, [c] + more);
    assert piece + [c] + more == s && s[..|piece|] == piece && s[|piece| + 1..] == more;
  }

  /** The first piece, and what comes behind its break. */
  lemma FirstPiece(s: string, i: nat, piece: string, more: string)
    requires i == FirstBreak(s) < |s| && piece == s[..i] && more == s[i + 1..]
    ensures Complete(s) == [piece] + Complete(more) && Rest(s) == Rest(more)
  {
    assert s == piece + [s[i]] + more;
    CutAtBreak(piece, s[i], more);
  }

  lemma NoBreak(piece: string)
    requires Unbroken(piece)
    ensures Complete(piece) == [] && Rest(piece) == piece
  {
    FirstBreakOf(piece, "");
    assert piece + "" == piece;
  }

  /** A text may be cut in two at any point: only the unfinished piece goes on. */
  lemma {:induction false} SplitAppend(s: string, t: string)
    ensures Complete(s + t) == Complete(s) + Complete(Rest(s) + t)
    ensures Rest(s + t) == Rest(Rest(s) + t)
    decreases |s|
  {
    var i := FirstBreak(s);
    if i == |s| {
      assert s[..i] == s;
      NoBreak(s);
    } else {
      var more := s[i + 1..];
      FirstPiece(s, i, s[..i], more);
      CutsAtBreak(s, i, more, t);
      SplitAppend(more, t);
      Prepended(s[..i], Complete(more), Complete(Rest(more) + t));
    }
  }

  lemma CutsAtBreak(s: string, i: nat, more: string, t: string)
    requires i == FirstBreak(s) < |s| && more == s[i + 1..]
    ensures Complete(s + t) == [s[..i]] + Complete(more + t) && Rest(s + t) == Rest(more + t)
  {
    AroundOne(s, i, t);
    CutAtBreak(s[..i], s[i], more + t);
  }

  lemma AroundOne(s: string, i: nat, t: string)
    requires i < |s|
    ensures s + t == s[..i] + [s[i]] + (s[i + 1..] + t)
  {}

  /** All pieces, the unfinished one too, that are not empty. */
  function NonEmpty(pieces: seq<string>): seq<string> {
    if pieces == [] then [] else (if pieces[0] == "" then [] else [pieces[0]]) + NonEmpty(pieces[1..])
  }

  lemma {:induction false} NonEmptyAppend(a: seq<string>, b: seq<string>)
    ensures NonEmpty(a + b) == NonEmpty(a) + NonEmpty(b)
  {
    if a == [] {
      assert a + b == b;
    } else {
      assert (a + b)[1..] == a[1..] + b;
      NonEmptyAppend(a[1..], b);
    }
  }

  function Pieces(s: string): seq<string> { NonEmpty(Complete(s) + [Rest(s)]) }

  /** The text without its breaks. */
  function Stripped(s: string): string {
    if s == "" then "" else (if IsBreak(s[0]) then "" else [s[0]]) + Stripped(s[1..])
  }

  function Joined(pieces: seq<string>): string { if pieces == [] then "" else pieces[0] + Joined(pieces[1..]) }

  lemma {:induction false} JoinedAppend(a: seq<string>, b: seq<string>)
    ensures Joined(a + b) == Joined(a) + Joined(b)
  {
    if a == [] {
      assert a + b == b;
    } else {
      assert (a + b)[1..] == a[1..] + b;
      JoinedAppend(a[1..], b);
    }
  }

  lemma {:induction false} StrippedAppend(s: string, t: string)
    ensures Stripped(s + t) == Stripped(s) + Stripped(t)
  {
    if s == "" {
      assert s + t == t;
    } else {
      assert (s + t)[1..] == s[1..] + t;
      StrippedAppend(s[1..], t);
    }
  }

  lemma {:induction false} UnbrokenStays(s: string)
    requires Unbroken(s)
    ensures Stripped(s) == s
  {
    if s != "" {
      UnbrokenStays(s[1..]);
      assert s == [s[0]] + s[1..];
    }
  }
}
