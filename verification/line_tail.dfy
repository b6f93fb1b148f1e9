/** The last lines of a local rsync session (internal/strategy/linetail.go): a
    writer that is fed in chunks and keeps a bounded tail in place. */
module LineTail {
  import opened LineSplit
  import opened Trim

  /** The trimmed lines among some pieces that are not blank. */
  function Recorded(pieces: seq<string>): seq<string> {
    if pieces == [] then []
    else (if TrimSpace(pieces[0]) == "" then [] else [TrimSpace(pieces[0])]) + Recorded(pieces[1..])
  }

  lemma {:induction false} RecordedAppend(a: seq<string>, b: seq<string>)
    ensures Recorded(a + b) == Recorded(a) + Recorded(b)
  {
    if a == [] {
      assert a + b == b;
    } else {
      assert (a + b)[1..] == a[1..] + b;
      RecordedAppend(a[1..], b);
    }
  }

  lemma RecordedNext(before: seq<string>, taken: seq<string>, piece: string)
    ensures var line := TrimSpace(piece);
            before + Recorded(taken + [piece]) ==
            if line == "" then before + Recorded(taken) else before + Recorded(taken) + [line]
  {
    RecordedAppend(taken, [piece]);
    assert [piece][1..] == [];
  }

  /** A text of which these pieces have been taken and this is left. */
  predicate Split(whole: string, taken: seq<string>, left: string) {
    taken + Complete(left) == Complete(whole) && Rest(left) == Rest(whole)
  }

  lemma NoneTaken(whole: string)
    ensures Split(whole, [], whole)
  {
    assert [] + Complete(whole) == Complete(whole);
  }

  lemma TakePiece(whole: string, taken: seq<string>, left: string, i: nat, piece: string, more: string)
    requires Split(whole, taken, left) && i == FirstBreak(left) < |left| && piece == left[..i] && more == left[i + 1..]
    ensures Split(whole, taken + [piece], more)
  {
    FirstPiece(left, i, piece, more);
    Appended(taken, piece, Complete(more));
  }

  lemma AllTaken(whole: string, taken: seq<string>, left: string)
    requires Split(whole, taken, left) && FirstBreak(left) == |left|
    ensures taken == Complete(whole) && left == Rest(whole)
  {
    assert taken + [] == taken;
  }

  lemma WholeIsOldAndNew(text: string, data: string)
    ensures Recorded(Complete(text + data)) == Recorded(Complete(text)) + Recorded(Complete(Rest(text) + data))
    ensures Rest(text + data) == Rest(Rest(text) + data)
  {
    SplitAppend(text, data);
    RecordedAppend(Complete(text), Complete(Rest(text) + data));
  }

  function Last<T>(s: seq<T>, limit: nat): seq<T> { if |s| <= limit then s else s[|s| - limit..] }

  /** Dropping the oldest to make room is keeping the last. */
  lemma LastOfNext<T>(s: seq<T>, x: T, limit: nat)
    requires limit > 0
    ensures Last(s + [x], limit) == (if |s| >= limit then Last(s, limit)[1..] else Last(s, limit)) + [x]
  {}

  /** What the tail is of everything written: the last lines, and then the one
      that no break has ended yet. */
  function TailOf(text: string, limit: nat): seq<string> {
    Last(Recorded(Complete(text)), limit) + Recorded([Rest(text)])
  }

  /** Seen as one list of lines: its end, with room for one more while the last
      line is unfinished. */
  lemma TailIsTheEnd(text: string, limit: nat)
    requires limit > 0
    ensures TailOf(text, limit) ==
            Last(Recorded(Complete(text) + [Rest(text)]), if TrimSpace(Rest(text)) == "" then limit else limit + 1)
  {
    var lines, rest := Recorded(Complete(text)), TrimSpace(Rest(text));
    RecordedAppend(Complete(text), [Rest(text)]);
    RecordedOne(Rest(text));
    LastWithOne(lines, rest, limit);
    assert rest == "" ==> lines + [] == lines && Last(lines, limit) + [] == Last(lines, limit);
  }

  lemma RecordedOne(piece: string)
    ensures Recorded([piece]) == if TrimSpace(piece) == "" then [] else [TrimSpace(piece)]
  {
    assert [piece][1..] == [];
  }

  lemma LastWithOne<T>(s: seq<T>, x: T, limit: nat)
    ensures Last(s, limit) + [x] == Last(s + [x], limit + 1)
  {}

  class Tail {
    const limit: nat
    const lines: array<string>
    var count: nat
    var partial: string
    ghost var text: string  // everything written so far

    ghost predicate Valid()
      reads this, lines
    {
      && limit > 0 && lines.Length == limit && count <= limit
      && lines[..count] == Last(Recorded(Complete(text)), limit)
      && partial == Rest(text)
    }

    constructor (limit: nat)
      requires limit > 0
      ensures Valid() && this.limit == limit && text == "" && fresh(lines)
    {
      this.limit, count, partial, text := limit, 0, "", "";
      lines := new string[limit];
    }

    method Write(data: string) returns (written: nat)
      requires Valid()
      modifies this, lines
      ensures Valid() && text == old(text) + data && written == |data|
    {
      WholeIsOldAndNew(text, data);
      partial := partial + data;
      ghost var whole, before := partial, Recorded(Complete(text));
      ghost var taken: seq<string> := [];
      NoneTaken(whole);
      assert before + Recorded(taken) == before;
      while FirstBreak(partial) < |partial|
        invariant limit > 0 && lines.Length == limit && count <= limit && text == old(text)
        invariant lines[..count] == Last(before + Recorded(taken), limit)
        invariant Split(whole, taken, partial)
        decreases |partial|
      {
        var i := FirstBreak(partial);
        var piece, more := partial[..i], partial[i + 1..];
        TakePiece(whole, taken, partial, i, piece, more);
        var line := TrimSpace(piece);
        partial := more;
        RecordedNext(before, taken, piece);
        if line != "" {
          Record(line, before + Recorded(taken));
        }
        taken := taken + [piece];
      }
      AllTaken(whole, taken, partial);
      text := text + data;
      written := |data|;
    }

    /** Makes room by moving every line one down, then adds the new one. */
    method Record(line: string, ghost all: seq<string>)
      requires limit > 0 && lines.Length == limit && count <= limit && lines[..count] == Last(all, limit)
      modifies this`count, lines
      ensures count <= limit && lines[..count] == Last(all + [line], limit)
    {
      LastOfNext(all, line, limit);
      if count == limit {
        forall i | 0 <= i < limit - 1 {
          lines[i] := lines[i + 1];
        }
        count := limit - 1;
        assert lines[..count] == old(lines[..count])[1..];
      }
      lines[count] := line;
      count := count + 1;
    }

    /** The kept lines, oldest first, however what was written was cut up. */
    method Lines() returns (kept: seq<string>)
      requires Valid()
      ensures kept == TailOf(text, limit)
    {
      assert Recorded([partial]) == if TrimSpace(partial) == "" then [] else [TrimSpace(partial)];
      kept := lines[..count];
      assert kept + [] == kept;
      var rest := TrimSpace(partial);
      if rest != "" {
        kept := kept + [rest];
      }
    }
  }
}
