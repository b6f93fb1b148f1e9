/** strings.TrimSpace, over the characters Go's unicode.IsSpace names. */
module Trim {
  predicate IsSpace(c: char) {
    c == ' ' || '\t' <= c <= '\r' || c == '\U{0085}' || c == '\U{00A0}' || c == '\U{1680}' ||
    '\U{2000}' <= c <= '\U{200A}' || c == '\U{2028}' || c == '\U{2029}' || c == '\U{202F}' ||
    c == '\U{205F}' || c == '\U{3000}'
  }

  predicate Blank(s: string) { forall i :: 0 <= i < |s| ==> IsSpace(s[i]) }

  function TrimLeft(s: string): string
    decreases |s|
  {
    if s != "" && IsSpace(s[0]) then TrimLeft(s[1..]) else s
  }

  function TrimRight(s: string): string
    decreases |s|
  {
    if s != "" && IsSpace(s[|s| - 1]) then TrimRight(s[..|s| - 1]) else s
  }

  function TrimSpace(s: string): string { TrimRight(TrimLeft(s)) }

  /** Nothing to trim at either end. */
  predicate Trimmed(s: string) { s == "" || (!IsSpace(s[0]) && !IsSpace(s[|s| - 1])) }

  lemma {:induction false} TrimLeftIs(s: string) returns (front: string)
    ensures Blank(front) && s == front + TrimLeft(s)
    ensures TrimLeft(s) == "" || !IsSpace(TrimLeft(s)[0])
    decreases |s|
  {
    front := "";
    if s != "" && IsSpace(s[0]) {
      front := TrimLeftIs(s[1..]);
      assert s == [s[0]] + s[1..];
      front := [s[0]] + front;
    }
  }

  lemma {:induction false} TrimRightIs(s: string) returns (back: string)
    ensures Blank(back) && s == TrimRight(s) + back
    ensures TrimRight(s) == "" || (!IsSpace(TrimRight(s)[|TrimRight(s)| - 1]) && TrimRight(s)[0] == s[0])
    decreases |s|
  {
    back := "";
    if s != "" && IsSpace(s[|s| - 1]) {
      back := TrimRightIs(s[..|s| - 1]);
      assert s == s[..|s| - 1] + [s[|s| - 1]];
      back := back + [s[|s| - 1]];
    }
  }

  /** What is cut off is blank, and what stays has nothing more to cut off. */
  lemma TrimSpaceIs(s: string) returns (front: string, back: string)
    ensures Blank(front) && Blank(back) && s == front + TrimSpace(s) + back && Trimmed(TrimSpace(s))
  {
    front := TrimLeftIs(s);
    back := TrimRightIs(TrimLeft(s));
    assert front + (TrimSpace(s) + back) == front + TrimSpace(s) + back;
  }

  lemma TrimmedStays(s: string)
    requires Trimmed(s)
    ensures TrimSpace(s) == s
  {}
}
