/** The parts of Go's package strings the model uses. */
module Text {
  import opened Outcome

  predicate HasPrefix(s: string, prefix: string) { |prefix| <= |s| && s[..|prefix|] == prefix }

  predicate HasSuffix(s: string, suffix: string) { |suffix| <= |s| && s[|s| - |suffix|..] == suffix }

  predicate At(s: string, sub: string, i: nat) {
    i + |sub| <= |s| && forall k :: 0 <= k < |sub| ==> s[i + k] == sub[k]
  }

  predicate Contains(s: string, sub: string) { exists i :: 0 <= i <= |s| && At(s, sub, i) }

  /** The text before and after the first occurrence, as strings.Cut. */
  function Cut(s: string, sep: string): (r: Option<(string, string)>)
    decreases |s|
  {
    if HasPrefix(s, sep) then Some(("", s[|sep|..]))
    else if s == "" then None
    else
      match Cut(s[1..], sep)
      case None => None
      case Some(parts) => Some(([s[0]] + parts.0, parts.1))
  }

  lemma PrefixAt(s: string, sub: string)
    ensures HasPrefix(s, sub) <==> At(s, sub, 0)
  {
    if At(s, sub, 0) {
      assert s[..|sub|] == sub;
    }
  }

  lemma Shifted(c: char, rest: string, sub: string, i: nat)
    ensures At([c] + rest, sub, i + 1) <==> At(rest, sub, i)
  {
    if At([c] + rest, sub, i + 1) {
      forall k | 0 <= k < |sub| ensures rest[i + k] == sub[k] {
        assert ([c] + rest)[i + 1 + k] == sub[k];
      }
    }
  }

  lemma {:induction false} CutSplits(s: string, sep: string)
    requires Cut(s, sep).Some?
    ensures s == Cut(s, sep).value.0 + sep + Cut(s, sep).value.1
    decreases |s|
  {
    if HasPrefix(s, sep) {
      assert s == s[..|sep|] + s[|sep|..];
    } else {
      CutSplits(s[1..], sep);
      var parts := Cut(s[1..], sep).value;
      FrontGlued(s[0], parts.0, sep, parts.1);
      assert s == [s[0]] + s[1..];
    }
  }

  lemma FrontGlued(c: char, a: string, b: string, d: string)
    ensures [c] + (a + b + d) == [c] + a + b + d
  {}

  /** Cut finds the first occurrence, and finds one whenever there is one. */
  lemma {:induction false} CutFound(s: string, sep: string)
    ensures Cut(s, sep).None? ==> !Contains(s, sep)
    ensures Cut(s, sep).Some? ==> forall i :: 0 <= i < |Cut(s, sep).value.0| ==> !At(s, sep, i)
    decreases |s|
  {
    PrefixAt(s, sep);
    if !HasPrefix(s, sep) && s != "" {
      var rest := s[1..];
      assert s == [s[0]] + rest;
      CutFound(rest, sep);
      forall i: nat | 0 < i ensures At(s, sep, i) <==> At(rest, sep, i - 1) {
        Shifted(s[0], rest, sep, i - 1);
      }
    }
  }

  /** The text parted at the first occurrence. */
  predicate FirstSplit(s: string, sep: string, a: string, b: string) {
    s == a + sep + b && forall i :: 0 <= i < |a| ==> !At(s, sep, i)
  }

  lemma SplitAt(a: string, sep: string, b: string)
    ensures At(a + sep + b, sep, |a|)
  {}

  lemma CutIsFirst(s: string, sep: string, a: string, b: string)
    ensures Cut(s, sep) == Some((a, b)) <==> FirstSplit(s, sep, a, b)
    ensures Cut(s, sep) == None <==> !Contains(s, sep)
  {
    CutFound(s, sep);
    if Cut(s, sep).Some? {
      CutSplits(s, sep);
      var parts := Cut(s, sep).value;
      SplitAt(parts.0, sep, parts.1);
      if FirstSplit(s, sep, a, b) {
        SplitAt(a, sep, b);
        SameSplit(a, parts.0, sep, b, parts.1);
      }
    } else if FirstSplit(s, sep, a, b) {
      SplitAt(a, sep, b);
      assert false;
    }
  }

  lemma SameSplit(a: string, c: string, sep: string, b: string, d: string)
    requires a + sep + b == c + sep + d && |a| == |c|
    ensures a == c && b == d
  {
    var s := a + sep + b;
    assert s[..|a|] == a && s[..|c|] == c;
    assert s[|a| + |sep|..] == b && s[|c| + |sep|..] == d;
  }

  /** More text behind does not move the first occurrence, */
  lemma FirstSplitLater(s: string, sep: string, a: string, b: string, more: string)
    requires FirstSplit(s, sep, a, b)
    ensures FirstSplit(s + more, sep, a, b + more)
  {
    forall i: nat | i < |a| ensures !At(s + more, sep, i) {
      assert !At(s, sep, i) && i + |sep| <= |s|;
      if At(s + more, sep, i) {
        forall k | 0 <= k < |sep| ensures s[i + k] == sep[k] { assert (s + more)[i + k] == sep[k]; }
      }
    }
  }

  /** and text in front pushes it on, if it cannot begin there. */
  lemma FirstSplitBehind(front: string, s: string, sep: string, a: string, b: string)
    requires FirstSplit(s, sep, a, b) && sep != "" && sep[0] !in front
    ensures FirstSplit(front + s, sep, front + a, b)
  {
    forall i: nat | i < |front + a| ensures !At(front + s, sep, i) {
      if At(front + s, sep, i) {
        assert (front + s)[i + 0] == sep[0];
        forall k | 0 <= k < |sep| ensures s[i - |front| + k] == sep[k] { assert (front + s)[i + k] == sep[k]; }
        assert At(s, sep, i - |front|);
      }
    }
    assert front + s == front + a + sep + b;
  }

  lemma AtChar(s: string, sub: string, i: nat, j: nat)
    requires At(s, sub, i)
    ensures i <= j < i + |sub| ==> s[j] == sub[j - i]
  {
    if i <= j < i + |sub| {
      assert s[i + (j - i)] == sub[j - i];
    }
  }

  /** No occurrence can reach across a character the text sought does not hold. */
  lemma FenceSplits(a: string, fence: char, b: string, sub: string)
    requires sub != "" && fence !in sub && Contains(a + [fence] + b, sub)
    ensures Contains(a, sub) || Contains(b, sub)
  {
    var all := a + [fence] + b;
    var i :| 0 <= i <= |all| && At(all, sub, i);
    AtChar(all, sub, i, |a|);
    if i + |sub| <= |a| {
      forall k | 0 <= k < |sub| ensures a[i + k] == sub[k] { assert all[i + k] == sub[k]; }
      assert At(a, sub, i);
    } else {
      assert i > |a|;
      forall k | 0 <= k < |sub| ensures b[i - |a| - 1 + k] == sub[k] { assert all[i + k] == sub[k]; }
      assert At(b, sub, i - |a| - 1);
    }
  }

  lemma ContainsInPart(s: string, from: nat, to: nat, sub: string)
    requires from <= to <= |s| && Contains(s[from..to], sub)
    ensures Contains(s, sub)
  {
    var i :| 0 <= i <= to - from && At(s[from..to], sub, i);
    forall k | 0 <= k < |sub| ensures s[from + i + k] == sub[k] { assert s[from..to][i + k] == sub[k]; }
    assert At(s, sub, from + i);
  }

  lemma TooShort(s: string, sub: string)
    requires |s| < |sub|
    ensures !Contains(s, sub)
  {}

  /** A text whose last character occurs nowhere else in it cannot overlap
      itself, so it is found first where it was put. */
  lemma {:induction false} CutFirst(a: string, sep: string, b: string)
    requires sep != "" && !Contains(a, sep)
    requires forall k :: 0 <= k < |sep| - 1 ==> sep[k] != sep[|sep| - 1]
    ensures Cut(a + sep + b, sep) == Some((a, b))
    decreases |a|
  {
    var s := a + sep + b;
    if a == "" {
      assert s == sep + b;
      assert s[..|sep|] == sep && s[|sep|..] == b;
    } else {
      NoOverlap(a, sep, b);
      assert s[1..] == a[1..] + sep + b && [s[0]] + a[1..] == a;
      assert a[1..|a|] == a[1..];
      NotInTail(a, sep);
      CutFirst(a[1..], sep, b);
    }
  }

  lemma NotInTail(a: string, sub: string)
    requires a != "" && !Contains(a, sub)
    ensures !Contains(a[1..], sub)
  {
    if Contains(a[1..], sub) {
      assert a[1..|a|] == a[1..];
      ContainsInPart(a, 1, |a|, sub);
    }
  }

  lemma NoOverlap(a: string, sep: string, b: string)
    requires sep != "" && !Contains(a, sep) && a != ""
    requires forall k :: 0 <= k < |sep| - 1 ==> sep[k] != sep[|sep| - 1]
    ensures !HasPrefix(a + sep + b, sep)
  {
    var s := a + sep + b;
    PrefixAt(a, sep);
    assert |sep| <= |a| ==> s[..|sep|] == a[..|sep|];
    assert |sep| > |a| ==> s[..|sep|][|sep| - 1] == sep[|sep| - 1 - |a|];
  }
}
