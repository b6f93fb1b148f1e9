/** The two commands of the mongodb kind (internal/flush/spec.go): what each
    prints, and what the marker looked for in it says about the lock count. */
module FlushPair {
  import opened Decimal
  import opened Outcome
  import opened Text

  const LOCK_MARKER := "pv-migrate-fsynclock=1"
  const RELEASE_MARKER := "pv-migrate-lockcount=0"

  const LOCK_LABEL := "pv-migrate-fsynclock="
  const RELEASE_LABEL := "pv-migrate-lockcount="

  /** What the lock command prints: the server's verdict and its message, after
      whatever the client had to say on lines of its own. */
  function LockOutput(banner: string, taken: bool, message: string): string {
    banner + ['\n'] + (LOCK_LABEL + ((if taken then "1" else "0") + " " + message))
  }

  /** What the release prints: the count it leaves behind, if there was a lock
      to undo. */
  function ReleaseOutput(banner: string, left: Option<nat>): string {
    banner + ['\n'] + (RELEASE_LABEL + (if left.None? then "undefined" else Digits(left.value)))
  }

  /** A marker is found only where its first letter is, and the rest does not
      hold it. */
  lemma OnlyAtStart(head: string, rest: string, marker: string)
    requires marker != "" && !Contains(rest, marker)
    requires forall k :: 0 < k < |head| ==> head[k] != marker[0]
    ensures Contains(head + rest, marker) <==> HasPrefix(head + rest, marker)
  {
    var all := head + rest;
    PrefixAt(all, marker);
    if Contains(all, marker) {
      var i: nat :| i <= |all| && At(all, marker, i);
      assert all[i + 0] == marker[0];
      if i >= |head| {
        forall k | 0 <= k < |marker| ensures rest[i - |head| + k] == marker[k] { assert all[i + k] == marker[k]; }
        assert At(rest, marker, i - |head|);
      }
    }
  }

  /** Text before it, fenced off, does not matter. */
  lemma BannerAside(banner: string, fence: char, line: string, marker: string)
    requires marker != "" && fence !in marker && !Contains(banner, marker)
    ensures Contains(banner + [fence] + line, marker) <==> Contains(line, marker)
  {
    var all := banner + [fence] + line;
    if Contains(all, marker) {
      FenceSplits(banner, fence, line, marker);
    }
    if Contains(line, marker) {
      assert all[|banner| + 1..|all|] == line;
      ContainsInPart(all, |banner| + 1, |all|, marker);
    }
  }

  lemma NoPNoMarker(s: string, marker: string)
    requires marker != "" && marker[0] == 'p' && forall i :: 0 <= i < |s| ==> s[i] != 'p'
    ensures !Contains(s, marker)
  {
    forall i: nat | i <= |s| ensures !At(s, marker, i) {
      if At(s, marker, i) {
        AtChar(s, marker, i, i);
      }
    }
  }

  lemma PrefixOfBoth(head: string, rest: string, tail: string)
    ensures HasPrefix(head + rest, head + tail) <==> HasPrefix(rest, tail)
  {
    if |tail| <= |rest| {
      assert (head + rest)[..|head + tail|] == head + rest[..|tail|];
      assert head + rest[..|tail|] == head + tail <==> rest[..|tail|] == tail by {
        assert (head + rest[..|tail|])[|head|..] == rest[..|tail|];
        assert (head + tail)[|head|..] == tail;
      }
    }
  }

  /** The lock marker is there exactly when the server took the lock. */
  lemma LockMarkerMeansTaken(banner: string, taken: bool, message: string)
    requires !Contains(banner, LOCK_MARKER) && !Contains(message, LOCK_MARKER)
    ensures Contains(LockOutput(banner, taken, message), LOCK_MARKER) <==> taken
  {
    var digit := if taken then "1" else "0";
    var verdict := digit + " " + message;
    TooShort(digit, LOCK_MARKER);
    BannerAside(digit, ' ', message, LOCK_MARKER);
    BannerAside(banner, '\n', LOCK_LABEL + verdict, LOCK_MARKER);
    OnlyAtStart(LOCK_LABEL, verdict, LOCK_MARKER);
    assert LOCK_MARKER == LOCK_LABEL + "1";
    PrefixOfBoth(LOCK_LABEL, verdict, "1");
    assert verdict[0] == digit[0] && verdict[..1] == [verdict[0]];
  }

  /** The release marker is there exactly when a lock was undone and none is
      left: a count printed in decimal starts with 0 only if it is zero. */
  lemma ReleaseMarkerMeansNone(banner: string, left: Option<nat>)
    requires !Contains(banner, RELEASE_MARKER)
    ensures Contains(ReleaseOutput(banner, left), RELEASE_MARKER) <==> left == Some(0)
  {
    var count := if left.None? then "undefined" else Digits(left.value);
    NoPNoMarker(count, RELEASE_MARKER);
    BannerAside(banner, '\n', RELEASE_LABEL + count, RELEASE_MARKER);
    OnlyAtStart(RELEASE_LABEL, count, RELEASE_MARKER);
    assert RELEASE_MARKER == RELEASE_LABEL + "0";
    PrefixOfBoth(RELEASE_LABEL, count, "0");
    assert count[..1] == [count[0]];
    if left.Some? {
      LeadingZero(left.value);
    }
  }
}
