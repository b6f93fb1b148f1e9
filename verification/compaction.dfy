/** Dropping the owner rows that say nothing their pods do not
    (internal/k8s/diagnostics.go): a compaction into the front of the slice it
    still reads, in part already overwritten. */
module Compaction {
  import opened Text

  datatype Fact = Fact(
    uid: string, kind: string, name: string, title: string, details: seq<string>, quiet: bool, bareTitle: string
  )

  type Events = map<string, seq<string>>

  predicate HasEvents(f: Fact, events: Events) { f.uid in events && events[f.uid] != [] }

  predicate IsPodOf(f: Fact, workload: string) { f.kind == "pod" && HasPrefix(f.name, workload + "-") }

  predicate HasPod(facts: seq<Fact>, workload: string) { exists m :: 0 <= m < |facts| && IsPodOf(facts[m], workload) }

  // ---- the list it should be

  predicate Keeps(f: Fact, all: seq<Fact>, events: Events) { !f.quiet || HasEvents(f, events) || !HasPod(all, f.name) }

  /** A row kept only for its events loses its lagging counters. */
  function Retitled(f: Fact, events: Events): Fact {
    if f.quiet && HasEvents(f, events) && f.bareTitle != "" then f.(title := f.bareTitle) else f
  }

  function Kept(facts: seq<Fact>, all: seq<Fact>, events: Events): seq<Fact> {
    if facts == [] then []
    else
      var last := facts[|facts| - 1];
      Kept(facts[..|facts| - 1], all, events) + (if Keeps(last, all, events) then [Retitled(last, events)] else [])
  }

  // ---- a pod that is dropped leaves another that stands for it

  function Longest(facts: seq<Fact>): (n: nat)
    ensures forall m :: 0 <= m < |facts| ==> |facts[m].name| <= n
  {
    if facts == [] then 0
    else
      var n := Longest(facts[..|facts| - 1]);
      var last := facts[|facts| - 1];
      assert forall m :: 0 <= m < |facts| - 1 ==> facts[m] == facts[..|facts| - 1][m];
      if |last.name| > n then |last.name| else n
  }

  lemma PodOfPod(f: Fact, g: Fact, workload: string)
    requires IsPodOf(f, workload) && IsPodOf(g, f.name)
    ensures IsPodOf(g, workload) && |g.name| > |f.name|
  {
    assert g.name[..|f.name|] == f.name by { assert (f.name + "-")[..|f.name|] == f.name; }
    assert g.name[..|workload + "-"|] == f.name[..|workload + "-"|];
  }

  /** A workload that has a pod has one that is kept: a pod is only ever dropped
      for another with a longer name, which is the workload's as well. */
  lemma {:induction false} KeptPod(all: seq<Fact>, events: Events, workload: string, m: nat) returns (at: nat)
    requires m < |all| && IsPodOf(all[m], workload)
    ensures at < |all| && IsPodOf(all[at], workload) && Keeps(all[at], all, events)
    ensures all[at].kind == "pod" && HasPrefix(all[at].name, workload + "-")
    decreases Longest(all) - |all[m].name|
  {
    if Keeps(all[m], all, events) {
      return m;
    }
    var next :| 0 <= next < |all| && IsPodOf(all[next], all[m].name);
    PodOfPod(all[m], all[next], workload);
    at := KeptPod(all, events, workload, next);
  }

  /** A row goes exactly if it is quiet, has no events, and a pod of its name that
      is kept stands for it. */
  lemma DroppedIsCovered(all: seq<Fact>, events: Events, i: nat)
    requires i < |all|
    ensures var f := all[i];
            !Keeps(f, all, events) <==>
              && f.quiet && (f.uid in events ==> events[f.uid] == [])
              && exists at :: 0 <= at < |all| && Keeps(all[at], all, events) && all[at].kind == "pod" &&
                   HasPrefix(all[at].name, f.name + "-")
  {
    if !Keeps(all[i], all, events) {
      var m :| 0 <= m < |all| && IsPodOf(all[m], all[i].name);
      var at := KeptPod(all, events, all[i].name, m);
    }
    if exists at :: 0 <= at < |all| && Keeps(all[at], all, events) && all[at].kind == "pod" &&
         HasPrefix(all[at].name, all[i].name + "-") {
      var at :| 0 <= at < |all| && all[at].kind == "pod" && HasPrefix(all[at].name, all[i].name + "-");
      assert IsPodOf(all[at], all[i].name);
    }
  }

  /** What is kept is kept as it was, but for the title of a quiet row that is
      there for its events. */
  lemma KeptAsItWas(f: Fact, events: Events)
    ensures var g := Retitled(f, events);
            && g.(title := f.title) == f
            && (g.title != f.title ==> g.title == f.bareTitle)
            && (f.quiet && f.uid in events && events[f.uid] != [] && f.bareTitle != "" ==> g.title == f.bareTitle)
            && (!f.quiet || f.uid !in events || events[f.uid] == [] || f.bareTitle == "" ==> g == f)
  {}

  lemma {:induction false} KeptHas(facts: seq<Fact>, all: seq<Fact>, events: Events, m: nat) returns (at: nat)
    requires m < |facts| && Keeps(facts[m], all, events)
    ensures at < |Kept(facts, all, events)| && Kept(facts, all, events)[at] == Retitled(facts[m], events)
  {
    var front := facts[..|facts| - 1];
    if m == |facts| - 1 {
      at := |Kept(front, all, events)|;
    } else {
      assert front[m] == facts[m];
      at := KeptHas(front, all, events, m);
    }
  }

  /** Some row of the list has this kind and name. */
  predicate IsOf(f: Fact, all: seq<Fact>) {
    exists m :: 0 <= m < |all| && all[m].kind == f.kind && all[m].name == f.name
  }

  /** How the slice stands once i rows have been looked at and k kept. */
  predicate Halfway(now: seq<Fact>, all: seq<Fact>, events: Events, i: nat, k: nat) {
    && |now| == |all| && k <= i <= |all|
    && now[..k] == Kept(all[..i], all, events)
    && now[i..] == all[i..]
    && forall j :: 0 <= j < |now| ==> IsOf(now[j], all)
  }

  /** The half-compacted list answers the pod question as the list itself. */
  lemma HalfwayAnswers(now: seq<Fact>, all: seq<Fact>, events: Events, i: nat, k: nat, workload: string)
    requires Halfway(now, all, events, i, k)
    ensures HasPod(now, workload) <==> HasPod(all, workload)
  {
    if HasPod(now, workload) {
      var j :| 0 <= j < |now| && IsPodOf(now[j], workload);
      var m :| 0 <= m < |all| && all[m].kind == now[j].kind && all[m].name == now[j].name;
      assert IsPodOf(all[m], workload);
    }
    if HasPod(all, workload) {
      var m :| 0 <= m < |all| && IsPodOf(all[m], workload);
      var at := KeptPod(all, events, workload, m);
      if at < i {
        assert all[..i][at] == all[at];
        var j := KeptHas(all[..i], all, events, at);
        assert now[j] == now[..k][j] && IsPodOf(now[j], workload);
      } else {
        assert now[at] == now[i..][at - i];
        assert IsPodOf(now[at], workload);
      }
    }
  }

  lemma HalfwayOn(now: seq<Fact>, all: seq<Fact>, events: Events, i: nat, k: nat)
    requires Halfway(now, all, events, i, k) && i < |all|
    ensures now[i] == all[i]
    ensures !Keeps(all[i], all, events) ==> Halfway(now, all, events, i + 1, k)
    ensures Keeps(all[i], all, events) ==> Halfway(now[k := Retitled(all[i], events)], all, events, i + 1, k + 1)
  {
    assert now[i..][0] == all[i..][0] && now[i + 1..] == now[i..][1..] && all[i + 1..] == all[i..][1..];
    assert all[..i + 1][..i] == all[..i];
    var kept := now[k := Retitled(all[i], events)];
    assert kept[..k + 1] == now[..k] + [Retitled(all[i], events)];
    assert kept[i + 1..] == now[i + 1..];
    assert IsOf(Retitled(all[i], events), all);
  }

  // ---- the compaction

  method HasPodOfWorkload(facts: array<Fact>, workload: string) returns (has: bool)
    ensures has == HasPod(facts[..], workload)
  {
    for m := 0 to facts.Length
      invariant forall j :: 0 <= j < m ==> !IsPodOf(facts[j], workload)
    {
      if IsPodOf(facts[m], workload) {
        assert IsPodOf(facts[..][m], workload);
        return true;
      }
    }
    return false;
  }

  /** Every row it answers for, in place, whatever has been overwritten by then:
      the rows kept are those of the original list. */
  method DropShadowedQuietFacts(facts: array<Fact>, events: Events) returns (count: nat)
    modifies facts
    ensures count <= facts.Length
    ensures facts[..count] == Kept(old(facts[..]), old(facts[..]), events)
  {
    count := 0;
    ghost var all, now := facts[..], facts[..];
    StartsHalfway(all, events);
    for i := 0 to facts.Length
      invariant count <= i && now == facts[..] && Halfway(now, all, events, i, count)
    {
      var fact := facts[i];
      HalfwayStep(now, all, events, i, count);
      var shadowed := HasPodOfWorkload(facts, fact.name);
      if !(fact.quiet && !HasEvents(fact, events) && shadowed) {
        if fact.quiet && HasEvents(fact, events) && fact.bareTitle != "" {
          fact := fact.(title := fact.bareTitle);
        }
        facts[count] := fact;
        now := now[count := fact];
        count := count + 1;
      }
    }
    EndsHalfway(now, all, events, count);
  }

  /** One row: the answer the loop gets for it, and how the slice stands next. */
  lemma HalfwayStep(now: seq<Fact>, all: seq<Fact>, events: Events, i: nat, k: nat)
    requires Halfway(now, all, events, i, k) && i < |all|
    ensures var fact := now[i];
            if fact.quiet && !HasEvents(fact, events) && HasPod(now, fact.name) then Halfway(now, all, events, i + 1, k)
            else Halfway(now[k := Retitled(fact, events)], all, events, i + 1, k + 1)
  {
    HalfwayOn(now, all, events, i, k);
    HalfwayAnswers(now, all, events, i, k, all[i].name);
  }

  lemma EndsHalfway(now: seq<Fact>, all: seq<Fact>, events: Events, k: nat)
    requires Halfway(now, all, events, |all|, k)
    ensures now[..k] == Kept(all, all, events)
  {
    assert all[..|all|] == all;
  }

  lemma StartsHalfway(all: seq<Fact>, events: Events)
    ensures Halfway(all, all, events, 0, 0)
  {}
}
