/** The strategy ladder (internal/migrator/migrator.go and Cleanup in
    internal/strategy/strategy.go): the strategies are tried in order until one
    works, each cleaned up after before the next. */
module Ladder {
  import opened Outcome

  datatype Side = Source | Dest

  /** How a strategy's own run ended. */
  datatype Ending = Done(detached: bool) | Declined | Broke

  predicate Failed(e: Ending) { !e.Done? }

  datatype Request = Request(strategies: seq<string>, noCleanup: bool, noCleanupOnFailure: bool)

  /** One strategy's turn: what was installed when it began, the releases it
      recorded, how it ended, whether its cleanup met an error, and whether the
      run was cancelled by then. */
  datatype Turn = Turn(
    strategy: string, before: set<(Side, string)>, releases: seq<string>,
    ending: Ending, uninstalled: bool, canceled: bool
  )

  datatype AttemptOutcome = AttemptOutcome(strategy: string, declined: bool)

  // ---- the order

  /** The strategies in the order given, each at its first mention. */
  function FirstMentions(s: seq<string>): seq<string> {
    if s == [] then []
    else
      var front := FirstMentions(s[..|s| - 1]);
      if s[|s| - 1] in s[..|s| - 1] then front else front + [s[|s| - 1]]
  }

  method Dedup(s: seq<string>) returns (result: seq<string>)
    ensures result == FirstMentions(s)
  {
    var seen := {};
    result := [];
    for i := 0 to |s|
      invariant result == FirstMentions(s[..i])
      invariant forall name :: name in seen <==> name in s[..i]
    {
      assert s[..i + 1][..i] == s[..i] && s[..i + 1][i] == s[i];
      if s[i] !in seen {
        seen := seen + {s[i]};
        result := result + [s[i]];
      }
    }
    assert s[..|s|] == s;
  }

  /** Each strategy once, none left out, none made up, in the order of first
      mention. */
  lemma {:induction false} FirstMentionsKeepOrder(s: seq<string>)
    ensures forall name :: name in FirstMentions(s) <==> name in s
    ensures forall i, j :: 0 <= i < j < |FirstMentions(s)| ==> FirstMentions(s)[i] != FirstMentions(s)[j]
    ensures forall i, j :: 0 <= i < j < |FirstMentions(s)| ==>
            FirstAt(s, FirstMentions(s)[i]) < FirstAt(s, FirstMentions(s)[j])
  {
    if s != [] {
      var front, last := s[..|s| - 1], s[|s| - 1];
      FirstMentionsKeepOrder(front);
      assert s == front + [last];
      forall name | name in front ensures FirstAt(s, name) == FirstAt(front, name) < |front| {
        FirstOfFront(front, last, name);
      }
      if last !in front {
        FirstOfNew(front, last);
      }
    }
  }

  function FirstAt(s: seq<string>, name: string): nat {
    if s == [] || s[0] == name then 0 else 1 + FirstAt(s[1..], name)
  }

  lemma {:induction false} FirstOfFront(front: seq<string>, last: string, name: string)
    requires name in front
    ensures FirstAt(front + [last], name) == FirstAt(front, name) < |front|
  {
    if front[0] != name {
      assert (front + [last])[1..] == front[1..] + [last] && name in front[1..];
      FirstOfFront(front[1..], last, name);
    }
  }

  lemma {:induction false} FirstOfNew(front: seq<string>, last: string)
    requires last !in front
    ensures FirstAt(front + [last], last) == |front|
  {
    if front != [] {
      assert (front + [last])[1..] == front[1..] + [last];
      FirstOfNew(front[1..], last);
    }
  }

  // ---- the cluster

  function OnBothSides(releases: seq<string>): (both: set<(Side, string)>)
    ensures forall name :: (Source, name) in both <==> name in releases
    ensures forall name :: (Dest, name) in both <==> name in releases
  {
    assert Source in {Source, Dest} && Dest in {Source, Dest};
    set side <- {Source, Dest}, name <- releases :: (side, name)
  }

  class Cluster {
    var installed: set<(Side, string)>

    constructor (installed: set<(Side, string)>)
      ensures this.installed == installed
    {
      this.installed := installed;
    }

    /** A strategy's run: it records its releases before it installs any of them,
        on either side; one that declines has touched nothing. */
    method RunStrategy() returns (ending: Ending, releases: seq<string>)
      modifies this`installed
      ensures old(installed) <= installed <= old(installed) + OnBothSides(releases)
      ensures ending.Declined? ==> installed == old(installed)
    {
      ending, releases := *, *;
      var some: set<(Side, string)> := *;
      if !ending.Declined? {
        installed := installed + OnBothSides(releases) * some;
      }
    }

    /** Uninstalling from one side; a release that is not there is no error. */
    method CleanupForPVC(side: Side, name: string) returns (ok: bool)
      modifies this`installed
      ensures installed == if ok then old(installed) - {(side, name)} else old(installed)
    {
      ok := *;
      if ok {
        installed := installed - {(side, name)};
      }
    }

    /** Every release on both sides, going on past errors. */
    method Cleanup(releases: seq<string>) returns (errors: nat)
      modifies this`installed
      ensures installed <= old(installed)
      ensures errors == 0 ==> installed == old(installed) - OnBothSides(releases)
    {
      errors := 0;
      var sides := [Source, Dest];
      ghost var gone: set<(Side, string)> := {};
      for s := 0 to 2
        invariant gone == set side <- sides[..s], name <- releases :: (side, name)
        invariant installed <= old(installed)
        invariant errors == 0 ==> installed == old(installed) - gone
      {
        ghost var first := gone;
        assert sides[..s + 1] == sides[..s] + [sides[s]];
        for i := 0 to |releases|
          invariant gone == first + set name <- releases[..i] :: (sides[s], name)
          invariant installed <= old(installed)
          invariant errors == 0 ==> installed == old(installed) - gone
        {
          assert releases[..i + 1] == releases[..i] + [releases[i]];
          var ok := CleanupForPVC(sides[s], releases[i]);
          gone := gone + {(sides[s], releases[i])};
          if !ok {
            errors := errors + 1;
          }
        }
        assert releases[..|releases|] == releases;
      }
      assert sides[..2] == sides;
    }
  }

  // ---- one strategy's turn

  /** Cleanup is asked for after a turn that ended like this. */
  predicate CleansUp(req: Request, ending: Ending) {
    !req.noCleanup && !(ending.Done? && ending.detached) && !(req.noCleanupOnFailure && Failed(ending))
  }

  method CleanupAttempt(c: Cluster, req: Request, releases: seq<string>, ending: Ending) returns (clean: bool)
    modifies c
    ensures c.installed <= old(c.installed)
    ensures clean && CleansUp(req, ending) ==> c.installed == old(c.installed) - OnBothSides(releases)
    ensures req.noCleanup || ending == Done(true) || (req.noCleanupOnFailure && !ending.Done?) ==>
              c.installed == old(c.installed)
    ensures clean && !req.noCleanup && ending == Done(false) ==> c.installed == old(c.installed) - OnBothSides(releases)
    ensures clean && !req.noCleanup && !req.noCleanupOnFailure && !ending.Done? ==>
              c.installed == old(c.installed) - OnBothSides(releases)
  {
    clean := true;
    if |releases| == 0 {
      return;
    }
    if req.noCleanup || (ending.Done? && ending.detached) {
      return;
    }
    if req.noCleanupOnFailure && Failed(ending) {
      return;
    }
    var errors := c.Cleanup(releases);
    clean := errors == 0;
  }

  /** A run with its deferred cleanup. */
  method RunAttempt(c: Cluster, req: Request) returns (ending: Ending, ghost releases: seq<string>, ghost clean: bool)
    modifies c
    ensures c.installed <= old(c.installed) + OnBothSides(releases)
    ensures clean && CleansUp(req, ending) ==> c.installed == old(c.installed) - OnBothSides(releases)
    ensures clean && !req.noCleanup && ending == Done(false) ==> c.installed == old(c.installed) - OnBothSides(releases)
    ensures req.noCleanup || ending == Done(true) || (req.noCleanupOnFailure && !ending.Done?) ==>
              old(c.installed) <= c.installed
  {
    var recorded;
    ending, recorded := c.RunStrategy();
    var cleaned := CleanupAttempt(c, req, recorded, ending);
    releases, clean := recorded, cleaned;
  }

  // ---- the ladder

  datatype RunError = UnknownStrategy | Exhausted(outcomes: seq<AttemptOutcome>)

  function Outcomes(turns: seq<Turn>): seq<AttemptOutcome> {
    seq(|turns|, i requires 0 <= i < |turns| => AttemptOutcome(turns[i].strategy, turns[i].ending.Declined?))
  }

  /** Every failed turn is cleaned up after, and that worked. */
  predicate AllClean(req: Request, turns: seq<Turn>) {
    !req.noCleanup && !req.noCleanupOnFailure && forall i :: 0 <= i < |turns| ==> turns[i].uninstalled
  }

  /** None of these turns' releases is installed. */
  predicate Gone(turns: seq<Turn>, installed: set<(Side, string)>) {
    forall i :: 0 <= i < |turns| ==> OnBothSides(turns[i].releases) !! installed
  }

  predicate FollowsOrder(turns: seq<Turn>, order: seq<string>) {
    |turns| <= |order| && forall i :: 0 <= i < |turns| ==> turns[i].strategy == order[i]
  }

  /** A turn that sends the ladder on. */
  predicate GoesOn(turn: Turn) { Failed(turn.ending) && !turn.canceled }

  /** Tries the strategies in turn until one succeeds, the run is cancelled, or
      none is left; the error tells every failure. */
  method Run(c: Cluster, req: Request, known: set<string>) returns (r: Result<(), RunError>, ghost turns: seq<Turn>)
    modifies c
    ensures r == Err(UnknownStrategy) <==> exists name <- req.strategies :: name !in known
    ensures r == Err(UnknownStrategy) ==> turns == [] && c.installed == old(c.installed)
    ensures FollowsOrder(turns, FirstMentions(req.strategies))
    ensures forall i :: 0 <= i < |turns| - 1 ==> !turns[i].ending.Done? && !turns[i].canceled
    ensures r.Ok? <==> turns != [] && turns[|turns| - 1].ending.Done?
    ensures r.Err? && r.error.Exhausted? ==>
              (|turns| == |FirstMentions(req.strategies)| || (turns != [] && turns[|turns| - 1].canceled)) &&
              r.error.outcomes == Outcomes(turns)
    ensures forall k :: 0 <= k < |turns| && AllClean(req, turns[..k]) ==> Gone(turns[..k], turns[k].before)
  {
    turns := [];
    for i := 0 to |req.strategies|
      invariant forall j :: 0 <= j < i ==> req.strategies[j] in known
    {
      if req.strategies[i] !in known {
        return Err(UnknownStrategy), turns;
      }
    }
    var order := Dedup(req.strategies);
    var outcomes: seq<AttemptOutcome> := [];
    for i := 0 to |order|
      invariant |turns| == i && FollowsOrder(turns, order)
      invariant forall j :: 0 <= j < i ==> GoesOn(turns[j])
      invariant outcomes == Outcomes(turns)
      invariant AllClean(req, turns) ==> Gone(turns, c.installed)
      invariant forall k :: 0 <= k < i && AllClean(req, turns[..k]) ==> Gone(turns[..k], turns[k].before)
    {
      ghost var before, earlier := c.installed, turns;
      var ending;
      ghost var releases, clean;
      ending, releases, clean := RunAttempt(c, req);
      var canceled: bool := *;
      turns := turns + [Turn(order[i], before, releases, ending, clean, canceled)];
      TurnKeeps(req, earlier, turns[i], before, c.installed);
      if Failed(ending) {
        outcomes := outcomes + [AttemptOutcome(order[i], ending.Declined?)];
        if canceled {
          return Err(Exhausted(outcomes)), turns;
        }
        continue;
      }
      return Ok(()), turns;
    }
    return Err(Exhausted(outcomes)), turns;
  }

  lemma TurnKeeps(req: Request, earlier: seq<Turn>, turn: Turn, before: set<(Side, string)>, after: set<(Side, string)>)
    requires turn.before == before
    requires turn.uninstalled && CleansUp(req, turn.ending) ==> after == before - OnBothSides(turn.releases)
    requires AllClean(req, earlier) ==> Gone(earlier, before)
    requires forall k :: 0 <= k < |earlier| && AllClean(req, earlier[..k]) ==> Gone(earlier[..k], earlier[k].before)
    ensures Failed(turn.ending) && AllClean(req, earlier + [turn]) ==> Gone(earlier + [turn], after)
    ensures var turns := earlier + [turn];
            forall k :: 0 <= k < |turns| && AllClean(req, turns[..k]) ==> Gone(turns[..k], turns[k].before)
  {
    var turns := earlier + [turn];
    forall k | 0 <= k < |turns| && AllClean(req, turns[..k]) ensures Gone(turns[..k], turns[k].before) {
      assert turns[..k] == earlier[..k];
      assert earlier[..|earlier|] == earlier;
    }
    if Failed(turn.ending) && AllClean(req, turns) {
      assert turns[|earlier|] == turn && CleansUp(req, turn.ending);
      assert forall i :: 0 <= i < |earlier| ==> earlier[i] == turns[i];
      assert Gone(earlier, before) && after <= before;
      forall i | 0 <= i < |turns| ensures OnBothSides(turns[i].releases) !! after {
        assert i < |earlier| ==> OnBothSides(earlier[i].releases) !! before;
      }
    }
  }
}
