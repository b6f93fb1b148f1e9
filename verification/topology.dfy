/** Where a claim may be used, and where a pod with two of them may run
    (internal/pvc/info.go, internal/bucketstorage/archive.go and the clone's
    topology in internal/bucketstorage/snapshotsource.go). */
module Topology {
  import opened Outcome

  /** A constraint on nodes. None is no constraint at all; an empty list is one
      that nothing satisfies. */
  type Nodes = Option<seq<string>>

  predicate Permits(nodes: Nodes, node: string) { nodes.None? || node in nodes.value }

  // ---- the meet

  function Among(first: seq<string>, second: seq<string>): seq<string> {
    if second == [] then []
    else
      var front, last := second[..|second| - 1], second[|second| - 1];
      Among(first, front) + (if last in first then [last] else [])
  }

  function Intersect(first: Nodes, second: Nodes): Nodes {
    if first.None? then second else if second.None? then first else Some(Among(first.value, second.value))
  }

  method IntersectNodes(first: Nodes, second: Nodes) returns (both: Nodes)
    ensures both == Intersect(first, second)
  {
    if first.None? {
      return second;
    }
    if second.None? {
      return first;
    }
    var inFirst: set<string> := {};
    for i := 0 to |first.value|
      invariant forall name :: name in inFirst <==> name in first.value[..i]
    {
      assert first.value[..i + 1] == first.value[..i] + [first.value[i]];
      inFirst := inFirst + {first.value[i]};
    }
    assert first.value[..|first.value|] == first.value;
    var common: seq<string> := [];
    for i := 0 to |second.value|
      invariant common == Among(first.value, second.value[..i])
    {
      assert second.value[..i + 1][..i] == second.value[..i];
      if second.value[i] in inFirst {
        common := common + [second.value[i]];
      }
    }
    assert second.value[..|second.value|] == second.value;
    both := Some(common);
  }

  lemma {:induction false} AmongIsBoth(first: seq<string>, second: seq<string>, node: string)
    ensures node in Among(first, second) <==> node in first && node in second
  {
    if second != [] {
      var front, last := second[..|second| - 1], second[|second| - 1];
      assert second == front + [last];
      AmongIsBoth(first, front, node);
    }
  }

  /** A node is permitted by the intersection exactly if both permit it. */
  lemma IntersectPermits(first: Nodes, second: Nodes, node: string)
    ensures Permits(Intersect(first, second), node) <==> Permits(first, node) && Permits(second, node)
  {
    if first.Some? && second.Some? {
      AmongIsBoth(first.value, second.value, node);
    }
  }

  /** The order of constraints: every node the tighter one permits, the looser
      one does, and only no constraint is looser than no constraint. */
  ghost predicate Tighter(a: Nodes, b: Nodes) {
    (a.None? ==> b.None?) && forall node :: Permits(a, node) ==> Permits(b, node)
  }

  /** The intersection is the loosest constraint tighter than both. */
  lemma IntersectIsMeet(a: Nodes, b: Nodes, c: Nodes)
    ensures Tighter(Intersect(a, b), a) && Tighter(Intersect(a, b), b)
    ensures Tighter(c, a) && Tighter(c, b) ==> Tighter(c, Intersect(a, b))
  {
    forall node ensures Permits(Intersect(a, b), node) <==> Permits(a, node) && Permits(b, node) {
      IntersectPermits(a, b, node);
    }
  }

  // ---- affinities

  /** A node selector term: one field, and the values it may have. */
  datatype Term = Term(names: seq<string>)

  datatype Affinity = NoAffinity | Preferred(node: string) | Required(terms: seq<Term>)

  /** Terms are alternatives, and no term at all is none that fits. */
  predicate Satisfies(node: string, affinity: Affinity) {
    match affinity
    case Required(terms) => exists i :: 0 <= i < |terms| && node in terms[i].names
    case _ => true
  }

  /** The API takes one value in a term. */
  predicate WellFormed(affinity: Affinity) {
    affinity.Required? ==> forall i :: 0 <= i < |affinity.terms| ==> |affinity.terms[i].names| == 1
  }

  function TermsOf(nodes: seq<string>): seq<Term> {
    if nodes == [] then [] else TermsOf(nodes[..|nodes| - 1]) + [Term([nodes[|nodes| - 1]])]
  }

  function Require(nodes: Nodes): Affinity { if nodes.None? then NoAffinity else Required(TermsOf(nodes.value)) }

  method RequireNodes(nodes: Nodes) returns (affinity: Affinity)
    ensures affinity == Require(nodes)
  {
    if nodes.None? {
      return NoAffinity;
    }
    var terms: seq<Term> := [];
    for i := 0 to |nodes.value|
      invariant terms == TermsOf(nodes.value[..i])
    {
      assert nodes.value[..i + 1][..i] == nodes.value[..i];
      terms := terms + [Term([nodes.value[i]])];
    }
    assert nodes.value[..|nodes.value|] == nodes.value;
    affinity := Required(terms);
  }

  lemma {:induction false} TermsAreNodes(nodes: seq<string>)
    ensures |TermsOf(nodes)| == |nodes| && forall i :: 0 <= i < |nodes| ==> TermsOf(nodes)[i] == Term([nodes[i]])
  {
    if nodes != [] {
      TermsAreNodes(nodes[..|nodes| - 1]);
    }
  }

  /** A pod with this affinity runs exactly on the nodes permitted. */
  lemma RequirePermits(nodes: Nodes, node: string)
    ensures Satisfies(node, Require(nodes)) <==> Permits(nodes, node)
    ensures WellFormed(Require(nodes))
  {
    if nodes.Some? {
      TermsAreNodes(nodes.value);
      if node in nodes.value {
        var i :| 0 <= i < |nodes.value| && nodes.value[i] == node;
        assert node in TermsOf(nodes.value)[i].names;
      }
    }
  }

  // ---- claims

  /** What is known of a claim: where its volume may be used, that narrowed by
      where it is attached, and the affinity a pod with it gets. */
  datatype Info = Info(allowed: Nodes, pinned: Nodes, affinity: Affinity)

  function BuildAffinity(mountedNode: string, pinned: Nodes): Affinity {
    if pinned.Some? then Require(pinned) else if mountedNode == "" then NoAffinity else Preferred(mountedNode)
  }

  /** A claim's topology from its volume's, if there is one to read; a volume
      that no node of the cluster fits is refused. */
  function NewInfo(allowed: Nodes, mountedNode: string, attachedToOneNode: bool): Option<Info> {
    if allowed == Some([]) then None
    else
      var pinned := if mountedNode != "" && attachedToOneNode then Intersect(allowed, Some([mountedNode])) else allowed;
      Some(Info(allowed, pinned, BuildAffinity(mountedNode, pinned)))
  }

  /** A clone without a topology of its own gets the source volume's. */
  function InheritTopology(clone: Info, source: Info): Info {
    if clone.allowed.Some? || source.allowed.None? then clone
    else Info(source.allowed, source.allowed, Require(source.allowed))
  }

  /** The affinity says what the pinned nodes do. */
  ghost predicate Consistent(info: Info) {
    && (info.pinned.None? ==> !info.affinity.Required?)
    && (info.pinned.Some? ==> info.affinity == Require(info.pinned))
    && Tighter(info.pinned, info.allowed)
  }

  lemma InfoIsConsistent(allowed: Nodes, mountedNode: string, attachedToOneNode: bool)
    requires NewInfo(allowed, mountedNode, attachedToOneNode).Some?
    ensures Consistent(NewInfo(allowed, mountedNode, attachedToOneNode).value)
  {
    IntersectIsMeet(allowed, Some([mountedNode]), None);
  }

  /** A claim is refused exactly if its volume fits no node, and it is held to the
      node it is mounted on exactly if only one node can have it attached. */
  lemma InfoPinsItsNode(allowed: Nodes, mountedNode: string, attachedToOneNode: bool, node: string)
    ensures NewInfo(allowed, mountedNode, attachedToOneNode).None? <==> allowed == Some([])
    ensures allowed != Some([]) ==>
              var info := NewInfo(allowed, mountedNode, attachedToOneNode).value;
              && info.allowed == allowed
              && (Permits(info.pinned, node) <==>
                    Permits(allowed, node) && (attachedToOneNode && mountedNode != "" ==> node == mountedNode))
              && (info.affinity == NoAffinity <==> info.pinned.None? && mountedNode == "")
              && (info.pinned.None? && mountedNode != "" ==> info.affinity == Preferred(mountedNode))
  {
    IntersectPermits(allowed, Some([mountedNode]), node);
  }

  /** A clone stays within what its snapshot's volume permits unless it says
      otherwise itself, and a pod with it is held to that, but not to where the
      volume happens to be attached. */
  lemma CloneIsConsistent(clone: Info, source: Info, node: string)
    requires Consistent(clone) && Consistent(source)
    ensures var info := InheritTopology(clone, source);
            && Consistent(info)
            && (clone.allowed.None? ==> info.allowed == source.allowed && Tighter(info.pinned, source.allowed))
            && (clone.allowed.Some? || source.allowed.None? ==> info == clone)
            && (clone.allowed.None? && source.allowed.Some? ==>
                  (Satisfies(node, info.affinity) <==> node in source.allowed.value))
  {
    RequirePermits(source.allowed, node);
  }

  // ---- two claims in one pod

  function PlacementNodes(data: Info, archive: Info): Nodes { Intersect(data.pinned, archive.pinned) }

  predicate CheckSchedulable(data: Info, archive: Info) { PlacementNodes(data, archive) != Some([]) }

  function ArchiveAffinity(data: Info, archive: Info): Affinity {
    if PlacementNodes(data, archive).Some? then Require(PlacementNodes(data, archive))
    else if data.affinity != NoAffinity then data.affinity
    else archive.affinity
  }

  /** The check passes exactly if nothing constrains the pod or some node suits
      both claims. */
  lemma SchedulableMeansANode(data: Info, archive: Info)
    ensures CheckSchedulable(data, archive) <==>
            (data.pinned.None? && archive.pinned.None?) ||
            exists node :: Permits(data.pinned, node) && Permits(archive.pinned, node)
  {
    forall node
      ensures Permits(PlacementNodes(data, archive), node) <==>
                Permits(data.pinned, node) && Permits(archive.pinned, node)
    {
      IntersectPermits(data.pinned, archive.pinned, node);
    }
    var nodes := PlacementNodes(data, archive);
    if nodes.Some? && nodes.value != [] {
      assert Permits(nodes, nodes.value[0]);
    }
  }

  /** And then the pod may run on a node exactly if both claims permit it. */
  lemma AffinityIsBoth(data: Info, archive: Info, node: string)
    requires Consistent(data) && Consistent(archive)
    ensures Satisfies(node, ArchiveAffinity(data, archive)) <==>
            Permits(data.pinned, node) && Permits(archive.pinned, node)
    ensures data.pinned.None? && archive.pinned.None? ==>
              ArchiveAffinity(data, archive) == if data.affinity.Preferred? then data.affinity else archive.affinity
  {
    RequirePermits(PlacementNodes(data, archive), node);
    IntersectPermits(data.pinned, archive.pinned, node);
  }
}
