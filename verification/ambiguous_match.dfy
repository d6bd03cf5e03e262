/** `AmbiguousMatchDetector.findFeatures`: a match node of the distance
    graph that is matched to several templates is an ambiguous match, unless
    one of its template edges leads to the same location. */
module AmbiguousMatchDetector {

  /** An edge from a match node to a template node; its geometry lives in
      the distance graph and is not part of this model. */
  datatype Edge = Edge(templateNode: nat)

  datatype MatchNode = MatchNode(id: nat, edgesToTemplateNode: seq<Edge>)

  datatype AmbiguousMatchError = AmbiguousMatchError(matchNode: MatchNode)

  /** The test of one node, with `hasEdgeToSameLocation` given as a
      parameter. */
  predicate IsAmbiguous(hasEdgeToSameLocation: (seq<Edge>, MatchNode) -> bool, node: MatchNode) {
    |node.edgesToTemplateNode| > 1 && !hasEdgeToSameLocation(node.edgesToTemplateNode, node)
  }

  /** The errors reported for `nodes`, in node order. */
  function Errors(hasEdgeToSameLocation: (seq<Edge>, MatchNode) -> bool, nodes: seq<MatchNode>): (errors: seq<AmbiguousMatchError>)
    ensures |errors| <= |nodes|
    ensures forall e :: e in errors ==> e.matchNode in nodes && IsAmbiguous(hasEdgeToSameLocation, e.matchNode)
  {
    if |nodes| == 0 then []
    else
      var init := Errors(hasEdgeToSameLocation, nodes[..|nodes| - 1]);
      var last := nodes[|nodes| - 1];
      if IsAmbiguous(hasEdgeToSameLocation, last) then init + [AmbiguousMatchError(last)] else init
  }

  /** `findFeatures`: one pass over the match nodes. */
  method FindFeatures(hasEdgeToSameLocation: (seq<Edge>, MatchNode) -> bool, matchNodes: seq<MatchNode>)
    returns (errors: seq<AmbiguousMatchError>)
    ensures errors == Errors(hasEdgeToSameLocation, matchNodes)
  {
    errors := [];
    var i := 0;
    while i < |matchNodes|
      invariant 0 <= i <= |matchNodes|
      invariant errors == Errors(hasEdgeToSameLocation, matchNodes[..i])
    {
      var matchNode := matchNodes[i];
      var edgesToTemplateNode := matchNode.edgesToTemplateNode;
      if |edgesToTemplateNode| > 1 {
        if !hasEdgeToSameLocation(edgesToTemplateNode, matchNode) {
          errors := errors + [AmbiguousMatchError(matchNode)];
        }
      }
      assert matchNodes[..i + 1][..i] == matchNodes[..i];
      i := i + 1;
    }
    assert matchNodes[..i] == matchNodes;
  }

  /** The positions of the reported nodes: strictly increasing, and a
      position is listed iff its node is ambiguous. */
  function ReportedPositions(hasEdgeToSameLocation: (seq<Edge>, MatchNode) -> bool, nodes: seq<MatchNode>): (positions: seq<nat>)
    ensures forall k :: 0 <= k < |positions| ==> positions[k] < |nodes|
    ensures forall k, l :: 0 <= k < l < |positions| ==> positions[k] < positions[l]
    ensures forall i :: 0 <= i < |nodes| ==> (i in positions <==> IsAmbiguous(hasEdgeToSameLocation, nodes[i]))
  {
    if |nodes| == 0 then []
    else
      var init := nodes[..|nodes| - 1];
      var positions := ReportedPositions(hasEdgeToSameLocation, init);
      assert forall i :: 0 <= i < |init| ==> init[i] == nodes[i];
      if IsAmbiguous(hasEdgeToSameLocation, nodes[|nodes| - 1]) then positions + [|nodes| - 1] else positions
  }

  /** The k-th error belongs to the node at the k-th position. */
  predicate Paired(errors: seq<AmbiguousMatchError>, positions: seq<nat>, nodes: seq<MatchNode>) {
    |errors| == |positions|
    && forall k :: 0 <= k < |errors| ==> positions[k] < |nodes| && errors[k] == AmbiguousMatchError(nodes[positions[k]])
  }

  /** The errors are exactly the ambiguous nodes, each once and in node
      order: the k-th error belongs to the node at the k-th reported
      position. */
  lemma {:induction false} ErrorsAreOrderedFilter(hasEdgeToSameLocation: (seq<Edge>, MatchNode) -> bool, nodes: seq<MatchNode>)
    ensures Paired(Errors(hasEdgeToSameLocation, nodes), ReportedPositions(hasEdgeToSameLocation, nodes), nodes)
  {
    if |nodes| > 0 {
      var f := hasEdgeToSameLocation;
      var init := nodes[..|nodes| - 1];
      var last := nodes[|nodes| - 1];
      ErrorsAreOrderedFilter(f, init);
      var errors, positions := Errors(f, init), ReportedPositions(f, init);
      PairedExtend(errors, positions, nodes);
      if IsAmbiguous(f, last) {
        assert Errors(f, nodes) == errors + [AmbiguousMatchError(last)];
        assert ReportedPositions(f, nodes) == positions + [|nodes| - 1];
      } else {
        assert Errors(f, nodes) == errors && ReportedPositions(f, nodes) == positions;
      }
    }
  }

  /** A pairing with the nodes but the last holds for all the nodes, and
      extends by the last node at the last position. */
  lemma PairedExtend(errors: seq<AmbiguousMatchError>, positions: seq<nat>, nodes: seq<MatchNode>)
    requires |nodes| > 0 && Paired(errors, positions, nodes[..|nodes| - 1])
    ensures Paired(errors, positions, nodes)
    ensures Paired(errors + [AmbiguousMatchError(nodes[|nodes| - 1])], positions + [|nodes| - 1], nodes)
  {
    var init := nodes[..|nodes| - 1];
    forall k | 0 <= k < |errors| ensures positions[k] < |nodes| && errors[k] == AmbiguousMatchError(nodes[positions[k]]) {
      assert init[positions[k]] == nodes[positions[k]];
    }
  }
}
