/**
 * The visibility rules of the graph view (src/components/GraphView/GraphView.tsx): which
 * blocks become nodes and which edges become flow edges under the store's visible-id
 * sets, and the ids the view hands to `updateVisibleNodes` depending on the selection.
 * The blocks and edges are the values of the store's maps, in insertion order.
 */
module GraphView {
  import opened Types
  import Seqs

  /** A React Flow node; its position and styling are not modelled. */
  datatype FlowNode = FlowNode(id: BlockId, data: Block, draggable: bool, selectable: bool)

  /** A React Flow edge; its styling is not modelled. */
  datatype FlowEdge = FlowEdge(id: EdgeId, source: BlockId, target: BlockId, animated: bool,
                               relationType: RelationType, labelText: Option<string>)

  // ---------------------------------------------------------------------------------
  // Nodes and flow edges
  // ---------------------------------------------------------------------------------

  /** `visibleBlockIds.size === 0 || visibleBlockIds.has(block.id)`. */
  function BlockShown(visible: set<BlockId>): Block -> bool {
    (b: Block) => visible == {} || b.id in visible
  }

  function ToNode(b: Block): FlowNode {
    FlowNode(b.id, b, b.immutability != Immutable, true)
  }

  /** convertBlocksToNodes. */
  function ConvertBlocksToNodes(blocks: seq<Block>, visible: set<BlockId>): (r: seq<FlowNode>) {
    var shown := Seqs.Filter(blocks, BlockShown(visible));
    seq(|shown|, i requires 0 <= i < |shown| => ToNode(shown[i]))
  }

  /**
   * With no visible ids every block becomes a node, in order; otherwise exactly the blocks
   * whose id is visible do. A node is draggable exactly when its block is not immutable.
   */
  lemma ConvertBlocksToNodesSpec(blocks: seq<Block>, visible: set<BlockId>)
    ensures var r := ConvertBlocksToNodes(blocks, visible);
            && (visible == {} ==> |r| == |blocks| && forall i :: 0 <= i < |r| ==> r[i].data == blocks[i])
            && (forall b :: b in blocks ==> (ToNode(b) in r <==> visible == {} || b.id in visible))
            && (forall n :: n in r ==> n.data in blocks && (visible == {} || n.id in visible))
            && (forall n :: n in r ==> (n.draggable <==> n.data.immutability != Immutable) && n.id == n.data.id)
  {
    var shown := Seqs.Filter(blocks, BlockShown(visible));
    var r := ConvertBlocksToNodes(blocks, visible);
    Seqs.FilterMembers(blocks, BlockShown(visible));
    if visible == {} {
      Seqs.FilterAll(blocks, BlockShown(visible));
    }
    forall b | b in blocks ensures ToNode(b) in r <==> visible == {} || b.id in visible {
      if b in shown {
        var k :| 0 <= k < |shown| && shown[k] == b;
        assert r[k] == ToNode(b);
      }
      if ToNode(b) in r {
        var k :| 0 <= k < |r| && r[k] == ToNode(b);
        assert shown[k] == b;
      }
    }
    forall n | n in r ensures n.data in blocks && (visible == {} || n.id in visible) {
      var k :| 0 <= k < |r| && r[k] == n;
      assert shown[k] in shown;
    }
  }

  /** `visibleEdgeIds.size === 0 || visibleEdgeIds.has(edge.id)`. */
  function EdgeShown(visible: set<EdgeId>): Edge -> bool {
    (e: Edge) => visible == {} || e.id in visible
  }

  function ToFlowEdge(e: Edge): FlowEdge {
    FlowEdge(e.id, e.fromBlockId, e.toBlockId, e.relationType == Semantic(DependsOn),
             e.relationType, e.labelText)
  }

  /** convertEdgesToFlowEdges. */
  function ConvertEdgesToFlowEdges(edges: seq<Edge>, visible: set<EdgeId>): (r: seq<FlowEdge>) {
    var shown := Seqs.Filter(edges, EdgeShown(visible));
    seq(|shown|, i requires 0 <= i < |shown| => ToFlowEdge(shown[i]))
  }

  /**
   * With no visible ids every edge is drawn, in order; otherwise exactly the edges whose id
   * is visible are. An edge is animated exactly when it is DEPENDS_ON.
   */
  lemma ConvertEdgesToFlowEdgesSpec(edges: seq<Edge>, visible: set<EdgeId>)
    ensures var r := ConvertEdgesToFlowEdges(edges, visible);
            && (visible == {} ==> |r| == |edges| && forall i :: 0 <= i < |r| ==> r[i].id == edges[i].id)
            && (forall e :: e in edges && (visible == {} || e.id in visible) ==> ToFlowEdge(e) in r)
            && (forall f :: f in r ==> f.id in visible || visible == {})
            && (forall f :: f in r ==> exists e :: e in edges && f == ToFlowEdge(e))
            && (forall f :: f in r ==> (f.animated <==> f.relationType == Semantic(DependsOn)))
  {
    var shown := Seqs.Filter(edges, EdgeShown(visible));
    var r := ConvertEdgesToFlowEdges(edges, visible);
    Seqs.FilterMembers(edges, EdgeShown(visible));
    if visible == {} {
      Seqs.FilterAll(edges, EdgeShown(visible));
    }
    forall e | e in edges && (visible == {} || e.id in visible) ensures ToFlowEdge(e) in r {
      var k :| 0 <= k < |shown| && shown[k] == e;
      assert r[k] == ToFlowEdge(e);
    }
    forall f | f in r ensures exists e :: e in edges && f == ToFlowEdge(e) && (visible == {} || e.id in visible) {
      var k :| 0 <= k < |r| && r[k] == f;
      assert shown[k] in shown;
    }
  }

  // ---------------------------------------------------------------------------------
  // Smart visibility
  // ---------------------------------------------------------------------------------

  function Touches(selected: BlockId): Edge -> bool {
    (e: Edge) => e.fromBlockId == selected || e.toBlockId == selected
  }

  function IsStructuralEdge(e: Edge): bool {
    e.relationType.Structural?
  }

  function IdOfBlock(b: Block): BlockId { b.id }

  function IdOfEdge(e: Edge): EdgeId { e.id }

  /** `items.map(x => x.id)`: one id per item, in order. */
  function Ids<T>(s: seq<T>, id: T -> string): (r: seq<string>)
    ensures |r| == |s| && forall i :: 0 <= i < |s| ==> r[i] == id(s[i])
  {
    seq(|s|, i requires 0 <= i < |s| => id(s[i]))
  }

  /** The ids added to `connectedBlockIds`, in order: from, then to, for each edge. */
  function Endpoints(es: seq<Edge>): (r: seq<BlockId>)
    ensures |r| == 2 * |es|
  {
    if es == [] then [] else Endpoints(es[..|es| - 1]) + [es[|es| - 1].fromBlockId, es[|es| - 1].toBlockId]
  }

  lemma {:induction false} EndpointsMembers(es: seq<Edge>)
    ensures forall x :: x in Endpoints(es) <==> exists e :: e in es && (x == e.fromBlockId || x == e.toBlockId)
  {
    if es != [] {
      var n := |es| - 1;
      EndpointsMembers(es[..n]);
      assert forall e :: e in es <==> e in es[..n] || e == es[n];
    }
  }

  /**
   * The smart-visibility effect: the block ids and edge ids passed to updateVisibleNodes.
   * With a selected block, the edges touching it and their endpoints (each once, in the
   * order a Set keeps); with none, every block and the structural edges.
   */
  function SmartVisibility(selected: Option<BlockId>, blocks: seq<Block>, edges: seq<Edge>)
    : (seq<BlockId>, seq<EdgeId>)
  {
    if selected.Some? && selected.value != "" then
      var connected := Seqs.Filter(edges, Touches(selected.value));
      (Seqs.Dedup(Endpoints(connected)), Ids(connected, IdOfEdge))
    else
      (Ids(blocks, IdOfBlock), Ids(Seqs.Filter(edges, IsStructuralEdge), IdOfEdge))
  }

  /**
   * With a selected block the visible edges are exactly those touching it and the visible
   * blocks exactly their endpoints, without repetition; with none, every block is visible
   * and the visible edges are exactly the structural ones.
   */
  lemma SmartVisibilitySpec(selected: Option<BlockId>, blocks: seq<Block>, edges: seq<Edge>)
    ensures var (blockIds, edgeIds) := SmartVisibility(selected, blocks, edges);
            if selected.Some? && selected.value != "" then
              var s := selected.value;
              && Seqs.NoDuplicates(blockIds)
              && (forall x :: x in blockIds <==>
                    exists e :: e in edges && (e.fromBlockId == s || e.toBlockId == s)
                                && (x == e.fromBlockId || x == e.toBlockId))
              && (forall e :: e in edges && (e.fromBlockId == s || e.toBlockId == s) ==> e.id in edgeIds)
              && (forall id :: id in edgeIds ==>
                    exists e :: e in edges && e.id == id && (e.fromBlockId == s || e.toBlockId == s))
            else
              && |blockIds| == |blocks| && (forall i :: 0 <= i < |blocks| ==> blockIds[i] == blocks[i].id)
              && (forall e :: e in edges && e.relationType.Structural? ==> e.id in edgeIds)
              && (forall id :: id in edgeIds ==> exists e :: e in edges && e.id == id && e.relationType.Structural?)
  {
    if selected.Some? && selected.value != "" {
      var connected := Seqs.Filter(edges, Touches(selected.value));
      Seqs.FilterMembers(edges, Touches(selected.value));
      EndpointsMembers(connected);
      IdsMembers(connected, IdOfEdge);
    } else {
      Seqs.FilterMembers(edges, IsStructuralEdge);
      IdsMembers(Seqs.Filter(edges, IsStructuralEdge), IdOfEdge);
    }
  }

  /** The mapped ids are exactly the ids of the items. */
  lemma IdsMembers<T>(s: seq<T>, id: T -> string)
    ensures forall x :: x in s ==> id(x) in Ids(s, id)
    ensures forall k :: k in Ids(s, id) ==> exists x :: x in s && id(x) == k
  {
    forall x | x in s ensures id(x) in Ids(s, id) {
      var j :| 0 <= j < |s| && s[j] == x;
      assert Ids(s, id)[j] == id(x);
    }
    forall k | k in Ids(s, id) ensures exists x :: x in s && id(x) == k {
      var j :| 0 <= j < |s| && Ids(s, id)[j] == k;
      assert s[j] in s;
    }
  }

  /** The nodes and flow edges the view draws after its smart-visibility effect ran. */
  function Drawn(selected: Option<BlockId>, blocks: seq<Block>, edges: seq<Edge>)
    : (seq<FlowNode>, seq<FlowEdge>)
  {
    var (blockIds, edgeIds) := SmartVisibility(selected, blocks, edges);
    (ConvertBlocksToNodes(blocks, set x | x in blockIds),
     ConvertEdgesToFlowEdges(edges, set x | x in edgeIds))
  }

  /**
   * Selecting a block that no edge touches empties both visible sets, which the filters
   * read as "show everything": every block and every edge is drawn.
   */
  lemma IsolatedSelectionShowsAll(selected: BlockId, blocks: seq<Block>, edges: seq<Edge>)
    requires selected != ""
    requires forall e :: e in edges ==> e.fromBlockId != selected && e.toBlockId != selected
    ensures |Drawn(Some(selected), blocks, edges).0| == |blocks|
    ensures |Drawn(Some(selected), blocks, edges).1| == |edges|
  {
    Seqs.FilterNone(edges, Touches(selected));
    assert Endpoints([]) == [];
    assert Seqs.Dedup(Endpoints([])) == [];
    ConvertBlocksToNodesSpec(blocks, {});
    ConvertEdgesToFlowEdgesSpec(edges, {});
  }
}
