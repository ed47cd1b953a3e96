/**
 * Queries over an edge map, which both the compositor and the block store iterate in
 * insertion order (`Array.from(edges.values())`).
 */
module EdgeQueries {
  import opened Types

  predicate EdgeInto(e: Edge, id: BlockId, structuralOnly: bool) {
    e.toBlockId == id && (!structuralOnly || IsParentLink(e.relationType))
  }

  /**
   * The first edge, in map order, whose target is id (`Array.from(edges.values()).find`);
   * with structuralOnly, the first PARENT_OF or CONTAINS_ORDERED edge into id.
   */
  function FirstEdgeInto(es: seq<Edge>, id: BlockId, structuralOnly: bool): Option<Edge> {
    if es == [] then None
    else if EdgeInto(es[0], id, structuralOnly) then Some(es[0])
    else FirstEdgeInto(es[1..], id, structuralOnly)
  }

  /** FirstEdgeInto finds nothing exactly when no edge matches, and otherwise the first match. */
  lemma {:induction false} FirstEdgeIntoFinds(es: seq<Edge>, id: BlockId, structuralOnly: bool)
    ensures var r := FirstEdgeInto(es, id, structuralOnly);
      (r.None? <==> forall e :: e in es ==> !EdgeInto(e, id, structuralOnly))
      && (r.Some? ==> exists i :: 0 <= i < |es| && es[i] == r.value && EdgeInto(es[i], id, structuralOnly)
                                  && forall j :: 0 <= j < i ==> !EdgeInto(es[j], id, structuralOnly))
  {
    if es != [] && !EdgeInto(es[0], id, structuralOnly) {
      FirstEdgeIntoFinds(es[1..], id, structuralOnly);
      assert forall e :: e in es ==> e == es[0] || e in es[1..];
      var r := FirstEdgeInto(es[1..], id, structuralOnly);
      if r.Some? {
        var i :| 0 <= i < |es[1..]| && es[1..][i] == r.value && EdgeInto(es[1..][i], id, structuralOnly)
                 && forall j :: 0 <= j < i ==> !EdgeInto(es[1..][j], id, structuralOnly);
        assert es[i + 1] == r.value;
        forall j | 0 <= j < i + 1 ensures !EdgeInto(es[j], id, structuralOnly) {
          if j > 0 { assert es[j] == es[1..][j - 1]; }
        }
      }
    }
  }

  /**
   * The sort key both `compareBlockOrder` and `getChildren` use: the order of the first edge
   * of es into the block (`edge?.order || 0`), or 0 when there is none.
   */
  function OrderKey(es: seq<Edge>, id: BlockId): int {
    match FirstEdgeInto(es, id, false)
    case None => 0
    case Some(e) => OrderOrZero(e.order)
  }

  function KeyFor(es: seq<Edge>): Block -> int {
    (x: Block) => OrderKey(es, x.id)
  }

  /**
   * The structural parent of a block (`getParent`, and the step of `getBlockDepth`): the
   * source of the first PARENT_OF or CONTAINS_ORDERED edge into id, when that block exists.
   */
  function ParentIn(blocks: map<BlockId, Block>, es: seq<Edge>, id: BlockId): Option<Block> {
    match FirstEdgeInto(es, id, true)
    case None => None
    case Some(e) => if e.fromBlockId in blocks then Some(blocks[e.fromBlockId]) else None
  }
}
