/**
 * The document compositor (src/lib/compositor/index.ts): a depth-first walk from a root
 * block over the typed edges, guarded by a visited set, a depth bound and a tag filter,
 * with optional ordering of children by `Edge.order` and optional inclusion of siblings.
 * The walk builds the list of assembled blocks and, inline, a table of contents of the
 * structural parents; a markdown text, a JSON record and a word count are projected from it.
 *
 * The walk is specified by the mutually recursive functions Traverse / TraverseAll over a
 * Walk value; the class DocumentCompositor performs it in place and is proved against them.
 */
module Compositor {
  import opened Types
  import opened EdgeQueries
  import Text
  import Sorting

  /** The block map and the edge map, in the insertion order in which the source iterates it. */
  datatype Graph = Graph(blocks: map<BlockId, Block>, edges: seq<Edge>)

  datatype Strategy = DepthFirst | BreadthFirst

  datatype Profile = Profile(
    name: string,
    strategy: Strategy,
    followRelations: seq<RelationType>,
    maxDepth: int,
    includeSiblings: bool,
    respectOrder: bool)

  datatype Format = Markdown | Html | Pdf | Json

  datatype Config = Config(
    rootBlockId: BlockId,
    profile: Profile,
    format: Format,
    includeMetadata: bool,
    includeToc: bool,
    maxDepth: Option<int>,
    relationWhitelist: Option<seq<RelationType>>,
    tagFilter: Option<seq<TagId>>)

  datatype TocEntry = TocEntry(id: string, title: string, level: nat, blockId: BlockId)

  datatype Metadata = Metadata(blockCount: nat, wordCount: nat, traversalDepth: nat, assemblyTime: int)

  datatype CompositorResult = CompositorResult(
    content: string,
    blocks: seq<Block>,
    toc: seq<TocEntry>,
    metadata: Metadata)

  /** One element of the `blocks` array of the JSON output. */
  datatype JsonBlock = JsonBlock(
    id: BlockId,
    title: string,
    blockType: BlockType,
    content: string,
    tags: seq<TagId>,
    metadata: map<string, FieldValue>)

  /** The object the JSON output serialises. */
  datatype JsonDoc = JsonDoc(blocks: seq<JsonBlock>, toc: seq<TocEntry>, blockCount: nat, assemblyTime: int)

  /**
   * What the compositor takes from its surroundings: the current time as an ISO string,
   * the clock readings taken when the JSON is generated and when assembly ends, the HTML
   * rendering of a markdown text under a page title, and the JSON serialiser.
   */
  datatype Env = Env(
    now: string,
    jsonElapsed: int,
    elapsed: int,
    renderHtml: (string, string) -> string,
    serialize: JsonDoc -> string)

  // ---------------------------------------------------------------------------------------
  // Depth bound and tag filter
  // ---------------------------------------------------------------------------------------

  datatype Bound = Finite(n: int) | Infinite

  predicate Below(d: nat, bound: Bound) {
    bound.Infinite? || d < bound.n
  }

  /** `config.maxDepth || Infinity`: a missing or zero bound means no bound at all. */
  function EffectiveBound(maxDepth: Option<int>): (r: Bound)
    ensures r.Infinite? <==> (maxDepth.None? || maxDepth.value == 0)
    ensures r.Finite? ==> maxDepth == Some(r.n)
  {
    match maxDepth
    case None => Infinite
    case Some(n) => if n == 0 then Infinite else Finite(n)
  }

  /** `tagFilter.some(tag => block.tags.includes(tag))`. */
  predicate HasAnyTag(b: Block, tags: seq<TagId>) {
    exists t :: t in tags && t in b.tags
  }

  /** A block passes a missing or empty filter, and otherwise must carry one of its tags. */
  predicate PassesFilter(b: Block, filter: Option<seq<TagId>>) {
    filter.None? || |filter.value| == 0 || HasAnyTag(b, filter.value)
  }

  // ---------------------------------------------------------------------------------------
  // Queries over the edge map
  // ---------------------------------------------------------------------------------------

  /** `isStructuralParent`: the block has an outgoing PARENT_OF or CONTAINS_ORDERED edge. */
  predicate IsStructuralParent(es: seq<Edge>, id: BlockId) {
    exists e :: e in es && e.fromBlockId == id && IsParentLink(e.relationType)
  }

  /**
   * `getRelatedBlocks` over the edges es: for each edge from id whose relation is followed
   * and whose target exists, the target block, in edge order.
   */
  function RelatedIn(g: Graph, id: BlockId, rels: seq<RelationType>, es: seq<Edge>): (r: seq<Block>)
    ensures forall x :: x in r ==> x in g.blocks.Values
  {
    if es == [] then []
    else
      var e := es[|es| - 1];
      RelatedIn(g, id, rels, es[..|es| - 1])
        + (if e.fromBlockId == id && e.relationType in rels && e.toBlockId in g.blocks
           then [g.blocks[e.toBlockId]] else [])
  }

  /** The children visited after a block: its related blocks, stably sorted by OrderKey on request. */
  function OrderedRelated(g: Graph, b: Block, p: Profile): (r: seq<Block>)
    ensures forall x :: x in r ==> x in g.blocks.Values
  {
    var rel := RelatedIn(g, b.id, p.followRelations, g.edges);
    if p.respectOrder then
      Sorting.SortBySortedPermutation(rel, KeyFor(g.edges));
      assert forall x :: x in Sorting.SortBy(rel, KeyFor(g.edges)) ==> x in multiset(rel);
      Sorting.SortBy(rel, KeyFor(g.edges))
    else rel
  }

  /**
   * The loop of `getSiblings` over the edges es: the existing targets, other than selfId,
   * of the structural edges leaving parentId.
   */
  function SiblingsIn(g: Graph, parentId: BlockId, selfId: BlockId, es: seq<Edge>): (r: seq<Block>)
    ensures forall x :: x in r ==> x in g.blocks.Values
  {
    if es == [] then []
    else
      var e := es[|es| - 1];
      SiblingsIn(g, parentId, selfId, es[..|es| - 1])
        + (if e.fromBlockId == parentId && e.toBlockId != selfId && IsParentLink(e.relationType)
              && e.toBlockId in g.blocks
           then [g.blocks[e.toBlockId]] else [])
  }

  /** `getSiblings`: none without a structural parent edge, else the other children of its source. */
  function Siblings(g: Graph, b: Block): (r: seq<Block>)
    ensures forall x :: x in r ==> x in g.blocks.Values
  {
    match FirstEdgeInto(g.edges, b.id, true)
    case None => []
    case Some(pe) => SiblingsIn(g, pe.fromBlockId, b.id, g.edges)
  }

  // ---------------------------------------------------------------------------------------
  // The walk
  // ---------------------------------------------------------------------------------------

  /** The state of a walk: the visited ids, the assembled blocks and the depth of each visit. */
  datatype Walk = Walk(visited: set<BlockId>, blocks: seq<Block>, depths: seq<nat>)

  const EmptyWalk := Walk({}, [], [])

  ghost function AllIds(g: Graph): set<BlockId> {
    set b | b in g.blocks.Values :: b.id
  }

  function Visit(w: Walk, b: Block, d: nat): Walk {
    Walk(w.visited + {b.id}, w.blocks + [b], w.depths + [d])
  }

  /** `traverseBlock(b, profile, filter, d, bound)` applied to the walk w. */
  ghost function Traverse(g: Graph, p: Profile, f: Option<seq<TagId>>, bound: Bound, b: Block, d: nat, w: Walk)
    : (r: Walk)
    requires b in g.blocks.Values
    ensures w.visited <= r.visited && r.visited - w.visited <= AllIds(g)
    decreases AllIds(g) - w.visited, 0
  {
    if b.id in w.visited || !Below(d, bound) || !PassesFilter(b, f) then w
    else
      var w1 := Visit(w, b, d);
      var w2 := TraverseAll(g, p, f, bound, OrderedRelated(g, b, p), d + 1, w1);
      if p.includeSiblings && d > 0 then TraverseAll(g, p, f, bound, Siblings(g, b), d, w2)
      else w2
  }

  /** Traverse applied to each block of bs in turn, all at depth d. */
  ghost function TraverseAll(g: Graph, p: Profile, f: Option<seq<TagId>>, bound: Bound, bs: seq<Block>, d: nat, w: Walk)
    : (r: Walk)
    requires forall x :: x in bs ==> x in g.blocks.Values
    ensures w.visited <= r.visited && r.visited - w.visited <= AllIds(g)
    decreases AllIds(g) - w.visited, |bs|
  {
    if bs == [] then w
    else
      var w1 := Traverse(g, p, f, bound, bs[0], d, w);
      TraverseAll(g, p, f, bound, bs[1..], d, w1)
  }

  // ---------------------------------------------------------------------------------------
  // Table of contents
  // ---------------------------------------------------------------------------------------

  function TocEntryFor(b: Block, d: nat): TocEntry {
    TocEntry("block-" + b.id, b.title, d, b.id)
  }

  /** The entries pushed during a walk that visited bs at depths ds. */
  function TocOf(es: seq<Edge>, bs: seq<Block>, ds: seq<nat>): seq<TocEntry>
    requires |bs| == |ds|
  {
    if bs == [] then []
    else
      var n := |bs| - 1;
      TocOf(es, bs[..n], ds[..n]) + (if IsStructuralParent(es, bs[n].id) then [TocEntryFor(bs[n], ds[n])] else [])
  }

  /** The number of structural parents among bs. */
  function ParentCount(es: seq<Edge>, bs: seq<Block>): nat {
    if bs == [] then 0
    else ParentCount(es, bs[..|bs| - 1]) + (if IsStructuralParent(es, bs[|bs| - 1].id) then 1 else 0)
  }

  /**
   * The table of contents has one entry per visited structural parent: its length is the
   * number of structural parents visited, and its entries are exactly the entries of
   * those visits (id "block-" + block id, the block's title, the depth of the visit).
   */
  lemma {:induction false} TocExact(es: seq<Edge>, bs: seq<Block>, ds: seq<nat>)
    requires |bs| == |ds|
    ensures |TocOf(es, bs, ds)| == ParentCount(es, bs)
    ensures forall e :: e in TocOf(es, bs, ds) <==> TocHas(es, bs, ds, e)
  {
    if bs != [] {
      var n := |bs| - 1;
      var prev := TocOf(es, bs[..n], ds[..n]);
      var last := if IsStructuralParent(es, bs[n].id) then [TocEntryFor(bs[n], ds[n])] else [];
      assert TocOf(es, bs, ds) == prev + last;
      TocExact(es, bs[..n], ds[..n]);
      forall e ensures e in prev + last <==> TocHas(es, bs, ds, e) {
        TocHasSnoc(es, bs, ds, e);
      }
    }
  }

  /** The TOC entry `e` is the entry of some visited structural parent. */
  ghost predicate TocHas(es: seq<Edge>, bs: seq<Block>, ds: seq<nat>, e: TocEntry)
    requires |bs| == |ds|
  {
    exists i :: 0 <= i < |bs| && IsStructuralParent(es, bs[i].id) && e == TocEntryFor(bs[i], ds[i])
  }

  lemma TocHasSnoc(es: seq<Edge>, bs: seq<Block>, ds: seq<nat>, e: TocEntry)
    requires |bs| == |ds| && bs != []
    ensures var n := |bs| - 1;
      TocHas(es, bs, ds, e) <==>
      TocHas(es, bs[..n], ds[..n], e) || (IsStructuralParent(es, bs[n].id) && e == TocEntryFor(bs[n], ds[n]))
  {
    var n := |bs| - 1;
    if TocHas(es, bs[..n], ds[..n], e) {
      var i :| 0 <= i < n && IsStructuralParent(es, bs[..n][i].id) && e == TocEntryFor(bs[..n][i], ds[..n][i]);
      assert bs[..n][i] == bs[i] && ds[..n][i] == ds[i];
    }
    if TocHas(es, bs, ds, e) {
      var i :| 0 <= i < |bs| && IsStructuralParent(es, bs[i].id) && e == TocEntryFor(bs[i], ds[i]);
      if i < n {
        assert bs[..n][i] == bs[i] && ds[..n][i] == ds[i];
      }
    }
  }

  // ---------------------------------------------------------------------------------------
  // Properties of the walk
  // ---------------------------------------------------------------------------------------

  /**
   * The invariant of every walk that starts empty: the visited ids are exactly the ids of
   * the assembled blocks, no id is assembled twice, and every assembled block exists,
   * passes the tag filter and was reached at a depth below the bound.
   */
  ghost predicate WalkOk(g: Graph, f: Option<seq<TagId>>, bound: Bound, w: Walk) {
    |w.depths| == |w.blocks|
    && w.visited == (set i | 0 <= i < |w.blocks| :: w.blocks[i].id)
    && (forall i, j :: 0 <= i < j < |w.blocks| ==> w.blocks[i].id != w.blocks[j].id)
    && (forall i :: 0 <= i < |w.blocks| ==>
          w.blocks[i] in g.blocks.Values && PassesFilter(w.blocks[i], f) && Below(w.depths[i], bound))
  }

  lemma VisitOk(g: Graph, f: Option<seq<TagId>>, bound: Bound, w: Walk, b: Block, d: nat)
    requires WalkOk(g, f, bound, w)
    requires b.id !in w.visited && b in g.blocks.Values && PassesFilter(b, f) && Below(d, bound)
    ensures WalkOk(g, f, bound, Visit(w, b, d))
  {
    var w1 := Visit(w, b, d);
    assert w1.blocks[|w.blocks|] == b;
    assert w1.visited == (set i | 0 <= i < |w1.blocks| :: w1.blocks[i].id) by {
      forall x | x in w1.visited ensures x in (set i | 0 <= i < |w1.blocks| :: w1.blocks[i].id) {
        if x != b.id {
          var i :| 0 <= i < |w.blocks| && w.blocks[i].id == x;
          assert w1.blocks[i] == w.blocks[i];
        }
      }
    }
  }

  /** A walk step keeps WalkOk and only appends to the assembled blocks and their depths. */
  lemma {:induction false} TraverseOk(g: Graph, p: Profile, f: Option<seq<TagId>>, bound: Bound, b: Block, d: nat, w: Walk)
    requires b in g.blocks.Values && WalkOk(g, f, bound, w)
    ensures var r := Traverse(g, p, f, bound, b, d, w);
      WalkOk(g, f, bound, r) && w.blocks <= r.blocks && w.depths <= r.depths
    decreases AllIds(g) - w.visited, 0
  {
    if !(b.id in w.visited || !Below(d, bound) || !PassesFilter(b, f)) {
      var w1 := Visit(w, b, d);
      VisitOk(g, f, bound, w, b, d);
      assert w.blocks <= w1.blocks && w.depths <= w1.depths;
      TraverseAllOk(g, p, f, bound, OrderedRelated(g, b, p), d + 1, w1);
      var w2 := TraverseAll(g, p, f, bound, OrderedRelated(g, b, p), d + 1, w1);
      PrefixTrans(w.blocks, w1.blocks, w2.blocks);
      PrefixTrans(w.depths, w1.depths, w2.depths);
      if p.includeSiblings && d > 0 {
        TraverseAllOk(g, p, f, bound, Siblings(g, b), d, w2);
        var w3 := TraverseAll(g, p, f, bound, Siblings(g, b), d, w2);
        PrefixTrans(w.blocks, w2.blocks, w3.blocks);
        PrefixTrans(w.depths, w2.depths, w3.depths);
        assert Traverse(g, p, f, bound, b, d, w) == w3;
      } else {
        assert Traverse(g, p, f, bound, b, d, w) == w2;
      }
    }
  }

  lemma PrefixTrans<T>(a: seq<T>, b: seq<T>, c: seq<T>)
    requires a <= b && b <= c
    ensures a <= c
  {
    assert b[..|a|] == a && c[..|b|] == b;
    assert c[..|a|] == b[..|a|];
  }

  lemma {:induction false} TraverseAllOk(g: Graph, p: Profile, f: Option<seq<TagId>>, bound: Bound, bs: seq<Block>, d: nat, w: Walk)
    requires (forall x :: x in bs ==> x in g.blocks.Values) && WalkOk(g, f, bound, w)
    ensures var r := TraverseAll(g, p, f, bound, bs, d, w);
      WalkOk(g, f, bound, r) && w.blocks <= r.blocks && w.depths <= r.depths
    decreases AllIds(g) - w.visited, |bs|
  {
    if bs != [] {
      TraverseOk(g, p, f, bound, bs[0], d, w);
      var w1 := Traverse(g, p, f, bound, bs[0], d, w);
      TraverseAllOk(g, p, f, bound, bs[1..], d, w1);
      var w2 := TraverseAll(g, p, f, bound, bs[1..], d, w1);
      PrefixTrans(w.blocks, w1.blocks, w2.blocks);
      PrefixTrans(w.depths, w1.depths, w2.depths);
    }
  }

  /** Profiles that agree on the relations followed, siblings and ordering. */
  predicate SameWalkSettings(p: Profile, q: Profile) {
    p.followRelations == q.followRelations && p.includeSiblings == q.includeSiblings
    && p.respectOrder == q.respectOrder
  }

  /**
   * The walk reads neither the profile's strategy (both branches of the source recurse
   * depth-first) nor the profile's own maxDepth.
   */
  lemma {:induction false} TraverseIgnoresStrategy(g: Graph, p: Profile, q: Profile, f: Option<seq<TagId>>, bound: Bound, b: Block, d: nat, w: Walk)
    requires b in g.blocks.Values && SameWalkSettings(p, q)
    ensures Traverse(g, p, f, bound, b, d, w) == Traverse(g, q, f, bound, b, d, w)
    decreases AllIds(g) - w.visited, 0
  {
    if !(b.id in w.visited || !Below(d, bound) || !PassesFilter(b, f)) {
      var w1 := Visit(w, b, d);
      assert OrderedRelated(g, b, p) == OrderedRelated(g, b, q);
      TraverseAllIgnoresStrategy(g, p, q, f, bound, OrderedRelated(g, b, p), d + 1, w1);
      var w2 := TraverseAll(g, p, f, bound, OrderedRelated(g, b, p), d + 1, w1);
      if p.includeSiblings && d > 0 {
        TraverseAllIgnoresStrategy(g, p, q, f, bound, Siblings(g, b), d, w2);
      }
    }
  }

  lemma {:induction false} TraverseAllIgnoresStrategy(g: Graph, p: Profile, q: Profile, f: Option<seq<TagId>>, bound: Bound, bs: seq<Block>, d: nat, w: Walk)
    requires (forall x :: x in bs ==> x in g.blocks.Values) && SameWalkSettings(p, q)
    ensures TraverseAll(g, p, f, bound, bs, d, w) == TraverseAll(g, q, f, bound, bs, d, w)
    decreases AllIds(g) - w.visited, |bs|
  {
    if bs != [] {
      TraverseIgnoresStrategy(g, p, q, f, bound, bs[0], d, w);
      var w1 := Traverse(g, p, f, bound, bs[0], d, w);
      TraverseAllIgnoresStrategy(g, p, q, f, bound, bs[1..], d, w1);
    }
  }

  /** `getRelatedBlocks` returns exactly the existing targets of the followed edges leaving id. */
  lemma {:induction false} RelatedExact(g: Graph, id: BlockId, rels: seq<RelationType>, es: seq<Edge>)
    ensures forall x :: x in RelatedIn(g, id, rels, es) <==>
      exists e :: e in es && e.fromBlockId == id && e.relationType in rels && e.toBlockId in g.blocks
                  && g.blocks[e.toBlockId] == x
  {
    if es != [] {
      var n := |es| - 1;
      RelatedExact(g, id, rels, es[..n]);
      assert es == es[..n] + [es[n]];
    }
  }

  /**
   * `getSiblings` returns exactly the existing targets, other than the block itself, of the
   * structural edges leaving the source of the block's first structural parent edge, and
   * nothing when there is no such edge.
   */
  lemma {:induction false} SiblingsExact(g: Graph, b: Block)
    ensures FirstEdgeInto(g.edges, b.id, true).None? ==> Siblings(g, b) == []
    ensures FirstEdgeInto(g.edges, b.id, true).Some? ==>
      var parentId := FirstEdgeInto(g.edges, b.id, true).value.fromBlockId;
      forall x :: x in Siblings(g, b) <==>
        exists e :: e in g.edges && e.fromBlockId == parentId && e.toBlockId != b.id
                    && IsParentLink(e.relationType) && e.toBlockId in g.blocks && g.blocks[e.toBlockId] == x
  {
    if FirstEdgeInto(g.edges, b.id, true).Some? {
      SiblingsInExact(g, FirstEdgeInto(g.edges, b.id, true).value.fromBlockId, b.id, g.edges);
    }
  }

  lemma {:induction false} SiblingsInExact(g: Graph, parentId: BlockId, selfId: BlockId, es: seq<Edge>)
    ensures forall x :: x in SiblingsIn(g, parentId, selfId, es) <==>
      exists e :: e in es && e.fromBlockId == parentId && e.toBlockId != selfId
                  && IsParentLink(e.relationType) && e.toBlockId in g.blocks && g.blocks[e.toBlockId] == x
  {
    if es != [] {
      var n := |es| - 1;
      SiblingsInExact(g, parentId, selfId, es[..n]);
      assert es == es[..n] + [es[n]];
    }
  }

  /**
   * With respectOrder, the children are the related blocks sorted ascending by the order of
   * the first edge into each of them, as a permutation, and children with equal keys keep
   * their edge order; without it they are the related blocks as found.
   */
  lemma ChildrenOrder(g: Graph, b: Block, p: Profile)
    ensures var rel := RelatedIn(g, b.id, p.followRelations, g.edges);
      var kids := OrderedRelated(g, b, p);
      var key := KeyFor(g.edges);
      if p.respectOrder then
        Sorting.SortedBy(kids, key) && multiset(kids) == multiset(rel)
        && forall k :: Sorting.WithKey(kids, key, k) == Sorting.WithKey(rel, key, k)
      else kids == rel
  {
    var rel := RelatedIn(g, b.id, p.followRelations, g.edges);
    if p.respectOrder {
      Sorting.SortBySortedPermutation(rel, KeyFor(g.edges));
      forall k ensures Sorting.WithKey(OrderedRelated(g, b, p), KeyFor(g.edges), k) == Sorting.WithKey(rel, KeyFor(g.edges), k) {
        Sorting.SortByStable(rel, KeyFor(g.edges), k);
      }
    }
  }

  /** The walk `assemble` performs for a configuration whose root exists. */
  ghost function AssembledWalk(g: Graph, c: Config): Walk
    requires c.rootBlockId in g.blocks
  {
    Traverse(g, c.profile, c.tagFilter, EffectiveBound(c.maxDepth), g.blocks[c.rootBlockId], 0, EmptyWalk)
  }

  /**
   * What `assemble` visits: no block twice, only existing blocks that pass the tag filter,
   * each at a depth below the effective bound; the root comes first, and nothing at all is
   * visited exactly when the root itself fails the bound or the filter.
   */
  lemma AssembledWalkFacts(g: Graph, c: Config)
    requires c.rootBlockId in g.blocks
    ensures var w := AssembledWalk(g, c);
      var root := g.blocks[c.rootBlockId];
      var bound := EffectiveBound(c.maxDepth);
      WalkOk(g, c.tagFilter, bound, w)
      && (w.blocks == [] <==> !(Below(0, bound) && PassesFilter(root, c.tagFilter)))
      && (w.blocks != [] ==> w.blocks[0] == root && w.depths[0] == 0)
  {
    var root := g.blocks[c.rootBlockId];
    var bound := EffectiveBound(c.maxDepth);
    TraverseOk(g, c.profile, c.tagFilter, bound, root, 0, EmptyWalk);
    if Below(0, bound) && PassesFilter(root, c.tagFilter) {
      var w1 := Visit(EmptyWalk, root, 0);
      VisitOk(g, c.tagFilter, bound, EmptyWalk, root, 0);
      TraverseAllOk(g, c.profile, c.tagFilter, bound, OrderedRelated(g, root, c.profile), 1, w1);
    }
  }

  /** A negative maxDepth is a bound no depth is below: nothing is assembled. */
  lemma NegativeMaxDepthAssemblesNothing(g: Graph, c: Config)
    requires c.rootBlockId in g.blocks && c.maxDepth.Some? && c.maxDepth.value < 0
    ensures AssembledWalk(g, c).blocks == []
  {
    AssembledWalkFacts(g, c);
  }

  /** `assemble` gives the same walk whatever the profile's strategy and maxDepth. */
  lemma AssembledWalkIgnoresStrategy(g: Graph, c: Config, s: Strategy, m: int)
    requires c.rootBlockId in g.blocks
    ensures AssembledWalk(g, c) == AssembledWalk(g, c.(profile := c.profile.(strategy := s, maxDepth := m)))
  {
    TraverseIgnoresStrategy(g, c.profile, c.profile.(strategy := s, maxDepth := m), c.tagFilter,
      EffectiveBound(c.maxDepth), g.blocks[c.rootBlockId], 0, EmptyWalk);
  }

  // ---------------------------------------------------------------------------------------
  // Depth in the parent hierarchy (`getBlockDepth`)
  // ---------------------------------------------------------------------------------------

  /** Following ParentIn from b reaches a block without parent in at most n steps. */
  ghost predicate ChainEndsWithin(g: Graph, b: Block, n: nat)
    decreases n
  {
    match ParentIn(g.blocks, g.edges, b.id)
    case None => true
    case Some(q) => n > 0 && ChainEndsWithin(g, q, n - 1)
  }

  /**
   * The parent chain of b ends. A chain that ends never repeats a block, so it ends within
   * as many steps as there are blocks.
   */
  ghost predicate ChainEnds(g: Graph, b: Block) {
    ChainEndsWithin(g, b, |g.blocks|)
  }

  /** Every block's parent chain ends: `getBlockDepth` terminates on every block. */
  ghost predicate ParentChainsEnd(g: Graph) {
    forall b :: b in g.blocks.Values ==> ChainEnds(g, b)
  }

  ghost function DepthWithin(g: Graph, b: Block, n: nat): nat
    requires ChainEndsWithin(g, b, n)
    decreases n
  {
    match ParentIn(g.blocks, g.edges, b.id)
    case None => 0
    case Some(q) => 1 + DepthWithin(g, q, n - 1)
  }

  lemma {:induction false} DepthWithinUnique(g: Graph, b: Block, n: nat, m: nat)
    requires ChainEndsWithin(g, b, n) && ChainEndsWithin(g, b, m)
    ensures DepthWithin(g, b, n) == DepthWithin(g, b, m)
    decreases n
  {
    if ParentIn(g.blocks, g.edges, b.id).Some? {
      DepthWithinUnique(g, ParentIn(g.blocks, g.edges, b.id).value, n - 1, m - 1);
    }
  }

  lemma {:induction false} ChainEndsWithinMonotone(g: Graph, b: Block, n: nat, m: nat)
    requires ChainEndsWithin(g, b, n) && n <= m
    ensures ChainEndsWithin(g, b, m)
    decreases n
  {
    if ParentIn(g.blocks, g.edges, b.id).Some? {
      ChainEndsWithinMonotone(g, ParentIn(g.blocks, g.edges, b.id).value, n - 1, m - 1);
    }
  }

  /** The number of parent steps from b to a block without parent. */
  ghost function BlockDepth(g: Graph, b: Block): nat
    requires ChainEnds(g, b)
  {
    DepthWithin(g, b, |g.blocks|)
  }

  /**
   * A block without parent has depth 0, and a block with a parent has one more than its
   * parent, whose chain ends too.
   */
  lemma BlockDepthStep(g: Graph, b: Block)
    requires ChainEnds(g, b)
    ensures ParentIn(g.blocks, g.edges, b.id).None? ==> BlockDepth(g, b) == 0
    ensures ParentIn(g.blocks, g.edges, b.id).Some? ==>
      ChainEnds(g, ParentIn(g.blocks, g.edges, b.id).value) && BlockDepth(g, b) == 1 + BlockDepth(g, ParentIn(g.blocks, g.edges, b.id).value)
  {
    if ParentIn(g.blocks, g.edges, b.id).Some? {
      var q := ParentIn(g.blocks, g.edges, b.id).value;
      var n := |g.blocks|;
      ChainEndsWithinMonotone(g, q, n - 1, n);
      DepthWithinUnique(g, q, n - 1, n);
    }
  }

  // ---------------------------------------------------------------------------------------
  // Markdown projection (`generateMarkdown`)
  // ---------------------------------------------------------------------------------------

  /** The line separator as the source text writes it: a backslash followed by the letter n. */
  const NL := "\\n"

  /** `assembledBlocks[0]?.title || 'Document'`. */
  function DocTitle(bs: seq<Block>): string {
    if |bs| > 0 && bs[0].title != "" then bs[0].title else "Document"
  }

  function MetaHeader(bs: seq<Block>, now: string): string {
    "---" + NL + "title: " + DocTitle(bs) + NL + "generated: " + now + NL
    + "blocks: " + Text.NatToString(|bs|) + NL + "---" + NL + NL
  }

  /** One line of the table of contents, indented by two spaces per level. */
  function TocLine(e: TocEntry): string {
    Text.Repeat("  ", e.level) + "- [" + e.title + "](#" + e.id + ")" + NL
  }

  function TocLines(toc: seq<TocEntry>): string {
    if toc == [] then "" else TocLines(toc[..|toc| - 1]) + TocLine(toc[|toc| - 1])
  }

  function TocSection(toc: seq<TocEntry>, includeToc: bool): string {
    if includeToc && |toc| > 0 then "## Table of Contents" + NL + NL + TocLines(toc) + NL else ""
  }

  /** `Math.min(depth + 1, 6)`: a markdown heading level, 1 to 6. */
  function HeadingLevel(depth: nat): (r: nat)
    ensures 1 <= r <= 6
    ensures r <= depth + 1 && (r == depth + 1 || r == 6)
  {
    if depth + 1 < 6 then depth + 1 else 6
  }

  ghost predicate DepthsKnown(g: Graph, bs: seq<Block>) {
    forall i :: 0 <= i < |bs| ==> ChainEnds(g, bs[i])
  }

  /** Every block of a well-formed walk has a known depth when all parent chains end. */
  lemma WalkDepthsKnown(g: Graph, f: Option<seq<TagId>>, bound: Bound, w: Walk)
    requires ParentChainsEnd(g) && WalkOk(g, f, bound, w)
    ensures DepthsKnown(g, w.blocks)
  {
    forall i | 0 <= i < |w.blocks| ensures ChainEnds(g, w.blocks[i]) {
      assert w.blocks[i] in g.blocks.Values;
    }
  }

  /** The heading written before a block: only structural parents get one. */
  ghost function Heading(g: Graph, b: Block): string
    requires ChainEnds(g, b)
  {
    if IsStructuralParent(g.edges, b.id) then
      Text.Repeat("#", HeadingLevel(BlockDepth(g, b))) + " " + b.title + NL + NL
    else ""
  }

  /** The text written for the block at index k: heading, content, and a gap unless it is last. */
  ghost function Section(g: Graph, bs: seq<Block>, k: nat): string
    requires k < |bs| && DepthsKnown(g, bs)
  {
    Heading(g, bs[k]) + bs[k].content + (if k < |bs| - 1 then NL + NL else "")
  }

  ghost function BodyUpTo(g: Graph, bs: seq<Block>, i: nat): string
    requires i <= |bs| && DepthsKnown(g, bs)
  {
    if i == 0 then "" else BodyUpTo(g, bs, i - 1) + Section(g, bs, i - 1)
  }

  ghost function MarkdownDoc(g: Graph, bs: seq<Block>, toc: seq<TocEntry>, includeToc: bool,
                             includeMetadata: bool, now: string): string
    requires DepthsKnown(g, bs)
  {
    (if includeMetadata then MetaHeader(bs, now) else "") + TocSection(toc, includeToc) + BodyUpTo(g, bs, |bs|)
  }

  function Contents(bs: seq<Block>): (r: seq<string>)
    ensures |r| == |bs| && forall i :: 0 <= i < |bs| ==> r[i] == bs[i].content
  {
    if bs == [] then [] else Contents(bs[..|bs| - 1]) + [bs[|bs| - 1].content]
  }

  function Join(parts: seq<string>, sep: string): string {
    if |parts| == 0 then ""
    else if |parts| == 1 then parts[0]
    else Join(parts[..|parts| - 1], sep) + sep + parts[|parts| - 1]
  }

  /**
   * When none of the blocks is a structural parent, the body of the markdown is their
   * contents, in walk order, separated by two line separators.
   */
  lemma PlainBody(g: Graph, bs: seq<Block>)
    requires DepthsKnown(g, bs)
    requires forall i :: 0 <= i < |bs| ==> !IsStructuralParent(g.edges, bs[i].id)
    ensures BodyUpTo(g, bs, |bs|) == Join(Contents(bs), NL + NL)
  {
    PlainBodyUpTo(g, bs, |bs|);
    assert bs[..|bs|] == bs;
  }

  lemma {:induction false} PlainBodyUpTo(g: Graph, bs: seq<Block>, i: nat)
    requires i <= |bs| && DepthsKnown(g, bs)
    requires forall k :: 0 <= k < |bs| ==> !IsStructuralParent(g.edges, bs[k].id)
    ensures BodyUpTo(g, bs, i) == Join(Contents(bs[..i]), NL + NL) + (if 0 < i < |bs| then NL + NL else "")
  {
    if i > 0 {
      PlainBodyUpTo(g, bs, i - 1);
      PlainSection(g, bs, i - 1);
      if i == 1 {
        assert Contents(bs[..i]) == [bs[0].content];
        assert BodyUpTo(g, bs, i) == bs[0].content + (if i < |bs| then NL + NL else "");
      } else {
        JoinContentsSnoc(bs, i);
        var sep, prev, last := NL + NL, Join(Contents(bs[..i - 1]), NL + NL), bs[i - 1].content;
        var gap := if i < |bs| then sep else "";
        calc {
          BodyUpTo(g, bs, i);
          (prev + sep) + (last + gap);
          { AppendAssoc(prev, sep, last, gap); }
          (prev + sep + last) + gap;
          Join(Contents(bs[..i]), NL + NL) + gap;
        }
      }
    }
  }

  lemma AppendAssoc(a: string, b: string, c: string, d: string)
    ensures (a + b) + (c + d) == (a + b + c) + d
  {
  }

  lemma PlainSection(g: Graph, bs: seq<Block>, k: nat)
    requires k < |bs| && DepthsKnown(g, bs) && !IsStructuralParent(g.edges, bs[k].id)
    ensures Section(g, bs, k) == bs[k].content + (if k < |bs| - 1 then NL + NL else "")
  {
  }

  lemma JoinContentsSnoc(bs: seq<Block>, i: nat)
    requires 1 < i <= |bs|
    ensures Join(Contents(bs[..i]), NL + NL) == Join(Contents(bs[..i - 1]), NL + NL) + NL + NL + bs[i - 1].content
  {
    var cs := Contents(bs[..i]);
    assert bs[..i][..i - 1] == bs[..i - 1];
    assert cs[..i - 1] == Contents(bs[..i - 1]);
  }

  // ---------------------------------------------------------------------------------------
  // JSON projection (`generateJSON`) and word count (`countWords`)
  // ---------------------------------------------------------------------------------------

  function JsonBlockOf(b: Block): JsonBlock {
    JsonBlock(b.id, b.title, b.blockType, b.content, b.tags, b.fields)
  }

  /** The JSON record lists exactly the assembled blocks, in order, with their count. */
  function JsonOf(bs: seq<Block>, toc: seq<TocEntry>, elapsed: int): (r: JsonDoc)
    ensures |r.blocks| == |bs| == r.blockCount && r.toc == toc
    ensures forall i :: 0 <= i < |bs| ==>
      r.blocks[i].id == bs[i].id && r.blocks[i].content == bs[i].content && r.blocks[i].tags == bs[i].tags
  {
    JsonDoc(seq(|bs|, i requires 0 <= i < |bs| => JsonBlockOf(bs[i])), toc, |bs|, elapsed)
  }

  function FirstIndexOf(s: string, c: char): (k: nat)
    requires c in s
    ensures k < |s| && s[k] == c && forall j :: 0 <= j < k ==> s[j] != c
  {
    if s[0] == c then 0 else 1 + FirstIndexOf(s[1..], c)
  }

  /**
   * `replace(/<[^>]*>/g, '')`: every '<' that has a '>' after it is removed together with
   * everything up to and including the first such '>'. What is left has no '<' before a '>'.
   */
  function StripTags(s: string): (r: string)
    ensures |r| <= |s|
    ensures forall c :: c in r ==> c in s
    ensures forall i, j :: 0 <= i < j < |r| && r[i] == '<' ==> r[j] != '>'
    decreases |s|
  {
    if s == [] then []
    else if s[0] == '<' && '>' in s[1..] then
      StripTags(s[1 + FirstIndexOf(s[1..], '>') + 1..])
    else
      var rest := StripTags(s[1..]);
      assert forall c :: c in rest ==> c in s[1..];
      [s[0]] + rest
  }

  /** The number of non-empty pieces. */
  function NonEmptyCount(ps: seq<string>): (n: nat)
    ensures n <= |ps|
  {
    if ps == [] then 0 else (if ps[0] != "" then 1 else 0) + NonEmptyCount(ps[1..])
  }

  /**
   * `countWords`: the non-empty pieces of the trimmed text without tags, split on the pattern
   * `/\\s+/` as the source text writes it, a backslash followed by one or more letters 's'.
   */
  function CountWords(content: string): nat {
    NonEmptyCount(Text.SplitRun(Text.Trim(StripTags(content)), "\\", 's', ""))
  }

  /**
   * Ordinary white space does not separate words: a text without backslashes counts as one
   * word, or as none when it is blank once its tags are removed.
   */
  lemma CountWordsWithoutBackslash(content: string)
    requires '\\' !in content
    ensures CountWords(content) == if Text.Trim(StripTags(content)) == "" then 0 else 1
  {
    var t := Text.Trim(StripTags(content));
    Text.TrimIsInfix(StripTags(content));
    assert '\\' !in t;
    Text.SplitRunWithoutLead(t, "\\", 's', "");
    assert "" + t == t;
  }

  // ---------------------------------------------------------------------------------------
  // The assembled result
  // ---------------------------------------------------------------------------------------

  /** `getMaxDepth`: the largest parent-chain depth among bs, or 0 when bs is empty. */
  ghost function MaxDepthOf(g: Graph, bs: seq<Block>): (r: nat)
    requires DepthsKnown(g, bs)
    ensures forall i :: 0 <= i < |bs| ==> BlockDepth(g, bs[i]) <= r
    ensures r == 0 || exists i :: 0 <= i < |bs| && r == BlockDepth(g, bs[i])
  {
    if bs == [] then 0
    else
      var n := |bs| - 1;
      var prefix := bs[..n];
      assert forall i :: 0 <= i < n ==> prefix[i] == bs[i];
      var m := MaxDepthOf(g, prefix);
      var d := BlockDepth(g, bs[n]);
      if m < d then d else m
  }

  /** One more block raises the maximum depth to that block's depth when it is deeper. */
  lemma MaxDepthSnoc(g: Graph, bs: seq<Block>, i: nat)
    requires i < |bs| && DepthsKnown(g, bs)
    ensures DepthsKnown(g, bs[..i]) && DepthsKnown(g, bs[..i + 1])
    ensures var m, d := MaxDepthOf(g, bs[..i]), BlockDepth(g, bs[i]);
            MaxDepthOf(g, bs[..i + 1]) == if m < d then d else m
  {
    var next := bs[..i + 1];
    assert next[..i] == bs[..i] && next[i] == bs[i];
  }

  /** The `content` of the result for the configured format; 'pdf' falls back to markdown. */
  ghost function ContentFor(g: Graph, c: Config, env: Env, bs: seq<Block>, toc: seq<TocEntry>): string
    requires DepthsKnown(g, bs)
  {
    match c.format
    case Markdown => MarkdownDoc(g, bs, toc, c.includeToc, c.includeMetadata, env.now)
    case Html => env.renderHtml(MarkdownDoc(g, bs, toc, c.includeToc, c.includeMetadata, env.now), DocTitle(bs))
    case Json => env.serialize(JsonOf(bs, toc, env.jsonElapsed))
    case Pdf => MarkdownDoc(g, bs, toc, c.includeToc, c.includeMetadata, env.now)
  }

  // ---------------------------------------------------------------------------------------
  // The compositor object
  // ---------------------------------------------------------------------------------------

  class DocumentCompositor {
    const blocks: map<BlockId, Block>
    const edges: seq<Edge>
    var visited: set<BlockId>
    var assembled: seq<Block>
    var toc: seq<TocEntry>
    /** The depth at which each assembled block was visited. */
    ghost var depths: seq<nat>

    function G(): Graph {
      Graph(blocks, edges)
    }

    /** The table of contents is the one the visits so far produce. */
    ghost predicate Valid()
      reads this
    {
      |depths| == |assembled| && toc == TocOf(edges, assembled, depths)
    }

    ghost function Current(): Walk
      reads this
    {
      Walk(visited, assembled, depths)
    }

    constructor (blocks: map<BlockId, Block>, edges: seq<Edge>)
      ensures this.blocks == blocks && this.edges == edges
      ensures Valid() && Current() == EmptyWalk && toc == []
    {
      this.blocks := blocks;
      this.edges := edges;
      visited := {};
      assembled := [];
      toc := [];
      depths := [];
    }

    /**
     * `assemble`: resets the state, fails when the root does not exist, and otherwise walks
     * from the root at depth 0 and projects the walk in the configured format. The result
     * depends on the graph and the configuration only.
     */
    method Assemble(c: Config, env: Env) returns (r: Result<CompositorResult>)
      requires ParentChainsEnd(G())
      modifies this
      ensures Valid()
      ensures c.rootBlockId !in blocks ==>
        r == Err("Root block " + c.rootBlockId + " not found") && Current() == EmptyWalk && toc == []
      ensures c.rootBlockId in blocks ==>
        Current() == AssembledWalk(G(), c) && DepthsKnown(G(), assembled)
        && r.Ok? && r.value.blocks == assembled && r.value.toc == toc
        && r.value.content == ContentFor(G(), c, env, assembled, toc)
        && r.value.metadata == Metadata(|assembled|, CountWords(r.value.content),
                                        MaxDepthOf(G(), assembled), env.elapsed)
    {
      visited := {};
      assembled := [];
      toc := [];
      depths := [];
      if c.rootBlockId !in blocks {
        return Err("Root block " + c.rootBlockId + " not found");
      }
      var root := blocks[c.rootBlockId];
      TraverseBlock(root, c.profile, c.tagFilter, 0, EffectiveBound(c.maxDepth));
      assert Current() == AssembledWalk(G(), c);
      AssembledWalkFacts(G(), c);
      WalkDepthsKnown(G(), c.tagFilter, EffectiveBound(c.maxDepth), Current());
      assert DepthsKnown(G(), assembled);
      var content: string;
      match c.format {
        case Markdown =>
          content := GenerateMarkdown(c.includeToc, c.includeMetadata, env.now);
        case Html =>
          var md := GenerateMarkdown(c.includeToc, c.includeMetadata, env.now);
          content := env.renderHtml(md, DocTitle(assembled));
        case Json =>
          content := env.serialize(JsonOf(assembled, toc, env.jsonElapsed));
        case Pdf =>
          content := GenerateMarkdown(c.includeToc, c.includeMetadata, env.now);
      }
      assert content == ContentFor(G(), c, env, assembled, toc);
      var depth := GetMaxDepth();
      r := Ok(CompositorResult(content, assembled, toc, Metadata(|assembled|, CountWords(content), depth, env.elapsed)));
    }

    /**
     * `traverseBlock`: skips a visited block, a block at or beyond the bound and a block
     * the filter rejects; otherwise records the visit (and a TOC entry for a structural
     * parent), walks the children one level deeper and then, on request and below the
     * root, the siblings at the same depth.
     */
    method TraverseBlock(b: Block, p: Profile, f: Option<seq<TagId>>, d: nat, bound: Bound)
      requires Valid() && b in blocks.Values
      modifies this
      ensures Valid()
      ensures Current() == Traverse(G(), p, f, bound, b, d, old(Current()))
      decreases AllIds(G()) - visited, 0
    {
      if b.id in visited {
        return;
      }
      if !Below(d, bound) {
        return;
      }
      if f.Some? && |f.value| > 0 {
        if !HasAnyTag(b, f.value) {
          return;
        }
      }
      ghost var w0 := Current();
      assert PassesFilter(b, f) && Below(d, bound) && b.id !in w0.visited;
      MarkVisited(b, d);
      ghost var w1 := Current();

      var related := GetRelatedBlocks(b, p);
      if p.respectOrder {
        related := Sorting.SortBy(related, KeyFor(edges));
      }
      assert related == OrderedRelated(G(), b, p);
      TraverseChildren(related, p, f, d + 1, bound);
      ghost var w2 := Current();
      assert w2 == TraverseAll(G(), p, f, bound, OrderedRelated(G(), b, p), d + 1, Visit(w0, b, d));
      if p.includeSiblings && d > 0 {
        var siblings := GetSiblings(b);
        TraverseSiblings(siblings, p, f, d, bound);
        assert Traverse(G(), p, f, bound, b, d, w0) == TraverseAll(G(), p, f, bound, Siblings(G(), b), d, w2);
      } else {
        assert Traverse(G(), p, f, bound, b, d, w0) == w2;
      }
    }

    /**
     * The loop over the children in `traverseBlock`: each is traversed in turn at depth d.
     * The 'depth-first' and 'breadth-first' branches of the source make the same call.
     */
    method TraverseChildren(bs: seq<Block>, p: Profile, f: Option<seq<TagId>>, d: nat, bound: Bound)
      requires Valid() && forall x :: x in bs ==> x in blocks.Values
      modifies this
      ensures Valid()
      ensures Current() == TraverseAll(G(), p, f, bound, bs, d, old(Current()))
      decreases AllIds(G()) - visited, 1
    {
      ghost var w0 := Current();
      var i := 0;
      while i < |bs|
        invariant 0 <= i <= |bs| && Valid()
        invariant w0.visited <= visited && visited - w0.visited <= AllIds(G())
        invariant TraverseAll(G(), p, f, bound, bs[i..], d, Current()) == TraverseAll(G(), p, f, bound, bs, d, w0)
      {
        assert bs[i..][1..] == bs[i + 1..];
        TraverseBlock(bs[i], p, f, d, bound);
        i := i + 1;
      }
    }

    /** The loop over the siblings in `traverseBlock`: each one not yet visited is traversed at depth d. */
    method TraverseSiblings(bs: seq<Block>, p: Profile, f: Option<seq<TagId>>, d: nat, bound: Bound)
      requires Valid() && forall x :: x in bs ==> x in blocks.Values
      modifies this
      ensures Valid()
      ensures Current() == TraverseAll(G(), p, f, bound, bs, d, old(Current()))
      decreases AllIds(G()) - visited, 1
    {
      ghost var w0 := Current();
      var i := 0;
      while i < |bs|
        invariant 0 <= i <= |bs| && Valid()
        invariant w0.visited <= visited && visited - w0.visited <= AllIds(G())
        invariant TraverseAll(G(), p, f, bound, bs[i..], d, Current()) == TraverseAll(G(), p, f, bound, bs, d, w0)
      {
        assert bs[i..][1..] == bs[i + 1..];
        if bs[i].id !in visited {
          TraverseBlock(bs[i], p, f, d, bound);
        }
        i := i + 1;
      }
    }

    /** Marks b visited at depth d, and adds its TOC entry when it is a structural parent. */
    method MarkVisited(b: Block, d: nat)
      requires Valid()
      modifies this
      ensures Valid() && Current() == Visit(old(Current()), b, d)
    {
      ghost var w0 := Current();
      visited := visited + {b.id};
      assembled := assembled + [b];
      depths := depths + [d];
      if IsStructuralParent(edges, b.id) {
        toc := toc + [TocEntryFor(b, d)];
      }
      assert assembled[..|assembled| - 1] == w0.blocks && depths[..|depths| - 1] == w0.depths;
    }

    /** `getRelatedBlocks`, proved against RelatedIn. */
    method GetRelatedBlocks(b: Block, p: Profile) returns (r: seq<Block>)
      ensures r == RelatedIn(G(), b.id, p.followRelations, edges)
    {
      r := [];
      var i := 0;
      while i < |edges|
        invariant 0 <= i <= |edges|
        invariant r == RelatedIn(G(), b.id, p.followRelations, edges[..i])
      {
        var e := edges[i];
        assert edges[..i + 1][..i] == edges[..i];
        if e.fromBlockId == b.id && e.relationType in p.followRelations && e.toBlockId in blocks {
          r := r + [blocks[e.toBlockId]];
        }
        i := i + 1;
      }
      assert edges[..|edges|] == edges;
    }

    /** `getSiblings`, proved against Siblings. */
    method GetSiblings(b: Block) returns (r: seq<Block>)
      ensures r == Siblings(G(), b)
    {
      r := [];
      var parentEdge := FirstEdgeInto(edges, b.id, true);
      if parentEdge.None? {
        return;
      }
      var parentId := parentEdge.value.fromBlockId;
      var i := 0;
      while i < |edges|
        invariant 0 <= i <= |edges|
        invariant r == SiblingsIn(G(), parentId, b.id, edges[..i])
      {
        var e := edges[i];
        assert edges[..i + 1][..i] == edges[..i];
        if e.fromBlockId == parentId && e.toBlockId != b.id && IsParentLink(e.relationType)
           && e.toBlockId in blocks
        {
          r := r + [blocks[e.toBlockId]];
        }
        i := i + 1;
      }
      assert edges[..|edges|] == edges;
    }

    /** `getBlockDepth`: climbs first structural parent edges while their source exists. */
    method GetBlockDepth(b: Block) returns (depth: nat)
      requires ChainEnds(G(), b)
      ensures depth == BlockDepth(G(), b)
    {
      ghost var n := |blocks|;
      depth := 0;
      var current := b;
      while true
        invariant depth <= n && ChainEndsWithin(G(), current, n - depth)
        invariant depth + DepthWithin(G(), current, n - depth) == DepthWithin(G(), b, n)
        decreases n - depth
      {
        var parentEdge := FirstEdgeInto(edges, current.id, true);
        if parentEdge.None? {
          break;
        }
        if parentEdge.value.fromBlockId !in blocks {
          break;
        }
        depth := depth + 1;
        current := blocks[parentEdge.value.fromBlockId];
      }
    }

    /** `getMaxDepth`, proved against MaxDepthOf. */
    method GetMaxDepth() returns (m: nat)
      requires DepthsKnown(G(), assembled)
      ensures m == MaxDepthOf(G(), assembled)
    {
      m := 0;
      var i := 0;
      while i < |assembled|
        invariant 0 <= i <= |assembled|
        invariant DepthsKnown(G(), assembled[..i])
        invariant m == MaxDepthOf(G(), assembled[..i])
      {
        var d := GetBlockDepth(assembled[i]);
        MaxDepthSnoc(G(), assembled, i);
        m := if m < d then d else m;
        i := i + 1;
      }
      assert assembled[..|assembled|] == assembled;
    }

    /** `generateMarkdown`, proved against MarkdownDoc. */
    method GenerateMarkdown(includeToc: bool, includeMetadata: bool, now: string) returns (md: string)
      requires DepthsKnown(G(), assembled)
      ensures md == MarkdownDoc(G(), assembled, toc, includeToc, includeMetadata, now)
    {
      var meta := if includeMetadata then MetaHeader(assembled, now) else "";
      var tocText := "";
      if includeToc && |toc| > 0 {
        var lines := GenerateTocLines();
        tocText := "## Table of Contents" + NL + NL + lines + NL;
      }
      var body := GenerateBody();
      md := meta + tocText + body;
    }

    /** The `toc.forEach` loop of `generateMarkdown`. */
    method GenerateTocLines() returns (lines: string)
      ensures lines == TocLines(toc)
    {
      lines := "";
      var i := 0;
      while i < |toc|
        invariant 0 <= i <= |toc|
        invariant lines == TocLines(toc[..i])
      {
        var indent := Text.Repeat("  ", toc[i].level);
        assert toc[..i + 1][..i] == toc[..i];
        lines := lines + (indent + "- [" + toc[i].title + "](#" + toc[i].id + ")" + NL);
        i := i + 1;
      }
      assert toc[..|toc|] == toc;
    }

    /** The `assembledBlocks.forEach` loop of `generateMarkdown`. */
    method GenerateBody() returns (body: string)
      requires DepthsKnown(G(), assembled)
      ensures body == BodyUpTo(G(), assembled, |assembled|)
    {
      body := "";
      var k := 0;
      while k < |assembled|
        invariant 0 <= k <= |assembled|
        invariant body == BodyUpTo(G(), assembled, k)
      {
        var heading := GenerateHeading(assembled[k]);
        var gap := if k < |assembled| - 1 then NL + NL else "";
        ghost var section := Section(G(), assembled, k);
        assert heading + assembled[k].content + gap == section;
        assert BodyUpTo(G(), assembled, k + 1) == body + section;
        body := body + (heading + assembled[k].content + gap);
        k := k + 1;
      }
    }

    /** The heading `generateMarkdown` writes before one block. */
    method GenerateHeading(b: Block) returns (heading: string)
      requires ChainEnds(G(), b)
      ensures heading == Heading(G(), b)
    {
      heading := "";
      if IsStructuralParent(edges, b.id) {
        var depth := GetBlockDepth(b);
        heading := Text.Repeat("#", HeadingLevel(depth)) + " " + b.title + NL + NL;
      }
    }
  }
}
