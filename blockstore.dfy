/**
 * The central store of the knowledge graph (src/stores/blockStore.ts): the block, edge and
 * tag maps, the selection and view state, their CRUD actions, and the structural queries
 * (children, parent, descendants, siblings, inherited tags).
 *
 * The edge map is kept as a sequence in insertion order, because the queries scan
 * `Array.from(edges.values())` and take the first match. `Map.set` replaces an entry in
 * place or appends it; `Map.delete` removes it. Generated ids (`nanoid()`) and timestamps
 * are parameters.
 */
module BlockStore {
  import opened Types
  import opened EdgeQueries
  import Seqs
  import Sorting

  datatype ViewMode = GraphView | DocumentView | BrainstormView | FolderView

  /** `Partial<Block>`: the fields a caller may pass to createBlock; None is a missing field. */
  datatype BlockParams = BlockParams(
    id: Option<BlockId>,
    blockType: Option<BlockType>,
    templateId: Option<TemplateId>,
    title: Option<string>,
    content: Option<string>,
    fields: Option<map<string, FieldValue>>,
    tags: Option<seq<TagId>>,
    state: Option<BlockState>,
    immutability: Option<ImmutabilityLevel>,
    createdBy: Option<string>,
    updatedBy: Option<string>,
    version: Option<int>)

  /** `Partial<Tag>`. */
  datatype TagParams = TagParams(
    id: Option<TagId>,
    labelText: Option<string>,
    group: Option<TagGroup>,
    inheritable: Option<bool>,
    system: Option<bool>,
    color: Option<string>)

  /** The parsed import document; each of its arrays may be missing. */
  datatype ImportData = ImportData(blocks: Option<seq<Block>>, edges: Option<seq<Edge>>, tags: Option<seq<Tag>>)

  // ---------------------------------------------------------------------------------------
  // Defaults (`params.x || default`)
  // ---------------------------------------------------------------------------------------

  /** The block createBlock builds; freshId stands for `nanoid()`. */
  function NewBlock(p: BlockParams, freshId: BlockId): Block {
    Block(StrOr(p.id, freshId), Or(p.blockType, Note), StrOr(p.templateId, "default"),
          StrOr(p.title, "Untitled Block"), StrOr(p.content, ""), Or(p.fields, map[]), Or(p.tags, []),
          Or(p.state, Draft), Or(p.immutability, Mutable), StrOr(p.createdBy, "user"),
          StrOr(p.updatedBy, "user"), IntOr(p.version, 1))
  }

  /** Every field of b given explicitly (`{...original}`). */
  function ParamsOf(b: Block): BlockParams {
    BlockParams(Some(b.id), Some(b.blockType), Some(b.templateId), Some(b.title), Some(b.content),
                Some(b.fields), Some(b.tags), Some(b.state), Some(b.immutability), Some(b.createdBy),
                Some(b.updatedBy), Some(b.version))
  }

  function NoParams(): BlockParams {
    BlockParams(None, None, None, None, None, None, None, None, None, None, None, None)
  }

  /** A block made from no parameters is an empty draft note, mutable, at version 1. */
  lemma NewBlockDefaults(freshId: BlockId)
    ensures var b := NewBlock(NoParams(), freshId);
      b.id == freshId && b.blockType == Note && b.templateId == "default" && b.title == "Untitled Block"
      && b.content == "" && b.fields == map[] && b.tags == [] && b.state == Draft
      && b.immutability == Mutable && b.createdBy == "user" && b.updatedBy == "user" && b.version == 1
  {
  }

  /**
   * Giving every field of a block rebuilds that block, unless one of its fields is falsy and
   * so replaced by the default.
   */
  lemma NewBlockFromBlock(b: Block, freshId: BlockId)
    requires b.id != "" && b.templateId != "" && b.title != "" && b.createdBy != "" && b.updatedBy != ""
    requires b.version != 0
    ensures NewBlock(ParamsOf(b), freshId) == b
  {
  }

  /** The copy duplicateBlock makes of the original. */
  function DuplicateOf(original: Block, freshId: BlockId): Block {
    NewBlock(ParamsOf(original).(id := Some(freshId), title := Some(original.title + " (Copy)"),
                                 version := Some(1)), freshId)
  }

  /**
   * A duplicate differs from its original only in its id, its title, which gains the suffix
   * " (Copy)", and its version, which restarts at 1 (besides falsy fields turned into defaults).
   */
  lemma DuplicateDiffersOnlyInIdTitleVersion(original: Block, freshId: BlockId)
    requires freshId != "" && original.templateId != "" && original.createdBy != "" && original.updatedBy != ""
    ensures DuplicateOf(original, freshId)
         == original.(id := freshId, title := original.title + " (Copy)", version := 1)
  {
    assert original.title + " (Copy)" != "" by {
      assert |original.title + " (Copy)"| >= 7;
    }
  }

  /** The tag createTag builds. */
  function NewTag(p: TagParams, freshId: TagId): Tag {
    Tag(StrOr(p.id, freshId), StrOr(p.labelText, "New Tag"), Or(p.group, Custom), Or(p.inheritable, false),
        Or(p.system, false), StrOr(p.color, "#3B82F6"))
  }

  /** A tag is only inheritable when the caller says so; a tag made from nothing is a blue custom tag. */
  lemma NewTagDefaults(p: TagParams, freshId: TagId)
    ensures NewTag(p, freshId).inheritable <==> p.inheritable == Some(true)
    ensures p == TagParams(None, None, None, None, None, None) ==>
      NewTag(p, freshId) == Tag(freshId, "New Tag", Custom, false, false, "#3B82F6")
  {
  }

  // ---------------------------------------------------------------------------------------
  // The ordered edge map
  // ---------------------------------------------------------------------------------------

  function EdgeKey(e: Edge): EdgeId { e.id }
  function BlockKey(b: Block): BlockId { b.id }
  function TagKey(t: Tag): TagId { t.id }

  function EdgeIdIsNot(id: EdgeId): Edge -> bool {
    (e: Edge) => e.id != id
  }

  /** Neither end of the edge is the block. */
  function Untouched(id: BlockId): Edge -> bool {
    (e: Edge) => e.fromBlockId != id && e.toBlockId != id
  }

  /** Every edge has both of its blocks in the map. */
  ghost predicate EdgesAttached(blocks: map<BlockId, Block>, es: seq<Edge>) {
    forall e :: e in es ==> e.fromBlockId in blocks && e.toBlockId in blocks
  }

  /**
   * Deleting a block together with the edges that touch it leaves no edge pointing at it,
   * and keeps a graph without dangling edges free of them.
   */
  lemma DeleteBlockLeavesNoDanglingEdges(blocks: map<BlockId, Block>, es: seq<Edge>, id: BlockId)
    ensures forall e :: e in Seqs.Filter(es, Untouched(id)) ==> e.fromBlockId != id && e.toBlockId != id
    ensures EdgesAttached(blocks, es) ==> EdgesAttached(blocks - {id}, Seqs.Filter(es, Untouched(id)))
  {
    Seqs.FilterMembers(es, Untouched(id));
  }

  // ---------------------------------------------------------------------------------------
  // Block and tag transitions
  // ---------------------------------------------------------------------------------------

  /** `updateBlock`: a block that exists and is not IMMUTABLE is replaced, one version up. */
  function AfterUpdate(blocks: map<BlockId, Block>, b: Block): map<BlockId, Block> {
    if b.id in blocks && blocks[b.id].immutability != Immutable
    then blocks[b.id := b.(version := blocks[b.id].version + 1)]
    else blocks
  }

  /** `deleteBlock` on the block map: only a MUTABLE block can be deleted. */
  predicate Deletable(blocks: map<BlockId, Block>, id: BlockId) {
    id in blocks && blocks[id].immutability == Mutable
  }

  /**
   * The immutability tiers: an IMMUTABLE block is never changed by an update, a LOCKED one
   * can still be updated, and only a MUTABLE one can be deleted.
   */
  lemma ImmutabilityTiers(blocks: map<BlockId, Block>, b: Block)
    ensures b.id in blocks && blocks[b.id].immutability == Immutable ==> AfterUpdate(blocks, b) == blocks
    ensures b.id in blocks && blocks[b.id].immutability == Locked ==>
      AfterUpdate(blocks, b)[b.id] == b.(version := blocks[b.id].version + 1)
    ensures Deletable(blocks, b.id) <==> b.id in blocks && blocks[b.id].immutability == Mutable
    ensures forall k :: k in blocks && k != b.id ==> k in AfterUpdate(blocks, b) && AfterUpdate(blocks, b)[k] == blocks[k]
  {
  }

  /** `deleteTag` on the block map: the tag removed from every block. */
  function WithoutTagEverywhere(blocks: map<BlockId, Block>, t: TagId): (r: map<BlockId, Block>)
    ensures r.Keys == blocks.Keys
    ensures forall k :: k in r ==> t !in r[k].tags && r[k] == blocks[k].(tags := r[k].tags)
  {
    map k | k in blocks :: blocks[k].(tags := Seqs.Without(blocks[k].tags, t))
  }

  /** `addTagToBlock` on one block: the tag is appended unless already there. */
  function WithTag(b: Block, t: TagId): Block {
    if t in b.tags then b else b.(tags := b.tags + [t])
  }

  /** `removeTagFromBlock` on one block. */
  function WithoutTag(b: Block, t: TagId): Block {
    b.(tags := Seqs.Without(b.tags, t))
  }

  /**
   * Adding a tag is idempotent, puts the tag on the block, keeps the tag list free of
   * duplicates, and removing the tag again restores a block that did not carry it.
   */
  lemma AddTagProperties(b: Block, t: TagId)
    ensures t in WithTag(b, t).tags
    ensures WithTag(WithTag(b, t), t) == WithTag(b, t)
    ensures Seqs.NoDuplicates(b.tags) ==> Seqs.NoDuplicates(WithTag(b, t).tags)
    ensures t !in b.tags ==> WithoutTag(WithTag(b, t), t) == b
  {
    if t !in b.tags {
      var ts := b.tags + [t];
      assert Seqs.Without(ts, t) == b.tags by {
        Seqs.WithoutAppended(b.tags, t);
      }
    }
  }

  // ---------------------------------------------------------------------------------------
  // Structural queries
  // ---------------------------------------------------------------------------------------

  /** A PARENT_OF or CONTAINS_ORDERED edge out of id. */
  function IsChildEdgeOf(id: BlockId): Edge -> bool {
    (e: Edge) => e.fromBlockId == id && IsParentLink(e.relationType)
  }

  function ChildEdges(es: seq<Edge>, id: BlockId): seq<Edge> {
    Seqs.Filter(es, IsChildEdgeOf(id))
  }

  /** `.map(e => blocks.get(e.toBlockId)).filter(b => b !== undefined)`. */
  function Targets(blocks: map<BlockId, Block>, es: seq<Edge>): (r: seq<Block>)
    ensures |r| <= |es|
  {
    if es == [] then []
    else (if es[0].toBlockId in blocks then [blocks[es[0].toBlockId]] else []) + Targets(blocks, es[1..])
  }

  lemma {:induction false} TargetsMembers(blocks: map<BlockId, Block>, es: seq<Edge>)
    ensures forall x :: x in Targets(blocks, es) <==>
      exists e :: e in es && e.toBlockId in blocks && blocks[e.toBlockId] == x
  {
    if es != [] {
      TargetsMembers(blocks, es[1..]);
      assert forall e :: e in es <==> e == es[0] || e in es[1..];
    }
  }

  /**
   * `getChildren`: the existing targets of the structural edges out of id, stably sorted by
   * the order of the first such edge into each of them.
   */
  function Children(blocks: map<BlockId, Block>, es: seq<Edge>, id: BlockId): seq<Block> {
    Sorting.SortBy(Targets(blocks, ChildEdges(es, id)), KeyFor(ChildEdges(es, id)))
  }

  /** A stored block that is the target of some structural edge. */
  ghost predicate StoredChild(blocks: map<BlockId, Block>, es: seq<Edge>, x: Block) {
    x.id in blocks && blocks[x.id] == x
    && exists e :: e in es && e.toBlockId == x.id && IsParentLink(e.relationType)
  }

  /**
   * The children of id are exactly the stored targets of its PARENT_OF and CONTAINS_ORDERED
   * edges, each as often as it has such edges, and they come in ascending edge order, ties in
   * edge order.
   */
  lemma ChildrenExact(blocks: map<BlockId, Block>, es: seq<Edge>, id: BlockId)
    ensures forall x :: x in Children(blocks, es, id) <==>
      exists e :: e in es && e.fromBlockId == id && IsParentLink(e.relationType)
                  && e.toBlockId in blocks && blocks[e.toBlockId] == x
    ensures multiset(Children(blocks, es, id)) == multiset(Targets(blocks, ChildEdges(es, id)))
    ensures Sorting.SortedBy(Children(blocks, es, id), KeyFor(ChildEdges(es, id)))
    ensures forall k :: Sorting.WithKey(Children(blocks, es, id), KeyFor(ChildEdges(es, id)), k)
                     == Sorting.WithKey(Targets(blocks, ChildEdges(es, id)), KeyFor(ChildEdges(es, id)), k)
  {
    var ts := Targets(blocks, ChildEdges(es, id));
    var key := KeyFor(ChildEdges(es, id));
    Sorting.SortBySortedPermutation(ts, key);
    forall k ensures Sorting.WithKey(Children(blocks, es, id), key, k) == Sorting.WithKey(ts, key, k) {
      Sorting.SortByStable(ts, key, k);
    }
    TargetsMembers(blocks, ChildEdges(es, id));
    Seqs.FilterMembers(es, IsChildEdgeOf(id));
    forall x ensures x in Children(blocks, es, id) <==> x in ts {
      assert x in Children(blocks, es, id) <==> x in multiset(Children(blocks, es, id));
    }
  }

  /** Children of a map keyed by id are stored children. */
  lemma ChildrenStored(blocks: map<BlockId, Block>, es: seq<Edge>, id: BlockId)
    requires Seqs.Keyed(blocks, BlockKey)
    ensures forall x :: x in Children(blocks, es, id) ==> StoredChild(blocks, es, x)
  {
    ChildrenExact(blocks, es, id);
    forall x | x in Children(blocks, es, id) ensures StoredChild(blocks, es, x) {
      var e :| e in es && e.fromBlockId == id && IsParentLink(e.relationType)
               && e.toBlockId in blocks && blocks[e.toBlockId] == x;
      assert BlockKey(blocks[e.toBlockId]) == e.toBlockId;
    }
  }

  /** The parent of a stored block is stored under its own id. */
  lemma ParentStored(blocks: map<BlockId, Block>, es: seq<Edge>, id: BlockId)
    requires Seqs.Keyed(blocks, BlockKey)
    ensures ParentIn(blocks, es, id).Some? ==>
      var p := ParentIn(blocks, es, id).value; p.id in blocks && blocks[p.id] == p
  {
    match FirstEdgeInto(es, id, true)
    case None =>
    case Some(e) =>
      if e.fromBlockId in blocks {
        assert BlockKey(blocks[e.fromBlockId]) == e.fromBlockId;
      }
  }

  function IdIsNot(id: BlockId): Block -> bool {
    (b: Block) => b.id != id
  }

  /** `getSiblings`: the other children of the parent, or nothing without a parent. */
  function Siblings(blocks: map<BlockId, Block>, es: seq<Edge>, id: BlockId): seq<Block> {
    match ParentIn(blocks, es, id)
    case None => []
    case Some(p) => Seqs.Filter(Children(blocks, es, p.id), IdIsNot(id))
  }

  /** The siblings of a block are exactly its parent's other children; the block is never one. */
  lemma SiblingsExact(blocks: map<BlockId, Block>, es: seq<Edge>, id: BlockId)
    ensures ParentIn(blocks, es, id).None? ==> Siblings(blocks, es, id) == []
    ensures ParentIn(blocks, es, id).Some? ==> forall x :: x in Siblings(blocks, es, id) <==>
      x in Children(blocks, es, ParentIn(blocks, es, id).value.id) && x.id != id
    ensures forall x :: x in Siblings(blocks, es, id) ==> x.id != id
  {
    if ParentIn(blocks, es, id).Some? {
      Seqs.FilterMembers(Children(blocks, es, ParentIn(blocks, es, id).value.id), IdIsNot(id));
    }
  }

  /** `getBlockEdges`: the edges into and out of a block, in map order. */
  function BlockEdges(es: seq<Edge>, id: BlockId): (r: (seq<Edge>, seq<Edge>))
    ensures forall e :: e in r.0 <==> e in es && e.toBlockId == id
    ensures forall e :: e in r.1 <==> e in es && e.fromBlockId == id
  {
    var into := (e: Edge) => e.toBlockId == id;
    var outOf := (e: Edge) => e.fromBlockId == id;
    Seqs.FilterMembers(es, into);
    Seqs.FilterMembers(es, outOf);
    (Seqs.Filter(es, into), Seqs.Filter(es, outOf))
  }

  /** `getDescendants` stops at `depth >= maxDepth`; a missing maxDepth is unbounded. */
  predicate Below(depth: nat, maxDepth: Option<int>) {
    maxDepth.None? || depth < maxDepth.value
  }

  /** x is reached from the block `from` through exactly l child links (getChildren steps). */
  ghost predicate DescendantAt(blocks: map<BlockId, Block>, es: seq<Edge>, from: BlockId, x: Block, l: nat)
    decreases l
  {
    if l <= 1 then l == 1 && x in Children(blocks, es, from)
    else exists c :: c in Children(blocks, es, from) && DescendantAt(blocks, es, c.id, x, l - 1)
  }

  /** x is a descendant of `from` on a level that a traversal entered at `depth` still lists. */
  ghost predicate Reaches(blocks: map<BlockId, Block>, es: seq<Edge>, from: BlockId, depth: nat,
                          maxDepth: Option<int>, x: Block)
  {
    exists l: nat :: 1 <= l && Below(depth + l - 1, maxDepth) && DescendantAt(blocks, es, from, x, l)
  }

  /** Every child of v is among the collected blocks, and its id has been visited. */
  ghost predicate Closed(blocks: map<BlockId, Block>, es: seq<Edge>, v: BlockId, acc: seq<Block>, visited: set<BlockId>) {
    forall c :: c in Children(blocks, es, v) ==> c in acc && c.id in visited
  }

  lemma ReachesChild(blocks: map<BlockId, Block>, es: seq<Edge>, from: BlockId, depth: nat,
                     maxDepth: Option<int>, c: Block)
    requires c in Children(blocks, es, from) && Below(depth, maxDepth)
    ensures Reaches(blocks, es, from, depth, maxDepth, c)
  {
    assert DescendantAt(blocks, es, from, c, 1);
  }

  lemma ReachesThrough(blocks: map<BlockId, Block>, es: seq<Edge>, from: BlockId, depth: nat,
                       maxDepth: Option<int>, c: Block, x: Block)
    requires c in Children(blocks, es, from) && Reaches(blocks, es, c.id, depth + 1, maxDepth, x)
    ensures Reaches(blocks, es, from, depth, maxDepth, x)
  {
    var l: nat :| 1 <= l && Below(depth + 1 + l - 1, maxDepth) && DescendantAt(blocks, es, c.id, x, l);
    assert DescendantAt(blocks, es, from, x, l + 1);
  }

  /** Closure survives growing the collected blocks (by extension) and the visited set. */
  lemma ClosedGrows(blocks: map<BlockId, Block>, es: seq<Edge>, v: BlockId, acc: seq<Block>, vis: set<BlockId>,
                    acc': seq<Block>, vis': set<BlockId>)
    requires Closed(blocks, es, v, acc, vis)
    requires |acc| <= |acc'| && acc'[..|acc|] == acc && vis <= vis'
    ensures Closed(blocks, es, v, acc', vis')
  {
    forall c | c in Children(blocks, es, v) ensures c in acc' {
      var k :| 0 <= k < |acc| && acc[k] == c;
      assert acc'[k] == acc'[..|acc|][k];
    }
  }

  /** The blocks after the first n of acc are stored descendants of `from` within maxDepth. */
  ghost predicate ListedBelow(blocks: map<BlockId, Block>, es: seq<Edge>, from: BlockId, depth: nat,
                              maxDepth: Option<int>, acc: seq<Block>, n: nat)
  {
    forall j :: n <= j < |acc| ==> StoredChild(blocks, es, acc[j]) && Reaches(blocks, es, from, depth, maxDepth, acc[j])
  }

  /** Every block in vis but not in visited, other than the ones in `except`, is closed. */
  ghost predicate ClosedSince(blocks: map<BlockId, Block>, es: seq<Edge>, visited: set<BlockId>, except: set<BlockId>,
                              acc: seq<Block>, vis: set<BlockId>)
  {
    forall v :: v in vis && v !in visited && v !in except ==> Closed(blocks, es, v, acc, vis)
  }

  /** The children of `from`, appended after n blocks, are listed below it. */
  lemma ListChildren(blocks: map<BlockId, Block>, es: seq<Edge>, from: BlockId, depth: nat,
                     maxDepth: Option<int>, acc: seq<Block>)
    requires Seqs.Keyed(blocks, BlockKey) && Below(depth, maxDepth)
    ensures ListedBelow(blocks, es, from, depth, maxDepth, acc + Children(blocks, es, from), |acc|)
  {
    var children := Children(blocks, es, from);
    ChildrenStored(blocks, es, from);
    forall j | |acc| <= j < |acc + children|
      ensures StoredChild(blocks, es, (acc + children)[j]) && Reaches(blocks, es, from, depth, maxDepth, (acc + children)[j])
    {
      assert (acc + children)[j] == children[j - |acc|];
      ReachesChild(blocks, es, from, depth, maxDepth, (acc + children)[j]);
    }
  }

  /** What a traversal of the child c lists below c is listed below its parent too. */
  lemma ListThroughChild(blocks: map<BlockId, Block>, es: seq<Edge>, from: BlockId, depth: nat,
                         maxDepth: Option<int>, c: Block, n: nat, before: seq<Block>, after: seq<Block>)
    requires c in Children(blocks, es, from)
    requires n <= |before| <= |after| && after[..|before|] == before
    requires ListedBelow(blocks, es, from, depth, maxDepth, before, n)
    requires ListedBelow(blocks, es, c.id, depth + 1, maxDepth, after, |before|)
    ensures ListedBelow(blocks, es, from, depth, maxDepth, after, n)
  {
    forall j | n <= j < |after|
      ensures StoredChild(blocks, es, after[j]) && Reaches(blocks, es, from, depth, maxDepth, after[j])
    {
      if j < |before| {
        assert after[j] == after[..|before|][j];
      } else {
        ReachesThrough(blocks, es, from, depth, maxDepth, c, after[j]);
      }
    }
  }

  /** Closure of the blocks visited so far survives a nested traversal that closes its own. */
  lemma CloseThroughChild(blocks: map<BlockId, Block>, es: seq<Edge>, visited: set<BlockId>, current: BlockId,
                          before: seq<Block>, seen: set<BlockId>, after: seq<Block>, vis: set<BlockId>)
    requires |before| <= |after| && after[..|before|] == before && seen <= vis
    requires ClosedSince(blocks, es, visited, {current}, before, seen)
    requires ClosedSince(blocks, es, seen, {}, after, vis)
    ensures ClosedSince(blocks, es, visited, {current}, after, vis)
  {
    forall v | v in vis && v !in visited && v !in {current} ensures Closed(blocks, es, v, after, vis) {
      if v in seen {
        ClosedGrows(blocks, es, v, before, seen, after, vis);
      }
    }
  }

  /** The ids of the first n blocks of bs have been visited. */
  ghost predicate IdsVisited(bs: seq<Block>, n: nat, vis: set<BlockId>) {
    forall j :: 0 <= j < n && j < |bs| ==> bs[j].id in vis
  }

  lemma IdsVisitedStep(bs: seq<Block>, n: nat, vis: set<BlockId>, vis': set<BlockId>)
    requires n < |bs| && IdsVisited(bs, n, vis) && vis <= vis' && bs[n].id in vis'
    ensures IdsVisited(bs, n + 1, vis')
  {
  }

  /** A block whose children all sit after acc in the list and were all visited is closed. */
  lemma CloseCurrent(blocks: map<BlockId, Block>, es: seq<Edge>, current: BlockId, acc: seq<Block>,
                     after: seq<Block>, vis: set<BlockId>)
    requires |acc + Children(blocks, es, current)| <= |after|
    requires after[..|acc + Children(blocks, es, current)|] == acc + Children(blocks, es, current)
    requires IdsVisited(Children(blocks, es, current), |Children(blocks, es, current)|, vis)
    ensures Closed(blocks, es, current, after, vis)
  {
    var children := Children(blocks, es, current);
    forall c | c in children ensures c in after && c.id in vis {
      var k :| 0 <= k < |children| && children[k] == c;
      assert after[|acc| + k] == after[..|acc + children|][|acc| + k];
    }
  }

  /**
   * When every visited block is closed, every descendant of a visited block, at any level,
   * is among the collected blocks.
   */
  lemma {:induction false} ClosedCollectsDescendants(blocks: map<BlockId, Block>, es: seq<Edge>, acc: seq<Block>,
                                                     vis: set<BlockId>, v: BlockId, x: Block, l: nat)
    requires forall u :: u in vis ==> Closed(blocks, es, u, acc, vis)
    requires v in vis && DescendantAt(blocks, es, v, x, l)
    ensures x in acc
    decreases l
  {
    if l > 1 {
      var c :| c in Children(blocks, es, v) && DescendantAt(blocks, es, c.id, x, l - 1);
      assert Closed(blocks, es, v, acc, vis);
      ClosedCollectsDescendants(blocks, es, acc, vis, c.id, x, l - 1);
    } else {
      assert Closed(blocks, es, v, acc, vis);
    }
  }

  // ---------------------------------------------------------------------------------------
  // Inherited tags
  // ---------------------------------------------------------------------------------------

  /**
   * The parents `collectInheritedTags` visits from current, in order: it stops at a block
   * without parent or at a block it has already visited, whose parent it still records.
   */
  ghost function Chain(blocks: map<BlockId, Block>, es: seq<Edge>, current: BlockId, visited: set<BlockId>)
    : seq<Block>
    requires Seqs.Keyed(blocks, BlockKey)
    decreases (blocks.Keys + {current}) - visited
  {
    if current in visited then []
    else match ParentIn(blocks, es, current)
      case None => []
      case Some(p) =>
        ParentStored(blocks, es, current);
        [p] + Chain(blocks, es, p.id, visited + {current})
  }

  /** One step of the chain: the parent, then the chain from the parent with current visited. */
  lemma ChainStep(blocks: map<BlockId, Block>, es: seq<Edge>, tags: map<TagId, Tag>, current: BlockId,
                  visited: set<BlockId>)
    requires Seqs.Keyed(blocks, BlockKey) && current !in visited
    ensures ParentIn(blocks, es, current).None? ==> Chain(blocks, es, current, visited) == []
    ensures ParentIn(blocks, es, current).Some? ==>
      var p := ParentIn(blocks, es, current).value;
      p.id in blocks
      && TagsAlong(tags, Chain(blocks, es, current, visited))
         == Seqs.Filter(p.tags, IsInheritable(tags)) + TagsAlong(tags, Chain(blocks, es, p.id, visited + {current}))
  {
    ParentStored(blocks, es, current);
  }

  /** Every block of the chain is the parent of the one before it, the first the parent of current. */
  lemma {:induction false} ChainIsAncestry(blocks: map<BlockId, Block>, es: seq<Edge>, current: BlockId,
                                           visited: set<BlockId>)
    requires Seqs.Keyed(blocks, BlockKey)
    ensures var c := Chain(blocks, es, current, visited);
      (current !in visited ==> (c == [] <==> ParentIn(blocks, es, current).None?))
      && (c != [] ==> ParentIn(blocks, es, current) == Some(c[0]))
      && forall i :: 0 <= i < |c| - 1 ==> ParentIn(blocks, es, c[i].id) == Some(c[i + 1])
    decreases (blocks.Keys + {current}) - visited
  {
    if current !in visited && ParentIn(blocks, es, current).Some? {
      var p := ParentIn(blocks, es, current).value;
      ParentStored(blocks, es, current);
      ChainIsAncestry(blocks, es, p.id, visited + {current});
      var c := Chain(blocks, es, current, visited);
      var rest := Chain(blocks, es, p.id, visited + {current});
      assert c == [p] + rest;
      forall i | 0 <= i < |c| - 1 ensures ParentIn(blocks, es, c[i].id) == Some(c[i + 1]) {
        if i > 0 { assert c[i] == rest[i - 1] && c[i + 1] == rest[i]; }
      }
    }
  }

  /** The tag exists and is inheritable (`tag && tag.inheritable`). */
  function IsInheritable(tags: map<TagId, Tag>): TagId -> bool {
    (t: TagId) => t in tags && tags[t].inheritable
  }

  /** The inheritable tags of each block of the chain, in chain order. */
  function TagsAlong(tags: map<TagId, Tag>, chain: seq<Block>): seq<TagId> {
    if chain == [] then [] else Seqs.Filter(chain[0].tags, IsInheritable(tags)) + TagsAlong(tags, chain[1..])
  }

  lemma {:induction false} TagsAlongMembers(tags: map<TagId, Tag>, chain: seq<Block>)
    ensures forall t :: t in TagsAlong(tags, chain) <==>
      t in tags && tags[t].inheritable && exists i :: 0 <= i < |chain| && t in chain[i].tags
  {
    if chain != [] {
      TagsAlongMembers(tags, chain[1..]);
      Seqs.FilterMembers(chain[0].tags, IsInheritable(tags));
      forall t ensures (exists i :: 0 <= i < |chain| && t in chain[i].tags)
                       <==> t in chain[0].tags || exists i :: 0 <= i < |chain[1..]| && t in chain[1..][i].tags
      {
        if exists i :: 0 <= i < |chain| && t in chain[i].tags {
          var i :| 0 <= i < |chain| && t in chain[i].tags;
          if i > 0 { assert chain[1..][i - 1] == chain[i]; }
        }
        if exists i :: 0 <= i < |chain[1..]| && t in chain[1..][i].tags {
          var i :| 0 <= i < |chain[1..]| && t in chain[1..][i].tags;
          assert chain[i + 1] == chain[1..][i];
        }
      }
    }
  }

  /** What `getInheritedTags` returns: the tags along the chain, each once, first occurrence first. */
  ghost function InheritedTags(blocks: map<BlockId, Block>, es: seq<Edge>, tags: map<TagId, Tag>, bid: BlockId)
    : seq<TagId>
    requires Seqs.Keyed(blocks, BlockKey)
  {
    Seqs.Dedup(TagsAlong(tags, Chain(blocks, es, bid, {})))
  }

  /**
   * A block inherits, each once, exactly the existing inheritable tags carried by the blocks
   * of its parent chain; a block without parent inherits nothing, and every inheritable tag
   * of its direct parent is inherited.
   */
  lemma InheritedTagsExact(blocks: map<BlockId, Block>, es: seq<Edge>, tags: map<TagId, Tag>, bid: BlockId)
    requires Seqs.Keyed(blocks, BlockKey)
    ensures Seqs.NoDuplicates(InheritedTags(blocks, es, tags, bid))
    ensures forall t :: t in InheritedTags(blocks, es, tags, bid) <==>
      (t in tags && tags[t].inheritable
       && exists i :: 0 <= i < |Chain(blocks, es, bid, {})| && t in Chain(blocks, es, bid, {})[i].tags)
    ensures ParentIn(blocks, es, bid).None? ==> InheritedTags(blocks, es, tags, bid) == []
    ensures ParentIn(blocks, es, bid).Some? ==>
      forall t :: (t in ParentIn(blocks, es, bid).value.tags && t in tags && tags[t].inheritable)
                  ==> t in InheritedTags(blocks, es, tags, bid)
  {
    var c := Chain(blocks, es, bid, {});
    TagsAlongMembers(tags, c);
    ChainIsAncestry(blocks, es, bid, {});
  }

  // ---------------------------------------------------------------------------------------
  // The store
  // ---------------------------------------------------------------------------------------

  class Store {
    var blocks: map<BlockId, Block>
    var edges: seq<Edge>
    var tags: map<TagId, Tag>
    var selectedBlockId: Option<BlockId>
    var selectedEdgeId: Option<EdgeId>
    var viewMode: ViewMode
    var isLoading: bool
    var visibleBlockIds: set<BlockId>
    var visibleEdgeIds: set<EdgeId>

    /**
     * Blocks and tags are stored under their own ids, edge ids are unique, and at most one of
     * a block and an edge is selected.
     */
    ghost predicate Valid()
      reads this
    {
      Seqs.Keyed(blocks, BlockKey) && Seqs.Keyed(tags, TagKey) && Seqs.DistinctKeys(edges, EdgeKey)
      && (selectedBlockId.None? || selectedEdgeId.None?)
    }

    /** The initial state. */
    constructor()
      ensures Valid()
      ensures blocks == map[] && edges == [] && tags == map[]
      ensures selectedBlockId == None && selectedEdgeId == None
      ensures viewMode == GraphView && !isLoading && visibleBlockIds == {} && visibleEdgeIds == {}
    {
      blocks := map[];
      edges := [];
      tags := map[];
      selectedBlockId := None;
      selectedEdgeId := None;
      viewMode := GraphView;
      isLoading := false;
      visibleBlockIds := {};
      visibleEdgeIds := {};
    }

    // -- Blocks -----------------------------------------------------------------------------

    method CreateBlock(params: BlockParams, freshId: BlockId) returns (b: Block)
      requires Valid()
      modifies this`blocks
      ensures Valid()
      ensures b == NewBlock(params, freshId) && blocks == old(blocks)[b.id := b]
    {
      b := NewBlock(params, freshId);
      blocks := blocks[b.id := b];
    }

    method UpdateBlock(b: Block)
      requires Valid()
      modifies this`blocks
      ensures Valid()
      ensures blocks == AfterUpdate(old(blocks), b)
    {
      if b.id in blocks && blocks[b.id].immutability != Immutable {
        var updated := b.(version := blocks[b.id].version + 1);
        blocks := blocks[b.id := updated];
      }
    }

    /** Deletes a MUTABLE block and every edge into or out of it. */
    method DeleteBlock(id: BlockId)
      requires Valid()
      modifies this`blocks, this`edges
      ensures Valid()
      ensures Deletable(old(blocks), id) ==>
        blocks == old(blocks) - {id} && edges == Seqs.Filter(old(edges), Untouched(id))
      ensures !Deletable(old(blocks), id) ==> blocks == old(blocks) && edges == old(edges)
    {
      if id in blocks && blocks[id].immutability == Mutable {
        blocks := blocks - {id};
        var es := edges;
        var kept := [];
        var i := 0;
        while i < |es|
          invariant 0 <= i <= |es|
          invariant kept == Seqs.Filter(es[..i], Untouched(id))
          invariant blocks == old(blocks) - {id} && edges == es
        {
          Seqs.FilterSnoc(es[..i], es[i], Untouched(id));
          assert es[..i + 1] == es[..i] + [es[i]];
          if es[i].fromBlockId != id && es[i].toBlockId != id {
            kept := kept + [es[i]];
          }
          i := i + 1;
        }
        assert es[..|es|] == es;
        Seqs.FilterKeepsDistinctKeys(es, Untouched(id), EdgeKey);
        edges := kept;
      }
    }

    /** Copies a block under a fresh id; None when the block does not exist. */
    method DuplicateBlock(id: BlockId, freshId: BlockId) returns (r: Option<Block>)
      requires Valid()
      modifies this`blocks
      ensures Valid()
      ensures id !in old(blocks) ==> r == None && blocks == old(blocks)
      ensures id in old(blocks) ==>
        r == Some(DuplicateOf(old(blocks)[id], freshId)) && blocks == old(blocks)[r.value.id := r.value]
    {
      if id !in blocks {
        return None;
      }
      var original := blocks[id];
      var copy := CreateBlock(ParamsOf(original).(id := Some(freshId), title := Some(original.title + " (Copy)"),
                                                  version := Some(1)), freshId);
      r := Some(copy);
    }

    method SetBlockImmutability(id: BlockId, level: ImmutabilityLevel)
      requires Valid()
      modifies this`blocks
      ensures Valid()
      ensures id in old(blocks) ==> blocks == old(blocks)[id := old(blocks)[id].(immutability := level)]
      ensures id !in old(blocks) ==> blocks == old(blocks)
    {
      if id in blocks {
        blocks := blocks[id := blocks[id].(immutability := level)];
      }
    }

    // -- Edges ------------------------------------------------------------------------------

    /** Creates an edge by the user, without order or label; freshId stands for `nanoid()`. */
    method CreateEdge(from: BlockId, to: BlockId, relation: RelationType, freshId: EdgeId) returns (e: Edge)
      requires Valid()
      modifies this`edges
      ensures Valid()
      ensures e == Edge(freshId, from, to, relation, None, None, "user")
      ensures edges == Seqs.Put(old(edges), e, EdgeKey)
      ensures !Seqs.HasKey(old(edges), freshId, EdgeKey) ==> edges == old(edges) + [e]
    {
      e := Edge(freshId, from, to, relation, None, None, "user");
      Seqs.PutSpec(edges, e, EdgeKey);
      edges := Seqs.Put(edges, e, EdgeKey);
    }

    method UpdateEdge(e: Edge)
      requires Valid()
      modifies this`edges
      ensures Valid()
      ensures edges == Seqs.Put(old(edges), e, EdgeKey)
      ensures forall i :: 0 <= i < |old(edges)| && old(edges)[i].id == e.id ==> edges == old(edges)[i := e]
    {
      Seqs.PutSpec(edges, e, EdgeKey);
      edges := Seqs.Put(edges, e, EdgeKey);
    }

    method DeleteEdge(id: EdgeId)
      requires Valid()
      modifies this`edges
      ensures Valid()
      ensures edges == Seqs.Filter(old(edges), EdgeIdIsNot(id))
      ensures !Seqs.HasKey(edges, id, EdgeKey)
    {
      Seqs.FilterKeepsDistinctKeys(edges, EdgeIdIsNot(id), EdgeKey);
      Seqs.FilterMembers(edges, EdgeIdIsNot(id));
      edges := Seqs.Filter(edges, EdgeIdIsNot(id));
      assert forall i :: 0 <= i < |edges| ==> edges[i] in edges;
    }

    // -- Tags -------------------------------------------------------------------------------

    method CreateTag(params: TagParams, freshId: TagId) returns (t: Tag)
      requires Valid()
      modifies this`tags
      ensures Valid()
      ensures t == NewTag(params, freshId) && tags == old(tags)[t.id := t]
    {
      t := NewTag(params, freshId);
      tags := tags[t.id := t];
    }

    method UpdateTag(t: Tag)
      requires Valid()
      modifies this`tags
      ensures Valid()
      ensures tags == old(tags)[t.id := t]
    {
      tags := tags[t.id := t];
    }

    /** Removes the tag from every block, then from the tag map. */
    method DeleteTag(id: TagId)
      requires Valid()
      modifies this`blocks, this`tags
      ensures Valid()
      ensures blocks == WithoutTagEverywhere(old(blocks), id)
      ensures tags == old(tags) - {id}
    {
      ghost var original := blocks;
      var pending := blocks.Keys;
      while pending != {}
        invariant pending <= original.Keys && blocks.Keys == original.Keys && tags == old(tags)
        invariant forall k :: k in original ==>
          blocks[k] == if k in pending then original[k] else WithoutTag(original[k], id)
        decreases pending
      {
        var k :| k in pending;
        blocks := blocks[k := WithoutTag(blocks[k], id)];
        pending := pending - {k};
      }
      tags := tags - {id};
    }

    method AddTagToBlock(bid: BlockId, tid: TagId)
      requires Valid()
      modifies this`blocks
      ensures Valid()
      ensures bid in old(blocks) ==> blocks == old(blocks)[bid := WithTag(old(blocks)[bid], tid)]
      ensures bid !in old(blocks) ==> blocks == old(blocks)
    {
      if bid in blocks && tid !in blocks[bid].tags {
        blocks := blocks[bid := blocks[bid].(tags := blocks[bid].tags + [tid])];
      }
    }

    method RemoveTagFromBlock(bid: BlockId, tid: TagId)
      requires Valid()
      modifies this`blocks
      ensures Valid()
      ensures bid in old(blocks) ==> blocks == old(blocks)[bid := WithoutTag(old(blocks)[bid], tid)]
      ensures bid !in old(blocks) ==> blocks == old(blocks)
    {
      if bid in blocks {
        blocks := blocks[bid := WithoutTag(blocks[bid], tid)];
      }
    }

    /**
     * `getInheritedTags`: the inheritable tags of the block's ancestors, nearest first,
     * each once.
     */
    method GetInheritedTags(bid: BlockId) returns (r: seq<TagId>)
      requires Valid()
      ensures r == InheritedTags(blocks, edges, tags, bid)
    {
      var visited, inherited := CollectInheritedTags(bid, {}, []);
      assert inherited == TagsAlong(tags, Chain(blocks, edges, bid, {}));
      r := Seqs.Dedup(inherited);
    }

    /** The recursive `collectInheritedTags`, with the visited set and the tag list threaded through. */
    method CollectInheritedTags(current: BlockId, visited: set<BlockId>, inherited: seq<TagId>)
      returns (visited': set<BlockId>, inherited': seq<TagId>)
      requires Valid()
      ensures inherited' == inherited + TagsAlong(tags, Chain(blocks, edges, current, visited))
      decreases (blocks.Keys + {current}) - visited
    {
      if current in visited {
        return visited, inherited;
      }
      visited' := visited + {current};
      var parent := ParentIn(blocks, edges, current);
      inherited' := inherited;
      ChainStep(blocks, edges, tags, current, visited);
      if parent.Some? {
        var parentTags := Seqs.Filter(parent.value.tags, IsInheritable(tags));
        inherited' := inherited' + parentTags;
        visited', inherited' := CollectInheritedTags(parent.value.id, visited', inherited');
      }
    }

    // -- Selection and view -----------------------------------------------------------------

    method SelectBlock(id: Option<BlockId>)
      requires Valid()
      modifies this`selectedBlockId, this`selectedEdgeId
      ensures Valid()
      ensures selectedBlockId == id && selectedEdgeId == None
    {
      selectedBlockId := id;
      selectedEdgeId := None;
    }

    method SelectEdge(id: Option<EdgeId>)
      requires Valid()
      modifies this`selectedBlockId, this`selectedEdgeId
      ensures Valid()
      ensures selectedEdgeId == id && selectedBlockId == None
    {
      selectedEdgeId := id;
      selectedBlockId := None;
    }

    method SetViewMode(mode: ViewMode)
      modifies this`viewMode
      ensures viewMode == mode
    {
      viewMode := mode;
    }

    method UpdateVisibleNodes(blockIds: seq<BlockId>, edgeIds: seq<EdgeId>)
      modifies this`visibleBlockIds, this`visibleEdgeIds
      ensures visibleBlockIds == set x | x in blockIds && visibleEdgeIds == set x | x in edgeIds
    {
      visibleBlockIds := set x | x in blockIds;
      visibleEdgeIds := set x | x in edgeIds;
    }

    // -- Traversal --------------------------------------------------------------------------

    /**
     * `getDescendants`: the children of the block, then those reached below them, up to
     * maxDepth levels. Every result is a stored child and a descendant of the block on a
     * level within maxDepth; with the default unbounded maxDepth, every descendant is listed.
     */
    method GetDescendants(bid: BlockId, maxDepth: Option<int>) returns (r: seq<Block>)
      requires Valid()
      ensures forall x :: x in r ==> StoredChild(blocks, edges, x)
      ensures forall x :: x in r ==> Reaches(blocks, edges, bid, 0, maxDepth, x)
      ensures maxDepth.None? ==> forall x, l: nat :: DescendantAt(blocks, edges, bid, x, l) ==> x in r
      ensures !Below(0, maxDepth) ==> r == []
      ensures Below(0, maxDepth) ==> |Children(blocks, edges, bid)| <= |r|
                                     && r[..|Children(blocks, edges, bid)|] == Children(blocks, edges, bid)
      ensures maxDepth == Some(1) ==> r == Children(blocks, edges, bid)
    {
      var visited;
      visited, r := Descend(bid, 0, maxDepth, {}, []);
      assert r[..|r|] == r;
      forall x | x in r ensures StoredChild(blocks, edges, x) && Reaches(blocks, edges, bid, 0, maxDepth, x) {
        var k :| 0 <= k < |r| && r[k] == x;
      }
      if maxDepth.None? {
        assert forall u :: u in visited ==> Closed(blocks, edges, u, r, visited);
        forall x, l: nat | DescendantAt(blocks, edges, bid, x, l) ensures x in r {
          ClosedCollectsDescendants(blocks, edges, r, visited, bid, x, l);
        }
      }
    }

    /** The recursive `traverse` of getDescendants, with the visited set and the result threaded through. */
    method Descend(current: BlockId, depth: nat, maxDepth: Option<int>, visited: set<BlockId>, acc: seq<Block>)
      returns (visited': set<BlockId>, acc': seq<Block>)
      requires Valid()
      ensures visited <= visited'
      ensures Below(depth, maxDepth) ==> current in visited'
      ensures |acc| <= |acc'| && acc'[..|acc|] == acc
      ensures ListedBelow(blocks, edges, current, depth, maxDepth, acc', |acc|)
      ensures maxDepth.None? ==> ClosedSince(blocks, edges, visited, {}, acc', visited')
      ensures !Below(depth, maxDepth) || current in visited ==> acc' == acc
      ensures Below(depth, maxDepth) && current !in visited ==>
        |acc + Children(blocks, edges, current)| <= |acc'|
        && acc'[..|acc + Children(blocks, edges, current)|] == acc + Children(blocks, edges, current)
      ensures !Below(depth + 1, maxDepth) ==>
        acc' == acc + (if Below(depth, maxDepth) && current !in visited then Children(blocks, edges, current) else [])
      decreases (blocks.Keys + {current}) - visited
    {
      if !Below(depth, maxDepth) || current in visited {
        return visited, acc;
      }
      visited' := visited + {current};
      var children := Children(blocks, edges, current);
      ChildrenStored(blocks, edges, current);
      acc' := acc + children;
      ListChildren(blocks, edges, current, depth, maxDepth, acc);
      var i := 0;
      while i < |children|
        invariant 0 <= i <= |children|
        invariant visited + {current} <= visited'
        invariant |acc + children| <= |acc'| && acc'[..|acc + children|] == acc + children
        invariant ListedBelow(blocks, edges, current, depth, maxDepth, acc', |acc|)
        invariant maxDepth.None? ==> IdsVisited(children, i, visited')
        invariant maxDepth.None? ==> ClosedSince(blocks, edges, visited, {current}, acc', visited')
        invariant !Below(depth + 1, maxDepth) ==> acc' == acc + children
      {
        ghost var before, seen := acc', visited';
        assert StoredChild(blocks, edges, children[i]);
        visited', acc' := Descend(children[i].id, depth + 1, maxDepth, visited', acc');
        ExtendsPrefix(acc + children, before, acc');
        ListThroughChild(blocks, edges, current, depth, maxDepth, children[i], |acc|, before, acc');
        if maxDepth.None? {
          CloseThroughChild(blocks, edges, visited, current, before, seen, acc', visited');
          IdsVisitedStep(children, i, seen, visited');
        }
        i := i + 1;
      }
      if maxDepth.None? {
        CloseCurrent(blocks, edges, current, acc, acc', visited');
      }
    }

    /** A prefix of a prefix is a prefix of the longer sequence. */
    static lemma ExtendsPrefix(p: seq<Block>, s: seq<Block>, t: seq<Block>)
      requires |p| <= |s| <= |t| && s[..|p|] == p && t[..|s|] == s
      ensures t[..|p|] == p
    {
      assert t[..|p|] == t[..|s|][..|p|];
    }

    // -- Import and reset -------------------------------------------------------------------

    /**
     * `importData` on an already-parsed document: None (text that does not parse) changes
     * nothing; otherwise the three maps are cleared and refilled from the document's arrays.
     */
    method ImportData(data: Option<ImportData>)
      requires Valid()
      modifies this`blocks, this`edges, this`tags
      ensures Valid()
      ensures data.None? ==> blocks == old(blocks) && edges == old(edges) && tags == old(tags)
      ensures data.Some? ==>
        blocks == Seqs.IndexBy(Or(data.value.blocks, []), BlockKey)
        && edges == Seqs.PutAll(Or(data.value.edges, []), EdgeKey)
        && tags == Seqs.IndexBy(Or(data.value.tags, []), TagKey)
    {
      if data.None? {
        return;
      }
      blocks := Seqs.IndexEach(Or(data.value.blocks, []), BlockKey);
      edges := Seqs.PutEach(Or(data.value.edges, []), EdgeKey);
      tags := Seqs.IndexEach(Or(data.value.tags, []), TagKey);
    }

    method ClearAll()
      requires Valid()
      modifies this`blocks, this`edges, this`tags, this`selectedBlockId, this`selectedEdgeId
      ensures Valid()
      ensures blocks == map[] && edges == [] && tags == map[]
      ensures selectedBlockId == None && selectedEdgeId == None
    {
      blocks := map[];
      edges := [];
      tags := map[];
      selectedBlockId := None;
      selectedEdgeId := None;
    }
  }
}
