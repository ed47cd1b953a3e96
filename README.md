# Knowledge-graph block system: a verified model of its core

This project models, in Dafny, the core of a block-based knowledge-graph editor:

- the document compositor, which walks the typed edges from a root block and assembles a document from the blocks it reaches;
- the central block store, with block, edge and tag CRUD, its immutability tiers and its structural queries;
- the template registry and block validation;
- the chunker's lookup tables, plan assembly, plan warnings and paragraph fallback;
- the scheduler of the automation runner, which picks the next task and agent;
- the integer and string utilities;
- the pure rules embedded in the dashboard, graph view and block editor components.

One module per source file:

- `Types` (types.dfy): the block, edge, tag and template records of src/types/index.ts.
- `Compositor` (compositor.dfy): src/lib/compositor/index.ts.
- `BlockStore` (blockstore.dfy): src/stores/blockStore.ts.
- `Templates` (templates.dfy): src/lib/templates/index.ts.
- `Chunking` (chunking.dfy): src/lib/llm/chunking.ts.
- `AgentRunner` (agent_runner.dfy): automation/agent_runner.py.
- `Utils` (utils.dfy): src/lib/utils.ts.
- `Dashboard`, `GraphView`, `BlockEditor` (dashboard.dfy, graphview.dfy, blockeditor.dfy): the pure rules of the three components.
- `Seqs`, `Sorting`, `Text`, `EdgeQueries` (seqs.dfy, sorting.dfy, text.dfy, edges.dfy): the runtime behaviour the code relies on. This covers Array `filter`/`find`, the stable `sort`, `Map.set` on an insertion-ordered map, ASCII case mapping, `trim` and `split`.

## How the code is modelled

Code that changes state is written as classes with `modifies` clauses, and its loops carry invariants:

- `Compositor.DocumentCompositor` has the fields `visited`, `assembled` and `toc`, plus a ghost record of the depth of each visit. Its recursive `TraverseBlock` is proved against the ghost functions `Traverse`/`TraverseAll`, which describe the walk on a `Walk` value.
- `BlockStore.Store` holds the block and tag maps, the edge map, the selection and the view state. Its actions reassign them.
- `Templates.TemplateFactory` holds the template registry.
- `AgentRunner.Orchestrator` holds the runner's state record.
- `hashString`, `groupBy`, `getBlockDepth`, `getMaxDepth`, the markdown loops, `validatePlan`, the plan assembly and the fallback loop are methods with loops. Each is proved equal to a specification function, and the properties are proved about that function.

Code that only computes becomes functions and lemmas. This covers the component rules, the lookup tables, `truncate`, `clamp`, `formatRelativeTime` and `isColorDark`.

A JavaScript `Map` that the code scans in insertion order is a sequence, where `Map.set` replaces an entry in place or appends one. The edge maps of the store and the compositor, the template registry and `groupBy`'s result are modelled this way. Maps whose order no modelled operation observes are Dafny maps; these are the block and tag maps of the store.

Generated ids are parameters of the operations, and so are the clock, `nanoid()` and `Date.now()`:

- the store takes the fresh id as an argument;
- the chunker consumes a supply `supply(0), supply(1), …` in the order the source calls `nanoid()`.

The separators that the source text writes as `'\\n'` (compositor markdown) and `/\\s+/`, `/\\n\\n+/` (compositor `countWords`, chunker word count and paragraph split) are modelled as written: a backslash followed by a letter. The lemmas `Compositor.CountWordsWithoutBackslash`, `Chunking.PlainTextIsOneWord` and `Chunking.FallbackOfPlainText` state what follows: ordinary white space and newlines separate nothing there. The block editor's `/\s+/` is a real whitespace pattern and is modelled as one.

## Model

| member | source | states |
|---|---|---|
| Compositor.EffectiveBound | src/lib/compositor/index.ts:75-81 | `config.maxDepth \|\| Infinity`: the bound is infinite exactly when maxDepth is missing or 0, and otherwise it is maxDepth itself |
| Compositor.RelatedIn | src/lib/compositor/index.ts:208-230 | the related blocks of a block are existing blocks of the graph |
| Compositor.RelatedExact | src/lib/compositor/index.ts:208-230 | a block is related exactly when some edge from the block, with a followed relation, targets an existing block equal to it |
| Compositor.OrderedRelated | src/lib/compositor/index.ts:157-161 | the children the walk descends into are existing blocks |
| Compositor.ChildrenOrder | src/lib/compositor/index.ts:157-161 | with respectOrder, the children are the related blocks sorted by edge order, as a permutation, and stably (each order key keeps the original relative order); without it, they are the related blocks unchanged |
| Compositor.SiblingsIn | src/lib/compositor/index.ts:235-266 | siblings are existing blocks |
| Compositor.Siblings | src/lib/compositor/index.ts:235-266 | siblings are existing blocks |
| Compositor.SiblingsExact | src/lib/compositor/index.ts:235-266 | no structural parent edge gives no siblings; otherwise a block is a sibling exactly when it is the existing target of a PARENT_OF/CONTAINS_ORDERED edge from the first parent to a block other than this one |
| Compositor.SiblingsInExact | src/lib/compositor/index.ts:248-265 | membership in the sibling scan of one parent, both directions |
| Compositor.Traverse | src/lib/compositor/index.ts:117-203 | a walk step only adds ids, and only ids of existing blocks |
| Compositor.TraverseAll | src/lib/compositor/index.ts:165-202 | the walk over a list of blocks only adds ids of existing blocks |
| Compositor.VisitOk | src/lib/compositor/index.ts:143-144 | visiting an unvisited, existing block that passes the filter below the bound keeps the walk invariant: visited ids are exactly the assembled ids, no id repeats, and each block passes the filter at a depth below the bound |
| Compositor.TraverseOk | src/lib/compositor/index.ts:117-203 | a traversal keeps the walk invariant and only extends the assembled blocks and their depths |
| Compositor.TraverseAllOk | src/lib/compositor/index.ts:165-202 | traversing a list of blocks keeps the walk invariant and only extends the walk |
| Compositor.TraverseIgnoresStrategy | src/lib/compositor/index.ts:117-203 | the walk is the same for any strategy and any profile maxDepth: neither is read |
| Compositor.TraverseAllIgnoresStrategy | src/lib/compositor/index.ts:165-202 | the same for a list of blocks |
| Compositor.AssembledWalkFacts | src/lib/compositor/index.ts:63-81 | the walk of `assemble` never assembles an id twice; it holds only existing blocks that pass the tag filter, each at a depth below the effective bound; the root comes first at depth 0; nothing is assembled exactly when the root fails the bound or the filter |
| Compositor.NegativeMaxDepthAssemblesNothing | src/lib/compositor/index.ts:80 | a negative maxDepth assembles no block |
| Compositor.AssembledWalkIgnoresStrategy | src/lib/compositor/index.ts:75-81 | 'breadth-first' assembles the same blocks as 'depth-first'; traversalProfile.maxDepth has no effect |
| Compositor.TocExact | src/lib/compositor/index.ts:147-154 | the table of contents has one entry per visited structural parent, and its entries are exactly "block-"+id, title and visit depth of those visits |
| Compositor.TocHasSnoc | src/lib/compositor/index.ts:147-154 | a new TOC entry comes from the last visit exactly when that block is a structural parent |
| Compositor.DepthWithinUnique | src/lib/compositor/index.ts:453-479 | the depth of a block does not depend on the step allowance used to compute it |
| Compositor.ChainEndsWithinMonotone | src/lib/compositor/index.ts:457-476 | a parent chain that ends within n steps ends within any larger allowance |
| Compositor.BlockDepthStep | src/lib/compositor/index.ts:457-476 | `getBlockDepth` is 0 for a block without an existing structural parent, and otherwise 1 plus its parent's depth |
| Compositor.HeadingLevel | src/lib/compositor/index.ts:327 | `min(depth+1, 6)` lies in 1..6 and is depth+1 unless capped at 6 |
| Compositor.WalkDepthsKnown | src/lib/compositor/index.ts:439-448 | when every parent chain ends, every assembled block has a depth |
| Compositor.Contents | src/lib/compositor/index.ts:332 | the contents list has the blocks' contents in order |
| Compositor.PlainBody | src/lib/compositor/index.ts:324-338 | with no structural parent among the blocks, the markdown body is their contents joined by two line separators |
| Compositor.PlainBodyUpTo | src/lib/compositor/index.ts:324-338 | the same for each prefix of the loop, with the trailing separator after a non-final block |
| Compositor.JsonOf | src/lib/compositor/index.ts:403-423 | the JSON record lists exactly the assembled blocks in order, with id, content and tags, with blockCount equal to their number and the TOC unchanged |
| Compositor.StripTags | src/lib/compositor/index.ts:430 | removing `<…>` tags only shortens the text, keeps only its characters, and leaves no '<' before a '>' |
| Compositor.CountWordsWithoutBackslash | src/lib/compositor/index.ts:428-434 | with the separator as written, a text without backslashes counts 1 word, or 0 when it is blank once its tags are removed |
| Compositor.MaxDepthOf | src/lib/compositor/index.ts:439-448 | traversalDepth bounds the depth of every assembled block and is 0 or one of those depths |
| Compositor.MaxDepthSnoc | src/lib/compositor/index.ts:442-445 | each loop step takes the maximum with the next block's depth |
| Compositor.DocumentCompositor.constructor | src/lib/compositor/index.ts:51-58 | the compositor holds the given maps, with an empty walk and an empty TOC |
| Compositor.DocumentCompositor.Assemble | src/lib/compositor/index.ts:63-112 | a missing root gives the "Root block … not found" error and leaves the walk empty; otherwise the state is reset and the result holds the assembled walk of the configuration whatever came before, the TOC, the content of the chosen format, and the metadata: block count, word count, traversal depth and elapsed time |
| Compositor.DocumentCompositor.TraverseBlock | src/lib/compositor/index.ts:117-203 | the recursive method changes the visited set, assembled list, depths and TOC exactly as `Traverse` describes |
| Compositor.DocumentCompositor.TraverseChildren | src/lib/compositor/index.ts:165-186 | the children loop performs `TraverseAll` at depth+1 |
| Compositor.DocumentCompositor.TraverseSiblings | src/lib/compositor/index.ts:189-202 | the siblings loop performs `TraverseAll` at the same depth |
| Compositor.DocumentCompositor.MarkVisited | src/lib/compositor/index.ts:143-154 | a visit adds the id, appends the block, and pushes a TOC entry exactly for a structural parent |
| Compositor.DocumentCompositor.GetRelatedBlocks | src/lib/compositor/index.ts:208-230 | the loop returns the related blocks in edge order |
| Compositor.DocumentCompositor.GetSiblings | src/lib/compositor/index.ts:235-266 | the method returns the siblings of the block |
| Compositor.DocumentCompositor.GetBlockDepth | src/lib/compositor/index.ts:453-479 | the while loop returns the parent-chain depth of the block |
| Compositor.DocumentCompositor.GetMaxDepth | src/lib/compositor/index.ts:439-448 | the loop returns the maximum depth over the assembled blocks |
| Compositor.DocumentCompositor.GenerateMarkdown | src/lib/compositor/index.ts:301-341 | the markdown is the optional metadata header, the optional TOC section, then the body |
| Compositor.DocumentCompositor.GenerateTocLines | src/lib/compositor/index.ts:316-319 | one indented link line per TOC entry, in order |
| Compositor.DocumentCompositor.GenerateBody | src/lib/compositor/index.ts:324-338 | the body is, per block, a heading for structural parents, the content, and a gap unless last |
| Compositor.DocumentCompositor.GenerateHeading | src/lib/compositor/index.ts:326-329 | a heading of level min(depth+1,6) only for structural parents |
| EdgeQueries.FirstEdgeIntoFinds | src/lib/compositor/index.ts:458-463 | `edges.find` returns nothing exactly when no edge enters the block, and otherwise the first such edge in map order |
| BlockStore.NewBlockDefaults | src/stores/blockStore.ts:104-130 | an empty parameter set creates a NOTE titled 'Untitled Block' with template 'default', DRAFT, MUTABLE, version 1, by 'user', with the fresh id |
| BlockStore.NewBlockFromBlock | src/stores/blockStore.ts:104-130 | every given parameter overrides its default |
| BlockStore.DuplicateDiffersOnlyInIdTitleVersion | src/stores/blockStore.ts:160-174 | a duplicate differs from the original only in its fresh id, the " (Copy)" title and version 1 |
| BlockStore.NewTagDefaults | src/stores/blockStore.ts:225-243 | a tag is inheritable only when explicitly asked; the defaults are 'New Tag', custom, not inheritable, not pinned, #3B82F6 |
| BlockStore.DeleteBlockLeavesNoDanglingEdges | src/stores/blockStore.ts:143-158 | after the cascade no edge touches the deleted block, and edges attached to existing blocks stay attached |
| BlockStore.ImmutabilityTiers | src/stores/blockStore.ts:132-158 | updating an IMMUTABLE block changes nothing, a LOCKED block is still updated with version+1, only MUTABLE blocks are deletable, and other blocks are untouched |
| BlockStore.WithoutTagEverywhere | src/stores/blockStore.ts:251-260 | deleting a tag keeps every block and removes the tag from each block's tags, changing nothing else |
| BlockStore.AddTagProperties | src/stores/blockStore.ts:262-280 | adding a tag puts it in the list, is idempotent, keeps the list free of duplicates, and is undone by removing a tag that was absent |
| Seqs.WithoutAppended | src/stores/blockStore.ts:272-280 | filtering out a just-appended tag that was absent restores the list |
| BlockStore.Targets | src/stores/blockStore.ts:341-343 | there are no more targets than edges |
| BlockStore.TargetsMembers | src/stores/blockStore.ts:341-343 | the targets are exactly the existing blocks that the edges point to |
| BlockStore.ChildrenExact | src/stores/blockStore.ts:335-352 | `getChildren` returns exactly the existing targets of PARENT_OF/CONTAINS_ORDERED edges from the block, as a permutation of them, stably sorted by edge order |
| BlockStore.ChildrenStored | src/stores/blockStore.ts:335-352 | every child is a stored block reached by a structural edge |
| BlockStore.ParentStored | src/stores/blockStore.ts:354-364 | `getParent`, through the first incoming structural edge, returns a stored block |
| BlockStore.SiblingsExact | src/stores/blockStore.ts:386-393 | no parent gives no siblings; otherwise the siblings are exactly the parent's children other than the block itself |
| BlockStore.BlockEdges | src/stores/blockStore.ts:216-222 | incoming edges are exactly those into the block, outgoing exactly those from it |
| BlockStore.ChainStep | src/stores/blockStore.ts:282-303 | the ancestor walk stops without a parent; otherwise it collects the parent's inheritable tags, then continues from the parent with the current block marked visited |
| BlockStore.TagsAlongMembers | src/stores/blockStore.ts:290-296 | a collected tag is exactly an existing inheritable tag carried by a block of the chain |
| BlockStore.InheritedTagsExact | src/stores/blockStore.ts:282-303 | `getInheritedTags` has no duplicates and returns exactly the existing inheritable tags of the ancestors; nothing without a parent; every inheritable tag of the parent |
| BlockStore.Store.constructor | src/stores/blockStore.ts:92-101 | the initial state: empty maps, no selection, graph view, nothing loading, empty visible sets |
| BlockStore.Store.CreateBlock | src/stores/blockStore.ts:104-130 | the new block with its defaults is stored under its id and no other entry changes |
| BlockStore.Store.UpdateBlock | src/stores/blockStore.ts:132-141 | the block map becomes the immutability-respecting update |
| BlockStore.Store.DeleteBlock | src/stores/blockStore.ts:143-158 | a MUTABLE block is removed with exactly the edges that touch it; otherwise nothing changes |
| BlockStore.Store.DuplicateBlock | src/stores/blockStore.ts:160-174 | a missing id gives null and changes nothing; otherwise the copy is returned and stored |
| BlockStore.Store.SetBlockImmutability | src/stores/blockStore.ts:176-184 | the level is set unconditionally, even on IMMUTABLE blocks; a missing block changes nothing |
| BlockStore.Store.CreateEdge | src/stores/blockStore.ts:187-202 | the new edge is stored under its fresh id, appended when the id is new |
| BlockStore.Store.UpdateEdge | src/stores/blockStore.ts:204-208 | the edge replaces the one with its id in place, or is appended |
| BlockStore.Store.DeleteEdge | src/stores/blockStore.ts:210-214 | exactly the edge with that id is removed |
| BlockStore.Store.CreateTag | src/stores/blockStore.ts:225-243 | the new tag is stored under its id |
| BlockStore.Store.UpdateTag | src/stores/blockStore.ts:245-249 | the tag is stored under its id |
| BlockStore.Store.DeleteTag | src/stores/blockStore.ts:251-260 | the tag leaves the tag map and every block's tags |
| BlockStore.Store.AddTagToBlock | src/stores/blockStore.ts:262-270 | only the named block changes, and it gains the tag once |
| BlockStore.Store.RemoveTagFromBlock | src/stores/blockStore.ts:272-280 | only the named block changes, and it loses every occurrence of the tag |
| BlockStore.Store.GetInheritedTags | src/stores/blockStore.ts:282-303 | the loop returns the inherited tags of the block |
| BlockStore.Store.CollectInheritedTags | src/stores/blockStore.ts:287-300 | the cycle-guarded recursion appends the tags collected along the ancestor chain |
| BlockStore.Store.SelectBlock | src/stores/blockStore.ts:306-311 | selecting a block clears the edge selection |
| BlockStore.Store.SelectEdge | src/stores/blockStore.ts:313-318 | selecting an edge clears the block selection |
| BlockStore.Store.SetViewMode | src/stores/blockStore.ts:321-325 | the view mode is set |
| BlockStore.Store.UpdateVisibleNodes | src/stores/blockStore.ts:327-332 | the visible sets become the given ids |
| BlockStore.Store.GetDescendants | src/stores/blockStore.ts:366-384 | every result is a stored child and a descendant of the block on a level within maxDepth; with the default unbounded maxDepth every descendant, at any level, is listed; nothing when the depth bound excludes 0; otherwise the direct children come first; with maxDepth 1, exactly the children |
| BlockStore.Store.Descend | src/stores/blockStore.ts:370-380 | the visited-guarded recursion only extends its accumulator, with the current block's children first and then only its descendants within maxDepth; unbounded, every block it newly visits ends with all its children listed and visited |
| BlockStore.ClosedCollectsDescendants | src/stores/blockStore.ts:370-381 | once every visited block has had all its children collected and visited, every descendant of a visited block, at any level, has been collected |
| BlockStore.Store.ImportData | src/stores/blockStore.ts:407-431 | missing data changes nothing; otherwise each map is rebuilt from the given lists, the last entry per id winning |
| BlockStore.Store.ClearAll | src/stores/blockStore.ts:433-441 | all three maps and both selections are emptied |
| Templates.DefaultTemplatesCoverTypes | src/lib/templates/index.ts:475-491 | the built-in ids are distinct and include every id of the type table, so a fresh factory never falls back; DATA_SOURCE, FILTER and NOTE share 'default' |
| Templates.DefaultTemplateIds | src/lib/templates/index.ts:11-457 | there are eight built-in templates, with the listed ids, all distinct |
| Templates.CheckPriorityExact | src/lib/templates/index.ts:107-116 | the priority check passes exactly for low/medium/high/critical and otherwise reports its one error |
| Templates.MissingFieldErrorsExact | src/lib/templates/index.ts:526-530 | one "Required field '<label>' is missing" per missing or undefined required field, in declaration order |
| Templates.ValidationExact | src/lib/templates/index.ts:540-543 | valid exactly when there are no errors; a missing required field makes the block invalid |
| Templates.RequirementValidation | src/lib/templates/index.ts:44-116 | a block is valid for 'requirement' exactly when priority and acceptanceCriteria are present and the priority is one of the four levels |
| Templates.CollectMissing | src/lib/templates/index.ts:526-530 | the required-fields loop collects the missing-field errors |
| Templates.RunValidators | src/lib/templates/index.ts:533-538 | the validators loop collects the errors of failing validators |
| Templates.TemplateFactory.constructor | src/lib/templates/index.ts:461-463 | the registry starts as the built-in templates |
| Templates.TemplateFactory.GetTemplateForType | src/lib/templates/index.ts:475-491 | always returns a registered template: the table's template, or 'default' only when that one is not registered |
| Templates.TemplateFactory.RegisterTemplate | src/lib/templates/index.ts:496-498 | afterwards `getTemplate(t.id) == t`, and every other id looks up as before |
| Templates.TemplateFactory.GetTemplatesByCategory | src/lib/templates/index.ts:510-512 | exactly the registered templates of that category |
| Templates.TemplateFactory.ValidateBlock | src/lib/templates/index.ts:517-543 | an unknown template gives `{false, ['Template not found']}`; otherwise the result is the template's validation |
| Chunking.LookupSpec | src/lib/llm/chunking.ts:314 | a lookup in a table with distinct names gives the named entry's value, or the fallback when no entry is named key |
| Chunking.BlockTypeTableDistinct | src/lib/llm/chunking.ts:302-312 | the block-type table has distinct names |
| Chunking.MapBlockTypeTable | src/lib/llm/chunking.ts:301-315 | IMPLEMENTATION exactly for 'impl'/'implementation', DATA_SOURCE exactly for 'data'/'data.source', unknown names give NOTE, and the result is never ASSEMBLER, DASHBOARD_BLOCK or FILTER |
| Chunking.BlockTypeTableValues | src/lib/llm/chunking.ts:302-312 | the nine entries of the table, as listed |
| Chunking.MapBlockTypeIgnoresCase | src/lib/llm/chunking.ts:314 | the mapping is case-insensitive |
| Chunking.MapBlockTypeOfCode | src/lib/llm/chunking.ts:302-314 | each type's own code maps back to it, except 'manifest'… which maps to MANIFEST only through its table entry (its code is 'doc.manifest') |
| Chunking.BlockTypeTableCodes | src/lib/llm/chunking.ts:302-312 | the table entries pair the types' codes with the types |
| Chunking.TemplateTableDistinct | src/lib/llm/chunking.ts:321-329 | the template table has distinct names and only known template ids |
| Chunking.TemplateForUnknownName | src/lib/llm/chunking.ts:320-332 | unknown names, 'implementation' and 'data' included, give 'default' |
| Chunking.TablesDisagree | src/lib/llm/chunking.ts:301-332 | 'implementation' and 'data' map to IMPLEMENTATION and DATA_SOURCE but to template 'default' |
| Chunking.ChunkTemplatesRegistered | src/lib/llm/chunking.ts:320-332 | every chunk template is a built-in template id except 'data-source', which is not one |
| Chunking.RelationTableDistinct | src/lib/llm/chunking.ts:338-347 | the relation table has distinct names |
| Chunking.MapRelationTypeTable | src/lib/llm/chunking.ts:337-350 | upper-cased lookup: DEPENDS_ON and CONTAINS_ORDERED map to themselves, unknown names give LINKS, and THREAD_OF, ATTACHED_TO, CONTRADICTS, ELABORATES never come out |
| Chunking.RelationTableValues | src/lib/llm/chunking.ts:338-347 | the eight entries, none of the four unreachable relations |
| Chunking.MapRelationTypeIgnoresCase | src/lib/llm/chunking.ts:349 | the mapping is case-insensitive |
| Chunking.TypedUpToExact | src/lib/llm/chunking.ts:222 | assembly proceeds exactly when every chunk names a type (`type.toLowerCase()` throws otherwise) |
| Chunking.ChunkBlocksAt | src/lib/llm/chunking.ts:216-241 | chunk i becomes the block built from it with index i and the (base+i)-th fresh id |
| Chunking.ContainsEdgesAt | src/lib/llm/chunking.ts:247-257 | block i gets the CONTAINS_ORDERED edge from the manifest with order i |
| Chunking.IdMapKeys | src/lib/llm/chunking.ts:213-218 | blockIdMap has exactly the key 'manifest' and the chunk keys |
| Chunking.IdMapLastWins | src/lib/llm/chunking.ts:218 | a chunk key maps to the id of the last chunk that has it |
| Chunking.IdMapManifest | src/lib/llm/chunking.ts:214 | 'manifest' maps to the manifest id unless a chunk reuses that key |
| Chunking.IdMapValuesNonEmpty | src/lib/llm/chunking.ts:213-218 | all mapped ids are non-empty, so `if (fromId && toId)` reduces to "both keys resolve" |
| Chunking.ResolvesExact | src/lib/llm/chunking.ts:261-264 | a key resolves exactly when it is 'manifest' or some chunk's key |
| Chunking.KeptTypedUpToExact | src/lib/llm/chunking.ts:264-269 | assembly proceeds exactly when every kept edge names a type |
| Chunking.ResolvedCountMonotone | src/lib/llm/chunking.ts:260-275 | the number of kept edges grows with the prefix, strictly at a kept edge |
| Chunking.SemanticEdgesAt | src/lib/llm/chunking.ts:260-275 | an edge is kept exactly when both endpoints resolve, in order, mapped through the relation table; dropped edges leave no trace |
| Chunking.ReplyBlocks | src/lib/llm/chunking.ts:191-241 | blocks[0] is the manifest; block i+1 comes from chunk i, with its mapped type, its template and originalIndex i |
| Chunking.ReplyContainsEdges | src/lib/llm/chunking.ts:247-257 | each chunk i has its CONTAINS_ORDERED edge from the manifest with order i, first in the edge list |
| Chunking.ReplySemanticEdges | src/lib/llm/chunking.ts:260-275 | the kept model-proposed edges follow the containment edges |
| Chunking.ChunkBlockFields | src/lib/llm/chunking.ts:227-230 | a chunk block records its originalIndex |
| Chunking.AssembledPlanHasNoOrphans | src/lib/llm/chunking.ts:247-257 | a plan built from a reply never gets a "no relationships" warning, since every chunk is contained by the manifest |
| Chunking.LinkedBlocksAreNoOrphans | src/lib/llm/chunking.ts:425-434 | when every non-manifest block is the target of an edge, there are no orphan warnings |
| Chunking.PlanFromReplyParts | src/lib/llm/chunking.ts:278-289 | the plan holds the reply's blocks and edges, the manifest as blocks[0], and the size warnings of validatePlan |
| Chunking.PlanFromReplyIsPlanOf | src/lib/llm/chunking.ts:278-289 | the plan record field by field: fresh id, the first 100 characters of the source, 'pending' |
| Chunking.BuildChunkBlocks | src/lib/llm/chunking.ts:216-241 | the chunk loop succeeds exactly when every chunk names a type, and builds the chunk blocks and blockIdMap |
| Chunking.BuildContainsEdges | src/lib/llm/chunking.ts:247-257 | the loop builds the containment edges |
| Chunking.BuildSemanticEdges | src/lib/llm/chunking.ts:260-275 | the loop keeps exactly the resolving edges, and fails exactly when a kept edge names no type |
| Chunking.AssemblePlan | src/lib/llm/chunking.ts:191-291 | plan assembly succeeds exactly when the reply assembles, and then gives the plan of the reply |
| Chunking.ReplyEdgesAre | src/lib/llm/chunking.ts:244-275 | the edge list is the containment edges followed by the kept edges |
| Chunking.ReplyEdgeListIs | src/lib/llm/chunking.ts:244-275 | the same, stated for any reply that assembles |
| Chunking.BuildReplyParts | src/lib/llm/chunking.ts:191-275 | the blocks and edges of a reply, with the count of ids consumed |
| Chunking.BuildReplyEdges | src/lib/llm/chunking.ts:244-275 | the edges of a reply, with the count of ids consumed |
| Chunking.ParseChunkingResponse | src/lib/llm/chunking.ts:173-296 | no parsed reply gives the fallback plan; a reply that assembles gives its plan; a reply whose assembly throws gives the fallback plan with later fresh ids |
| Chunking.EndpointsExact | src/lib/llm/chunking.ts:424-428 | connectedBlocks holds exactly the endpoints of the edges |
| Chunking.WordCount | src/lib/llm/chunking.ts:438 | the piece count is at least 1 |
| Chunking.PlainTextIsOneWord | src/lib/llm/chunking.ts:438 | with the pattern as written, a content without backslashes counts as one word |
| Chunking.OrphanWarnings | src/lib/llm/chunking.ts:430-434 | at most one warning per block |
| Chunking.OrphanWarningsExact | src/lib/llm/chunking.ts:430-434 | a warning is issued for every non-manifest block without an edge, and for no other block |
| Chunking.OrphanWarningsCount | src/lib/llm/chunking.ts:430-434 | exactly one warning per orphaned block |
| Chunking.NoOrphansNoWarnings | src/lib/llm/chunking.ts:430-434 | no orphans, no orphan warnings |
| Chunking.SizeWarningsExact | src/lib/llm/chunking.ts:437-445 | "very short" for every non-manifest block under 10 words, "very long" for every block over 1000, and no other size warning |
| Chunking.SizeWarningsComplete | src/lib/llm/chunking.ts:437-445 | every short or long block is warned about |
| Chunking.SizeWarningsSound | src/lib/llm/chunking.ts:437-445 | every size warning names a short or long block |
| Chunking.PlainBlocksAreShort | src/lib/llm/chunking.ts:438-441 | with the pattern as written, every non-manifest block without backslashes is reported very short with 1 word |
| Chunking.CollectEndpoints | src/lib/llm/chunking.ts:424-428 | the loop collects the endpoints |
| Chunking.ValidatePlan | src/lib/llm/chunking.ts:420-448 | the warnings are the orphan warnings followed by the size warnings |
| Chunking.CollectOrphanWarnings | src/lib/llm/chunking.ts:430-434 | the loop collects the orphan warnings |
| Chunking.CollectSizeWarnings | src/lib/llm/chunking.ts:437-445 | the loop collects the size warnings |
| Chunking.Paragraphs | src/lib/llm/chunking.ts:460 | a split yields at least one paragraph |
| Chunking.NonBlankIndicesExact | src/lib/llm/chunking.ts:482-483 | the kept paragraph indices are exactly the non-blank ones, ascending |
| Chunking.FallbackPartsAt | src/lib/llm/chunking.ts:482-513 | the k-th fallback block is the k-th non-blank paragraph, trimmed, with its CONTAINS_ORDERED edge of order equal to the paragraph's index |
| Chunking.FallbackPartsStep | src/lib/llm/chunking.ts:482-513 | one loop step adds a block and an edge exactly for a non-blank paragraph |
| Chunking.FallbackPartsShape | src/lib/llm/chunking.ts:482-513 | each edge links the manifest to its NOTE block with the trimmed non-blank paragraph as content; orders ascend strictly, gaps allowed; every non-blank paragraph has its edge |
| Chunking.FallbackEdgesLinkParagraphs | src/lib/llm/chunking.ts:482-513 | each edge links the manifest to its block, whose content is its paragraph trimmed |
| Chunking.FallbackOrdersAscend | src/lib/llm/chunking.ts:507-508 | the edge orders ascend strictly |
| Chunking.FallbackCoversParagraphs | src/lib/llm/chunking.ts:482-483 | every non-blank paragraph gets an edge with its index as order |
| Chunking.FallbackEdgeCount | src/lib/llm/chunking.ts:482-513 | one edge per non-blank paragraph |
| Chunking.FallbackEdgeAt | src/lib/llm/chunking.ts:482-513 | the k-th edge belongs to the k-th non-blank paragraph |
| Chunking.FallbackPlanShape | src/lib/llm/chunking.ts:453-526 | the fallback plan is the manifest followed by the paragraph blocks, with their edges, and confidence 0.3 |
| Chunking.FallbackOfPlainText | src/lib/llm/chunking.ts:457-460 | with the separator as written, a text without backslashes is one paragraph: one block when non-blank, none otherwise |
| Chunking.FallbackOfFile | src/lib/llm/chunking.ts:457 | an uploaded file gives only the manifest |
| Chunking.BuildParagraphParts | src/lib/llm/chunking.ts:482-513 | the paragraph loop builds the fallback blocks and edges |
| Chunking.CreateFallbackPlan | src/lib/llm/chunking.ts:453-526 | the method builds the fallback plan |
| AgentRunner.PriorityRank | automation/agent_runner.py:211-214 | ranks lie in 1..3: high is 3, low is 1, anything else, missing included, is 2 |
| AgentRunner.NextTaskSpec | automation/agent_runner.py:189-217 | None exactly when no task is eligible; otherwise the chosen task is in the list, not completed, has all dependencies completed, has maximal priority among eligible tasks, and no earlier eligible task has that priority |
| AgentRunner.AgentIndexFrom | automation/agent_runner.py:225-228 | the position of the first agent from k on whose value matches, or -1 exactly when no agent from k on matches |
| AgentRunner.SelectAgentRotates | automation/agent_runner.py:219-233 | GEMINI→CODEX→CLAUDE→GEMINI |
| AgentRunner.SelectAgentDefault | automation/agent_runner.py:219-233 | no last agent, or an unrecognised one, gives GEMINI |
| AgentRunner.RotationPeriod | automation/agent_runner.py:219-233 | the rotation has period three and never picks the same agent twice in a row |
| AgentRunner.Orchestrator.constructor | automation/agent_runner.py:59-71 | the initial state record |
| AgentRunner.Orchestrator.SelectNextTask | automation/agent_runner.py:189-217 | the loop and stable sort pick `NextTask` |
| AgentRunner.Orchestrator.RunCycle | automation/agent_runner.py:365-396 | no eligible task returns False and changes nothing; otherwise success appends the chosen id and sets last_agent and current_task None, failure keeps completed_tasks and sets current_task; run_count grows by 1 either way |
| AgentRunner.AppendFresh | automation/agent_runner.py:383 | appending an uncompleted id keeps completed_tasks free of duplicates |
| AgentRunner.InitialTasksOrdered | automation/agent_runner.py:86-187 | every dependency of an initial task is an earlier task |
| AgentRunner.InitialFirstTask | automation/agent_runner.py:86-217 | from a fresh state the first initial task is picked |
| Utils.FormatRelativeTimeBuckets | src/lib/utils.ts:56-67 | under 60 s "just now"; then ⌊s/60⌋m, ⌊s/3600⌋h, ⌊s/86400⌋d ago in their ranges; from a week on, the locale date |
| Utils.FormatRelativeTimeExamples | src/lib/utils.ts:56-67 | 30 s, 15 min, 4 h and 3 d give "just now", "15m ago", "4h ago", "3d ago" |
| Utils.Truncate | src/lib/utils.ts:72-75 | s itself when short enough, otherwise its first n characters followed by "..." |
| Utils.TruncateBounds | src/lib/utils.ts:72-75 | the result is at most n+3 long, and truncating again to n+3 changes nothing |
| Utils.Clamp | src/lib/utils.ts:90-92 | within [min, max] when min ≤ max, v itself when already inside, min below, max above; min when the bounds cross |
| Utils.ToInt32 | src/lib/utils.ts:180 | ToInt32 lands in the signed 32-bit range |
| Utils.ToInt32Periodic | src/lib/utils.ts:180 | ToInt32 ignores multiples of 2^32 |
| Utils.ToInt32Offset | src/lib/utils.ts:180 | ToInt32 differs from its argument by a multiple of 2^32 |
| Utils.HashStepIsTimes31 | src/lib/utils.ts:179-180 | `((h << 5) - h) + c` then `& h` is `toInt32(31*h + c)` |
| Utils.HashSnoc | src/lib/utils.ts:177-181 | each character extends the hash by one 31*h + c step |
| Utils.HashString | src/lib/utils.ts:175-183 | the loop computes the hash, a signed 32-bit value, 0 for "" |
| Utils.RemoveFirst | src/lib/utils.ts:189 | `replace('#', '')` removes one '#' when there is one |
| Utils.ParseTwoHexDigits | src/lib/utils.ts:190-192 | two hex digits parse to 16*hi + lo |
| Utils.IsColorDarkOfHex | src/lib/utils.ts:188-195 | "#rrggbb" is dark exactly when 299r + 587g + 114b < 128000 |
| Utils.EntryIndex | src/lib/utils.ts:164 | `map.get` finds the entry of the key, or none when no entry has it |
| Utils.GroupBy | src/lib/utils.ts:156-170 | one non-empty group per key; each group is exactly the items of its key in original order; group sizes sum to the input length |
| Utils.GroupingUpdate | src/lib/utils.ts:163-166 | appending to an existing group keeps the grouping |
| Utils.UpdateKeepsFilters | src/lib/utils.ts:163-166 | after the update each group is still the items of its key |
| Utils.UpdateCovers | src/lib/utils.ts:163-166 | after the update every item still has its group |
| Utils.GroupingAppend | src/lib/utils.ts:163-166 | a new key gets a new one-item group and keeps the grouping |
| Utils.NoItemWithNewKey | src/lib/utils.ts:164 | a key without an entry has no item yet |
| Utils.TotalSizeUpdate | src/lib/utils.ts:165-166 | replacing a group changes the total by the size difference |
| Dashboard.FilteredBlocksMembers | src/components/Dashboard/Dashboard.tsx:48-76 | without a filter every block; 'tags': a block sharing a tag with the value exactly under 'contains'; 'type', 'state', 'immutability': equal exactly under 'equals'; any other field keeps everything |
| Dashboard.OperatorsPartition | src/components/Dashboard/Dashboard.tsx:53-75 | the positive and the negative operators split the blocks: each block is kept by exactly one |
| Dashboard.AddWidget | src/components/Dashboard/Dashboard.tsx:260-279 | exactly one widget appended, at (0,0,4,4), of the type, titled "New <type> Widget" |
| Dashboard.RemoveWidgetSpec | src/components/Dashboard/Dashboard.tsx:282-287 | exactly the widgets with that id are dropped; an absent id changes nothing |
| Dashboard.RemoveUndoesAdd | src/components/Dashboard/Dashboard.tsx:260-287 | removing a just-added widget restores the list |
| Dashboard.EditWidget | src/components/Dashboard/Dashboard.tsx:290-297 | the length is unchanged |
| Dashboard.EditWidgetSpec | src/components/Dashboard/Dashboard.tsx:290-297 | widgets with the id are replaced and all others unchanged; editing twice is editing once; removing the id after editing is removing it |
| Dashboard.EditThenRemove | src/components/Dashboard/Dashboard.tsx:282-297 | removing after editing equals removing |
| Dashboard.HandleLayoutChange | src/components/Dashboard/Dashboard.tsx:237-257 | the length is unchanged |
| Dashboard.LayoutItems | src/components/Dashboard/Dashboard.tsx:237-257 | one layout item per widget |
| Dashboard.FindLayoutSpec | src/components/Dashboard/Dashboard.tsx:240 | `layout.find` gives nothing exactly when no item matches, otherwise the first matching item |
| Dashboard.HandleLayoutChangeSpec | src/components/Dashboard/Dashboard.tsx:237-257 | each widget keeps its id, type and config; it takes x, y, w, h of the first matching layout item and is unchanged without one |
| Dashboard.LayoutRoundTrip | src/components/Dashboard/Dashboard.tsx:237-257 | applying the widgets' own layout gives back the widgets when ids are distinct |
| GraphView.ConvertBlocksToNodesSpec | src/components/GraphView/GraphView.tsx:137-153 | with no visible ids every block in order, otherwise exactly the visible blocks; a node is draggable exactly when its block is not immutable |
| GraphView.ConvertEdgesToFlowEdgesSpec | src/components/GraphView/GraphView.tsx:156-178 | with no visible ids every edge in order, otherwise every visible edge and only visible ones; animated exactly for DEPENDS_ON |
| GraphView.Ids | src/components/GraphView/GraphView.tsx:250 | the mapped ids: one per item, item i giving id i |
| GraphView.Endpoints | src/components/GraphView/GraphView.tsx:243-246 | two endpoints per edge |
| GraphView.EndpointsMembers | src/components/GraphView/GraphView.tsx:243-246 | exactly the endpoints of the edges |
| GraphView.IdsMembers | src/components/GraphView/GraphView.tsx:250 | the mapped ids are exactly the ids of the items |
| GraphView.SmartVisibilitySpec | src/components/GraphView/GraphView.tsx:234-263 | with a selection: exactly the edges touching it and exactly their endpoints, each once; without: every block and exactly the structural edges |
| GraphView.IsolatedSelectionShowsAll | src/components/GraphView/GraphView.tsx:236-251 | selecting a block without edges empties both sets, and then every block and edge is drawn |
| BlockEditor.HandleChangeSpec | src/components/Block/BlockEditor.tsx:43-48 | the field gets the value, every other field and the tag input stay; the later of two changes to one field wins |
| BlockEditor.HandleFieldChange | src/components/Block/BlockEditor.tsx:51-59 | only the one key of fields changes |
| BlockEditor.HandleAddTagSpec | src/components/Block/BlockEditor.tsx:62-76 | an empty input changes nothing; a non-empty input is cleared; the id of the first tag whose label matches case-insensitively is appended when the block lacks it, and otherwise the tags stay; no match leaves them; no duplicates appear; nothing but the tags changes |
| BlockEditor.HandleAddTagIdempotent | src/components/Block/BlockEditor.tsx:62-76 | typing the same input again and adding it a second time only clears the input: the tags stay as after the first add |
| BlockEditor.HandleRemoveTag | src/components/Block/BlockEditor.tsx:79-84 | every occurrence of the id goes, the other tags stay, nothing else changes |
| BlockEditor.RemoveUndoesAdd | src/components/Block/BlockEditor.tsx:62-84 | removing a just-added tag restores the block |
| BlockEditor.HandleSave | src/components/Block/BlockEditor.tsx:109-115 | the edited block with version+1 and nothing else changed |
| BlockEditor.SaveWithoutEdits | src/components/Block/BlockEditor.tsx:109-115 | saving an unedited block only bumps its version |
| BlockEditor.WordCountBound | src/components/Block/BlockEditor.tsx:209-210 | at most half the characters, rounded up, are words; blank content has none |
| BlockEditor.WordsOfJoin | src/components/Block/BlockEditor.tsx:210 | words joined by single spaces count as themselves: "Hello world" has 2 words |
| BlockEditor.WordsOfWord | src/components/Block/BlockEditor.tsx:210 | a word followed by white space or the end is split off as one word |
| BlockEditor.TokenLengthOfWord | src/components/Block/BlockEditor.tsx:210 | a token runs exactly to the next white space |
| BlockEditor.WordsAfterSpace | src/components/Block/BlockEditor.tsx:210 | a leading white-space character yields no word |
| Chunking.ChunkBlockIds | src/lib/llm/chunking.ts:216-218 | chunk block i gets the (base+i)-th fresh id |
| Chunking.ChunkContainsEdges | src/lib/llm/chunking.ts:247-257 | one containment edge per chunk: from the manifest to chunk i's id, with order i and its own fresh id |
| Chunking.ReplyChunkBlock | src/lib/llm/chunking.ts:216-241 | the block after the manifest at position i+1 is the block of chunk i, and it records originalIndex i |
| Chunking.ContainedBlocksAreNoOrphans | src/lib/llm/chunking.ts:425-434 | when the edges begin with the manifest's containment edges, no block is an orphan |
| Chunking.LinkedTargetsAreEndpoints | src/lib/llm/chunking.ts:424-428 | each non-manifest block targeted by its edge is among the endpoints |
| Chunking.TargetIsEndpoint | src/lib/llm/chunking.ts:424-428 | the target of every scanned edge is among the endpoints |
| Chunking.FallbackOrderPair | src/lib/llm/chunking.ts:507-508 | the orders of two fallback edges compare like their positions |
| Seqs.IndexByExact | src/stores/blockStore.ts:418-426 | rebuilding a map by `set` in list order has a key for every element, maps each key to an element of the list, and maps to the last element with that key |
| Seqs.PutAllSpec | src/stores/blockStore.ts:418-426 | the keyed list rebuilt by `set` has distinct keys, and a list that already has distinct keys is unchanged |
| Text.TrimStartSpec | src/components/Block/BlockEditor.tsx:210 | trimming the start drops exactly the leading white space |
| Text.TrimEndSpec | src/components/Block/BlockEditor.tsx:210 | trimming the end drops exactly the trailing white space |
| Utils.HexRun | src/lib/utils.ts:190-192 | the leading run of hex digits parseInt reads: every character in it is a hex digit and the next one is not |
| Utils.Substr | src/lib/utils.ts:190-192 | from start, at most length characters of s, fewer only at the end of s; empty when start is past the end |
| Sorting.SortBySortedPermutation | src/lib/compositor/index.ts:160-161 | the sort yields a sorted permutation |
| Sorting.SortByStable | src/lib/compositor/index.ts:283-296 | the sort is stable: equal keys keep their order |
| Sorting.SortByHead | automation/agent_runner.py:212-217 | the head of the sort has the least key and is the first element with it |
| Text.TrimIsInfix | src/components/Block/BlockEditor.tsx:210 | `trim` yields an infix without white space at its ends |
| Text.TrimEmptyIffBlank | src/lib/llm/chunking.ts:483 | `trim().length > 0` exactly when the text is not all white space |
| Text.LowerOfUpper | src/lib/llm/chunking.ts:314 | upper- then lower-casing is lower-casing |
| Seqs.FilterMembers | src/components/Dashboard/Dashboard.tsx:53 | `filter` keeps exactly the elements satisfying the predicate |
| Seqs.FindFirst | src/components/Block/BlockEditor.tsx:64-66 | `find` returns the first element whose key matches: the one no earlier element shares the key with |
| Seqs.PutSpec | src/stores/blockStore.ts:204-208 | `Map.set` replaces the entry of the key in place, or appends, keeping keys distinct |

## Left out

- Network, files and the language model: the Gemini call, `FileReader`, prompt construction, the regex and `JSON.parse` extraction of the reply, and `calculateConfidence`/`extractReasoningPoints` (floating-point averages). The parsed reply, the confidence and the reasoning are parameters.
- Chunking.ParseChunkingResponse: any exception the JSON extraction throws is not modelled. The only failure modelled is a chunk or kept edge without a `type`, on which `toLowerCase`/`toUpperCase` throws.
- Compositor HTML output is an injected function of the markdown and title (`Env.renderHtml`), because `marked` is a foreign library. JSON text is an injected serialiser of the modelled JSON record (`Env.serialize`). PDF, like the source, produces the markdown.
- Clocks: `performance.now()`, `new Date()`, `Date.now()` and `toLocaleDateString` are parameters (elapsed times, ISO strings, the locale date).
- Compositor.DocumentCompositor.GetBlockDepth: the source has no cycle guard on the parent walk, so the model requires that the block's parent chain ends, and `Assemble` requires it for every block. Cyclic parent chains are not modelled.
- Store plumbing: zustand, immer, devtools and persist middleware, localStorage serialisation, `exportData`, and the JSON parsing in `importData`. `ImportData` receives already-parsed lists. `isLoading` is kept but never set.
- BlockStore.Store.GetDescendants: completeness is stated only for the default unbounded maxDepth. With a finite maxDepth the depth check comes before `visited.add`, so a block first expanded deep down is not expanded again when it is reached higher up. For example, with maxDepth 3, children [a, c] of the root and the links a→c, c→d, d→e, block e is not listed although it is three levels below the root through c. The model states soundness for every bound and does not state which descendants a finite bound lists.
- Store timestamps (`createdAt`, `updatedAt`) and UI-only block fields (position, colours, icons) are not part of the data model.
- Templates: descriptions, icons, colours, default views and allowed relations are display data and are not modelled. Validators are a fixed enumeration: the requirement priority check or a check that always passes. Arbitrary JavaScript validator closures are not modelled.
- Templates.CheckPriorityExact: JavaScript truthiness of a non-string priority is approximated: only a string among the four levels passes.
- Agent runner: running the agents (file writes, subprocesses), prompt generation, git commits, the randomised sleep of `run_continuous`, logging, and loading and saving the state and task JSON. The outcome of running an agent is a parameter of `RunCycle`.
- Utils: `distance`, `lerp`, `spring`, `formatFileSize`, `debounce`, `throttle`, `generateId`, `cn`, `deepClone` and `parseJSON`, which are floating point, timers, randomness or library calls.
- Utils.FormatRelativeTimeBuckets: JavaScript numbers are modelled as integers (whole milliseconds), so fractional and NaN dates are not modelled.
- Utils.IsColorDarkOfHex: stated only for well-formed "#rrggbb" colours. Other inputs follow the modelled `parseInt` prefix rule, but no lemma characterises them.
- Text: case mapping is ASCII-only, and white space is the Basic Latin and Latin-1 JavaScript white space. Strings are sequences of characters, not UTF-16 code units.
- Record lookups such as `typeMap[name]` ignore inherited `Object.prototype` names like 'constructor'. In JavaScript those yield a function rather than the fallback.
- Dashboard: the filter value is a string or a list of strings, and view configuration and chart rendering are not modelled.
- GraphView: node positions (`Math.random`), styling, the React Flow callbacks (including `onConnect`, which refers to a relation the enum does not define) and the performance measurements are not modelled.
- GraphView.ConvertEdgesToFlowEdgesSpec: flow edges are stated by membership when visible ids are given, not as an exact sequence equality, because distinct edges can map to equal flow edges.
- BlockEditor: rendering, icons and the `onSave`/`onCancel` callbacks beyond the saved block are not modelled.
- Concurrency and React re-rendering: each component rule is a function from the current state to the next.
