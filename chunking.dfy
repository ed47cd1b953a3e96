/**
 * Turning a document into an ingestion plan (src/lib/llm/chunking.ts): the tables that
 * translate the language model's block-type and relation names, the assembly of a plan from
 * an already-parsed reply, the warnings attached to such a plan, and the paragraph-based
 * fallback plan used when the reply cannot be used.
 *
 * The model call, the reading of files and the extraction of JSON from the reply are not
 * part of this model: the parsed reply arrives as a value. `nanoid()` is a supply of fresh
 * identifiers `supply(0), supply(1), ...` consumed in the order the source calls it.
 */
module Chunking {
  import opened Types
  import Text
  import Templates

  // ---------------------------------------------------------------------------------------
  // Lookup tables
  // ---------------------------------------------------------------------------------------

  /**
   * A `Record<string, V>` lookup with `||` fallback: the value of the first entry named key,
   * or dflt when no entry is.
   */
  function Lookup<V>(table: seq<(string, V)>, key: string, dflt: V): V {
    if table == [] then dflt
    else if table[0].0 == key then table[0].1
    else Lookup(table[1..], key, dflt)
  }

  /** No two entries of the table share a name. */
  predicate DistinctNames<V>(table: seq<(string, V)>) {
    forall i, j :: 0 <= i < j < |table| ==> table[i].0 != table[j].0
  }

  /**
   * In a table whose names are distinct, a lookup gives the value of the entry named key,
   * and the fallback when no entry is; every result is the fallback or some entry's value.
   */
  lemma {:induction false} LookupSpec<V>(table: seq<(string, V)>, key: string, dflt: V)
    requires DistinctNames(table)
    ensures forall i :: 0 <= i < |table| && table[i].0 == key ==> Lookup(table, key, dflt) == table[i].1
    ensures (forall i :: 0 <= i < |table| ==> table[i].0 != key) ==> Lookup(table, key, dflt) == dflt
    ensures Lookup(table, key, dflt) == dflt ||
            exists i :: 0 <= i < |table| && table[i].0 == key && table[i].1 == Lookup(table, key, dflt)
  {
    if table != [] && table[0].0 != key {
      var rest := table[1..];
      assert DistinctNames(rest) by {
        forall i, j | 0 <= i < j < |rest| ensures rest[i].0 != rest[j].0 {
          assert rest[i] == table[i + 1] && rest[j] == table[j + 1];
        }
      }
      LookupSpec(rest, key, dflt);
      if Lookup(table, key, dflt) != dflt {
        var i :| 0 <= i < |rest| && rest[i].0 == key && rest[i].1 == Lookup(table, key, dflt);
        assert table[i + 1] == rest[i];
      }
      forall i | 0 <= i < |table| && table[i].0 == key ensures Lookup(table, key, dflt) == table[i].1 {
        assert i > 0 && table[i] == rest[i - 1];
      }
    }
  }

  /** The table of `mapBlockType`, keyed by lower-case name. */
  const BlockTypeTable: seq<(string, BlockType)> := [
    ("note", Note), ("requirement", Requirement), ("spec", Spec), ("impl", Implementation),
    ("implementation", Implementation), ("test", Test), ("data", DataSource),
    ("data.source", DataSource), ("manifest", Manifest)]

  /** The lower-case names `mapBlockType` knows. */
  const BlockTypeNames: set<string> :=
    {"note", "requirement", "spec", "impl", "implementation", "test", "data", "data.source", "manifest"}

  lemma BlockTypeTableDistinct()
    ensures DistinctNames(BlockTypeTable)
    ensures forall i :: 0 <= i < |BlockTypeTable| ==> BlockTypeTable[i].0 in BlockTypeNames
  {
    assert BlockTypeTable[8].0 == "manifest";
  }

  /** `mapBlockType`: the block type for a name given in any letter case, NOTE when unknown. */
  function MapBlockType(name: string): BlockType {
    Lookup(BlockTypeTable, Text.Lower(name), Note)
  }

  /**
   * The table maps the names to the types it lists: both 'impl' and 'implementation' give
   * IMPLEMENTATION, both 'data' and 'data.source' give DATA_SOURCE, and a name the table does
   * not know gives NOTE, so no name gives ASSEMBLER, DASHBOARD or FILTER.
   */
  lemma MapBlockTypeTable(name: string)
    ensures MapBlockType(name) == Implementation <==> Text.Lower(name) in {"impl", "implementation"}
    ensures MapBlockType(name) == DataSource <==> Text.Lower(name) in {"data", "data.source"}
    ensures Text.Lower(name) !in BlockTypeNames ==> MapBlockType(name) == Note
    ensures MapBlockType(name) !in {Assembler, DashboardBlock, Filter}
  {
    BlockTypeTableDistinct();
    BlockTypeTableValues();
    var key := Text.Lower(name);
    LookupSpec(BlockTypeTable, key, Note);
    if MapBlockType(name) != Note {
      var i :| 0 <= i < |BlockTypeTable| && BlockTypeTable[i].0 == key && BlockTypeTable[i].1 == MapBlockType(name);
    }
    if key == "impl" {
      assert BlockTypeTable[3].0 == key;
    } else if key == "implementation" {
      assert BlockTypeTable[4].0 == key;
    } else if key == "data" {
      assert BlockTypeTable[6].0 == key;
    } else if key == "data.source" {
      assert BlockTypeTable[7].0 == key;
    }
  }

  /** Which names of the table give IMPLEMENTATION and DATA_SOURCE, and which types it never gives. */
  lemma BlockTypeTableValues()
    ensures forall i :: 0 <= i < |BlockTypeTable| ==>
              && (BlockTypeTable[i].1 == Implementation <==> BlockTypeTable[i].0 in {"impl", "implementation"})
              && (BlockTypeTable[i].1 == DataSource <==> BlockTypeTable[i].0 in {"data", "data.source"})
              && BlockTypeTable[i].1 !in {Assembler, DashboardBlock, Filter}
    ensures |BlockTypeTable| == 9
    ensures BlockTypeTable[3].0 == "impl" && BlockTypeTable[4].0 == "implementation"
    ensures BlockTypeTable[6].0 == "data" && BlockTypeTable[7].0 == "data.source"
  {
  }

  /** The letter case of a type name does not matter. */
  lemma MapBlockTypeIgnoresCase(name: string)
    ensures MapBlockType(Text.Lower(name)) == MapBlockType(name)
    ensures MapBlockType(Text.Upper(name)) == MapBlockType(name)
  {
    Text.LowerIdempotent(name);
    Text.LowerOfUpper(name);
  }

  /**
   * A name that is, in any letter case, the code of one of six document block types maps to
   * that type, but the manifest's own code 'doc.manifest' is not a name the table knows: it
   * yields NOTE.
   */
  lemma MapBlockTypeOfCode(name: string)
    ensures forall t :: t in {Note, Requirement, Spec, Implementation, Test, DataSource} && Text.Lower(name) == t.Code()
                        ==> MapBlockType(name) == t
    ensures Text.Lower(name) == Manifest.Code() ==> MapBlockType(name) == Note
  {
    var key := Text.Lower(name);
    BlockTypeTableDistinct();
    BlockTypeTableCodes();
    LookupSpec(BlockTypeTable, key, Note);
    forall t | t in {Note, Requirement, Spec, Implementation, Test, DataSource} && key == t.Code()
      ensures MapBlockType(name) == t
    {
      if t == Note {
        assert BlockTypeTable[0] == (key, t);
      } else if t == Requirement {
        assert BlockTypeTable[1] == (key, t);
      } else if t == Spec {
        assert BlockTypeTable[2] == (key, t);
      } else if t == Implementation {
        assert BlockTypeTable[3] == (key, t);
      } else if t == Test {
        assert BlockTypeTable[5] == (key, t);
      } else {
        assert BlockTypeTable[7] == (key, t);
      }
    }
    if key == Manifest.Code() {
      assert key !in BlockTypeNames;
    }
  }

  /** The entries of the table named by a block type's own code. */
  lemma BlockTypeTableCodes()
    ensures |BlockTypeTable| == 9
    ensures && BlockTypeTable[0] == (Note.Code(), Note) && BlockTypeTable[1] == (Requirement.Code(), Requirement)
            && BlockTypeTable[2] == (Spec.Code(), Spec) && BlockTypeTable[3] == (Implementation.Code(), Implementation)
            && BlockTypeTable[5] == (Test.Code(), Test) && BlockTypeTable[7] == (DataSource.Code(), DataSource)
  {
  }

  /** The table of `getTemplateForType`, keyed by lower-case name. */
  const TemplateTable: seq<(string, TemplateId)> := [
    ("note", "default"), ("requirement", "requirement"), ("spec", "specification"),
    ("impl", "implementation"), ("test", "test"), ("data.source", "data-source"),
    ("manifest", "doc.manifest")]

  /** The template ids the chunker hands out. */
  const ChunkTemplateIds: set<string> :=
    {"default", "requirement", "specification", "implementation", "test", "data-source", "doc.manifest"}

  lemma TemplateTableDistinct()
    ensures DistinctNames(TemplateTable)
    ensures forall i :: 0 <= i < |TemplateTable| ==> TemplateTable[i].1 in ChunkTemplateIds
  {
    assert TemplateTable[6].0 == "manifest";
  }

  /** `getTemplateForType`: the template id for a type name in any letter case, 'default' when unknown. */
  function TemplateForTypeName(name: string): TemplateId {
    Lookup(TemplateTable, Text.Lower(name), "default")
  }

  /**
   * Every name gets one of the chunker's template ids, and a name other than the six the
   * table knows besides 'note' gets the default template.
   */
  lemma TemplateForUnknownName(name: string)
    ensures TemplateForTypeName(name) in ChunkTemplateIds
    ensures Text.Lower(name) !in {"requirement", "spec", "impl", "test", "data.source", "manifest"}
            ==> TemplateForTypeName(name) == "default"
  {
    TemplateTableDistinct();
    LookupSpec(TemplateTable, Text.Lower(name), "default");
  }

  /**
   * The two tables disagree: 'implementation' and 'data', in any letter case, give a typed
   * block but the default template.
   */
  lemma TablesDisagree(name: string)
    ensures Text.Lower(name) == "implementation" ==>
              MapBlockType(name) == Implementation && TemplateForTypeName(name) == "default"
    ensures Text.Lower(name) == "data" ==> MapBlockType(name) == DataSource && TemplateForTypeName(name) == "default"
  {
    MapBlockTypeTable(name);
    TemplateForUnknownName(name);
  }

  /**
   * Every template id the chunker hands out is one of the built-in templates except
   * 'data-source', which the template registry does not hold.
   */
  lemma ChunkTemplatesRegistered(name: string)
    ensures TemplateForTypeName(name) in Templates.DefaultIds || TemplateForTypeName(name) == "data-source"
    ensures "data-source" !in Templates.DefaultIds
  {
    TemplateForUnknownName(name);
    assert forall i :: 0 <= i < |Templates.DefaultIds| ==> |Templates.DefaultIds[i]| != 11 || Templates.DefaultIds[i][0] != 'd';
  }

  /** The table of `mapRelationType`, keyed by upper-case name. */
  const RelationTable: seq<(string, RelationType)> := [
    ("PARENT_OF", Structural(ParentOf)), ("CONTAINS_ORDERED", Structural(ContainsOrdered)),
    ("SECTION_OF", Structural(SectionOf)), ("IMPLEMENTS", Semantic(Implements)),
    ("VERIFIED_BY", Semantic(VerifiedBy)), ("DEPENDS_ON", Semantic(DependsOn)),
    ("REFERENCES", Semantic(References)), ("LINKS", Semantic(Links))]

  /** The upper-case names `mapRelationType` knows. */
  const RelationNames: set<string> :=
    {"PARENT_OF", "CONTAINS_ORDERED", "SECTION_OF", "IMPLEMENTS", "VERIFIED_BY", "DEPENDS_ON", "REFERENCES", "LINKS"}

  lemma RelationTableDistinct()
    ensures DistinctNames(RelationTable)
    ensures forall i :: 0 <= i < |RelationTable| ==> RelationTable[i].0 in RelationNames
  {
    assert RelationTable[7].0 == "LINKS";
  }

  /** `mapRelationType`: the relation for a name given in any letter case, LINKS when unknown. */
  function MapRelationType(name: string): RelationType {
    Lookup(RelationTable, Text.Upper(name), Semantic(Links))
  }

  /**
   * Each listed name gives its relation, an unknown name gives LINKS, and no name gives
   * THREAD_OF, ATTACHED_TO, CONTRADICTS or ELABORATES.
   */
  lemma MapRelationTypeTable(name: string)
    ensures Text.Upper(name) == "DEPENDS_ON" ==> MapRelationType(name) == Semantic(DependsOn)
    ensures Text.Upper(name) == "CONTAINS_ORDERED" ==> MapRelationType(name) == Structural(ContainsOrdered)
    ensures Text.Upper(name) !in RelationNames ==> MapRelationType(name) == Semantic(Links)
    ensures MapRelationType(name) !in {Structural(ThreadOf), Structural(AttachedTo), Semantic(Contradicts), Semantic(Elaborates)}
  {
    var key := Text.Upper(name);
    RelationTableDistinct();
    RelationTableValues();
    LookupSpec(RelationTable, key, Semantic(Links));
    if key == "DEPENDS_ON" {
      assert RelationTable[5].0 == key;
    } else if key == "CONTAINS_ORDERED" {
      assert RelationTable[1].0 == key;
    }
    if MapRelationType(name) != Semantic(Links) {
      var i :| 0 <= i < |RelationTable| && RelationTable[i].0 == key && RelationTable[i].1 == MapRelationType(name);
    }
  }

  /** The entries used above, and the relation types the table never gives. */
  lemma RelationTableValues()
    ensures |RelationTable| == 8
    ensures RelationTable[1] == ("CONTAINS_ORDERED", Structural(ContainsOrdered))
    ensures RelationTable[5] == ("DEPENDS_ON", Semantic(DependsOn))
    ensures forall i :: 0 <= i < |RelationTable| ==>
              RelationTable[i].1 !in {Structural(ThreadOf), Structural(AttachedTo), Semantic(Contradicts), Semantic(Elaborates)}
  {
  }

  /** The letter case of a relation name does not matter. */
  lemma MapRelationTypeIgnoresCase(name: string)
    ensures MapRelationType(Text.Upper(name)) == MapRelationType(name)
    ensures MapRelationType(Text.Lower(name)) == MapRelationType(name)
  {
    Text.UpperIdempotent(name);
    Text.UpperOfLower(name);
  }

  // ---------------------------------------------------------------------------------------
  // The parsed reply and the plan
  // ---------------------------------------------------------------------------------------

  /** The document handed to the chunker: its text, or an uploaded file. */
  datatype DocumentSource = Inline(text: string) | UploadedFile

  /** A chunk as the model proposes it; any attribute may be missing from the reply. */
  datatype ParsedChunk = ParsedChunk(
    key: Option<string>,
    title: Option<string>,
    typeName: Option<string>,
    content: Option<string>,
    reasoning: Option<string>)

  /** A relationship as the model proposes it, between chunk keys (or 'manifest'). */
  datatype ParsedEdge = ParsedEdge(
    fromKey: Option<string>,
    toKey: Option<string>,
    typeName: Option<string>,
    reasoning: Option<string>)

  datatype ParsedManifest = ParsedManifest(title: Option<string>, summary: Option<string>)

  datatype ParsedReply = ParsedReply(
    manifest: Option<ParsedManifest>,
    chunks: Option<seq<ParsedChunk>>,
    edges: Option<seq<ParsedEdge>>,
    suggestedTags: Option<seq<Tag>>)

  /** A warning attached to a plan; Message gives the text the source produces for it. */
  datatype PlanWarning =
    | NoRelationships(title: string)
    | VeryShort(title: string, words: nat)
    | VeryLong(title: string, words: nat)
    | Notice(text: string)

  function Message(w: PlanWarning): string {
    match w
    case NoRelationships(title) => "Block \"" + title + "\" has no relationships"
    case VeryShort(title, words) => "Block \"" + title + "\" is very short (" + Text.NatToString(words) + " words)"
    case VeryLong(title, words) => "Block \"" + title + "\" is very long (" + Text.NatToString(words) + " words)"
    case Notice(text) => text
  }

  /** The author recorded on every block and edge the chunker creates. */
  const Chunker: string := "llm-chunker"

  datatype IngestionPlan = IngestionPlan(
    id: string,
    source: string,
    manifest: Block,
    blocks: seq<Block>,
    edges: seq<Edge>,
    suggestedTags: seq<Tag>,
    confidence: real,
    reasoning: seq<string>,
    warnings: seq<PlanWarning>,
    status: PlanStatus)

  /** The review state of an ingestion plan. */
  datatype PlanStatus = Pending | Approved | Rejected | Partial

  /** What the manifest records as its original source: the text itself, or 'file'. */
  function SourceName(source: DocumentSource): string {
    match source
    case Inline(text) => text
    case UploadedFile => "file"
  }

  /** A missing value is stored in a field as undefined. */
  function FieldOf(s: Option<string>): FieldValue {
    match s
    case None => Undefined
    case Some(v) => Str(v)
  }

  /** The manifest of a parsed reply, with id the first fresh identifier and now the ingestion date. */
  function ReplyManifest(m: Option<ParsedManifest>, source: DocumentSource, id: BlockId, now: string): Block {
    var title := if m.Some? then StrOr(m.value.title, "Untitled Document") else "Untitled Document";
    var summary := if m.Some? then StrOr(m.value.summary, "") else "";
    Block(id, Manifest, "doc.manifest", title, summary,
          map["originalSource" := Str(SourceName(source)), "ingestionDate" := Str(now)],
          [], Draft, Mutable, Chunker, Chunker, 1)
  }

  /** The block for the chunk at position index. */
  function ChunkBlock(c: ParsedChunk, index: nat, id: BlockId): Block
    requires c.typeName.Some?
  {
    Block(id, MapBlockType(c.typeName.value), TemplateForTypeName(c.typeName.value),
          StrOr(c.title, "Chunk " + Text.NatToString(index + 1)), StrOr(c.content, ""),
          map["reasoning" := FieldOf(c.reasoning), "originalIndex" := Num(index)],
          [], Draft, Mutable, Chunker, Chunker, 1)
  }

  /** The CONTAINS_ORDERED edge from the manifest to a block, with the given order. */
  function ContainsEdge(manifestId: BlockId, blockId: BlockId, order: nat, id: EdgeId, author: string): Edge {
    Edge(id, manifestId, blockId, Structural(ContainsOrdered), Some(order), None, author)
  }

  /** The first n chunks name a type (otherwise `type.toLowerCase()` throws). */
  predicate TypedUpTo(chunks: seq<ParsedChunk>, n: nat)
    requires n <= |chunks|
  {
    n == 0 || (TypedUpTo(chunks, n - 1) && chunks[n - 1].typeName.Some?)
  }

  /** TypedUpTo holds exactly when each of the first n chunks names a type. */
  lemma {:induction false} TypedUpToExact(chunks: seq<ParsedChunk>, n: nat)
    requires n <= |chunks|
    ensures TypedUpTo(chunks, n) <==> forall i :: 0 <= i < n ==> chunks[i].typeName.Some?
  {
    if n > 0 {
      TypedUpToExact(chunks, n - 1);
    }
  }

  /** The blocks of the first n chunks, chunk i with id supply(base + i). */
  function ChunkBlocks(chunks: seq<ParsedChunk>, supply: nat -> string, base: nat, n: nat): (bs: seq<Block>)
    requires n <= |chunks| && TypedUpTo(chunks, n)
    ensures |bs| == n
  {
    if n == 0 then [] else ChunkBlocks(chunks, supply, base, n - 1) + [ChunkBlock(chunks[n - 1], n - 1, supply(base + n - 1))]
  }

  lemma {:induction false} ChunkBlocksAt(chunks: seq<ParsedChunk>, supply: nat -> string, base: nat, n: nat)
    requires n <= |chunks| && TypedUpTo(chunks, n)
    ensures forall i :: 0 <= i < n ==>
              chunks[i].typeName.Some? && ChunkBlocks(chunks, supply, base, n)[i] == ChunkBlock(chunks[i], i, supply(base + i))
  {
    if n > 0 {
      ChunkBlocksAt(chunks, supply, base, n - 1);
      var prev := ChunkBlocks(chunks, supply, base, n - 1);
      var last := ChunkBlock(chunks[n - 1], n - 1, supply(base + n - 1));
      assert ChunkBlocks(chunks, supply, base, n) == prev + [last];
      forall i | 0 <= i < n
        ensures chunks[i].typeName.Some? && ChunkBlocks(chunks, supply, base, n)[i] == ChunkBlock(chunks[i], i, supply(base + i))
      {
        if i < n - 1 {
          assert (prev + [last])[i] == prev[i];
        }
      }
    }
  }

  /** One CONTAINS_ORDERED edge per block among the first n, ordered by position, ids from supply(base). */
  function ContainsEdges(manifestId: BlockId, bs: seq<Block>, supply: nat -> string, base: nat, n: nat, author: string)
    : (es: seq<Edge>)
    requires n <= |bs|
    ensures |es| == n
  {
    if n == 0 then []
    else ContainsEdges(manifestId, bs, supply, base, n - 1, author) + [ContainsEdge(manifestId, bs[n - 1].id, n - 1, supply(base + n - 1), author)]
  }

  /** The i-th CONTAINS_ORDERED edge ends at the i-th block. */
  lemma {:induction false} ContainsEdgesTargets(manifestId: BlockId, bs: seq<Block>, supply: nat -> string, base: nat, n: nat,
                                                author: string)
    requires n <= |bs|
    ensures forall i :: 0 <= i < n ==> ContainsEdges(manifestId, bs, supply, base, n, author)[i].toBlockId == bs[i].id
  {
    if n > 0 {
      ContainsEdgesTargets(manifestId, bs, supply, base, n - 1, author);
    }
  }

  lemma {:induction false} ContainsEdgesAt(manifestId: BlockId, bs: seq<Block>, supply: nat -> string, base: nat, n: nat, author: string)
    requires n <= |bs|
    ensures forall i :: 0 <= i < n ==>
              ContainsEdges(manifestId, bs, supply, base, n, author)[i] == ContainsEdge(manifestId, bs[i].id, i, supply(base + i), author)
  {
    if n > 0 {
      ContainsEdgesAt(manifestId, bs, supply, base, n - 1, author);
    }
  }

  /**
   * `blockIdMap` after the first n chunks: 'manifest' for the manifest, then each chunk's key
   * for its block, a later chunk overriding an earlier one with the same key.
   */
  function IdMap(manifestId: BlockId, chunks: seq<ParsedChunk>, supply: nat -> string, base: nat, n: nat)
    : map<Option<string>, BlockId>
    requires n <= |chunks|
  {
    if n == 0 then map[Some("manifest") := manifestId]
    else IdMap(manifestId, chunks, supply, base, n - 1)[chunks[n - 1].key := supply(base + n - 1)]
  }

  /** Some chunk among the first n carries key k. */
  predicate KeyAmong(chunks: seq<ParsedChunk>, n: nat, k: Option<string>)
    requires n <= |chunks|
  {
    exists i :: 0 <= i < n && chunks[i].key == k
  }

  /** The keys of `blockIdMap` are 'manifest' and the chunks' keys. */
  lemma {:induction false} IdMapKeys(manifestId: BlockId, chunks: seq<ParsedChunk>, supply: nat -> string, base: nat, n: nat)
    requires n <= |chunks|
    ensures forall k :: k in IdMap(manifestId, chunks, supply, base, n) <==> k == Some("manifest") || KeyAmong(chunks, n, k)
  {
    if n > 0 {
      IdMapKeys(manifestId, chunks, supply, base, n - 1);
      forall k ensures KeyAmong(chunks, n, k) <==> KeyAmong(chunks, n - 1, k) || chunks[n - 1].key == k {
        if KeyAmong(chunks, n, k) && chunks[n - 1].key != k {
          var i :| 0 <= i < n && chunks[i].key == k;
          assert i < n - 1;
        }
      }
    }
  }

  /** A key stands for the block of the last chunk that carries it. */
  lemma {:induction false} IdMapLastWins(manifestId: BlockId, chunks: seq<ParsedChunk>, supply: nat -> string, base: nat, n: nat, i: nat)
    requires i < n <= |chunks|
    requires forall j :: i < j < n ==> chunks[j].key != chunks[i].key
    ensures chunks[i].key in IdMap(manifestId, chunks, supply, base, n)
    ensures IdMap(manifestId, chunks, supply, base, n)[chunks[i].key] == supply(base + i)
  {
    if i < n - 1 {
      IdMapLastWins(manifestId, chunks, supply, base, n - 1, i);
    }
  }

  /** 'manifest' stands for the manifest unless a chunk carries that key. */
  lemma {:induction false} IdMapManifest(manifestId: BlockId, chunks: seq<ParsedChunk>, supply: nat -> string, base: nat, n: nat)
    requires n <= |chunks|
    requires forall i :: 0 <= i < n ==> chunks[i].key != Some("manifest")
    ensures Some("manifest") in IdMap(manifestId, chunks, supply, base, n)
    ensures IdMap(manifestId, chunks, supply, base, n)[Some("manifest")] == manifestId
  {
    if n > 0 {
      IdMapManifest(manifestId, chunks, supply, base, n - 1);
    }
  }

  /** `fromId && toId`: the key is in the map and stands for a non-empty id. */
  predicate Resolves(ids: map<Option<string>, BlockId>, k: Option<string>) {
    k in ids && ids[k] != ""
  }

  predicate BothResolve(ids: map<Option<string>, BlockId>, e: ParsedEdge) {
    Resolves(ids, e.fromKey) && Resolves(ids, e.toKey)
  }

  /** The fresh identifiers are never empty, as `nanoid()`'s are not. */
  ghost predicate FreshIdsNonEmpty(supply: nat -> string) {
    forall k :: supply(k) != ""
  }

  lemma {:induction false} IdMapValuesNonEmpty(manifestId: BlockId, chunks: seq<ParsedChunk>, supply: nat -> string, base: nat, n: nat)
    requires n <= |chunks| && FreshIdsNonEmpty(supply) && manifestId != ""
    ensures forall k :: k in IdMap(manifestId, chunks, supply, base, n) ==> IdMap(manifestId, chunks, supply, base, n)[k] != ""
  {
    if n > 0 {
      IdMapValuesNonEmpty(manifestId, chunks, supply, base, n - 1);
    }
  }

  /**
   * With non-empty fresh identifiers, an end resolves exactly when it is 'manifest' or the
   * key of a chunk.
   */
  lemma ResolvesExact(manifestId: BlockId, chunks: seq<ParsedChunk>, supply: nat -> string, base: nat, k: Option<string>)
    requires FreshIdsNonEmpty(supply) && manifestId != ""
    ensures Resolves(IdMap(manifestId, chunks, supply, base, |chunks|), k) <==>
            (k == Some("manifest") || KeyAmong(chunks, |chunks|, k))
  {
    IdMapValuesNonEmpty(manifestId, chunks, supply, base, |chunks|);
    IdMapKeys(manifestId, chunks, supply, base, |chunks|);
  }

  /** Every kept edge among the first n names a relation (otherwise `type.toUpperCase()` throws). */
  predicate KeptTypedUpTo(proposed: seq<ParsedEdge>, ids: map<Option<string>, BlockId>, n: nat)
    requires n <= |proposed|
  {
    n == 0 || (KeptTypedUpTo(proposed, ids, n - 1) && (BothResolve(ids, proposed[n - 1]) ==> proposed[n - 1].typeName.Some?))
  }

  /** KeptTypedUpTo holds exactly when each of the first n edges whose ends resolve names a relation. */
  lemma {:induction false} KeptTypedUpToExact(proposed: seq<ParsedEdge>, ids: map<Option<string>, BlockId>, n: nat)
    requires n <= |proposed|
    ensures KeptTypedUpTo(proposed, ids, n) <==>
            forall i :: 0 <= i < n && BothResolve(ids, proposed[i]) ==> proposed[i].typeName.Some?
  {
    if n > 0 {
      KeptTypedUpToExact(proposed, ids, n - 1);
    }
  }

  /** The number of edges among the first n whose ends both resolve. */
  function ResolvedCount(proposed: seq<ParsedEdge>, n: nat, ids: map<Option<string>, BlockId>): (c: nat)
    requires n <= |proposed|
    ensures c <= n
  {
    if n == 0 then 0
    else ResolvedCount(proposed, n - 1, ids) + (if BothResolve(ids, proposed[n - 1]) then 1 else 0)
  }

  /** The semantic edge for a proposed edge whose ends resolve. */
  function SemanticEdge(e: ParsedEdge, ids: map<Option<string>, BlockId>, id: EdgeId): Edge
    requires BothResolve(ids, e) && e.typeName.Some?
  {
    Edge(id, ids[e.fromKey], ids[e.toKey], MapRelationType(e.typeName.value), None, e.reasoning, Chunker)
  }

  /** The semantic edges built from the first n proposed edges, ids from supply(base). */
  function SemanticEdges(proposed: seq<ParsedEdge>, n: nat, ids: map<Option<string>, BlockId>, supply: nat -> string, base: nat)
    : (r: seq<Edge>)
    requires n <= |proposed| && KeptTypedUpTo(proposed, ids, n)
    ensures |r| == ResolvedCount(proposed, n, ids)
  {
    if n == 0 then []
    else
      var prev := SemanticEdges(proposed, n - 1, ids, supply, base);
      var e := proposed[n - 1];
      if BothResolve(ids, e) then prev + [SemanticEdge(e, ids, supply(base + |prev|))] else prev
  }

  /** ResolvedCount only grows along the list, by one at each edge whose ends resolve. */
  lemma {:induction false} ResolvedCountMonotone(proposed: seq<ParsedEdge>, ids: map<Option<string>, BlockId>, i: nat, j: nat)
    requires i <= j <= |proposed|
    ensures ResolvedCount(proposed, i, ids) <= ResolvedCount(proposed, j, ids)
    ensures i < j && BothResolve(ids, proposed[i]) ==> ResolvedCount(proposed, i, ids) < ResolvedCount(proposed, j, ids)
    decreases j - i
  {
    if i < j {
      ResolvedCountMonotone(proposed, ids, i, j - 1);
    }
  }

  /**
   * An edge is kept exactly when both its ends resolve, in the order proposed: the proposed
   * edge i whose ends resolve becomes the semantic edge at position ResolvedCount(i). As
   * ResolvedCount grows by one exactly at those edges and ends at the number of semantic
   * edges, there are no others.
   */
  lemma {:induction false} SemanticEdgesAt(proposed: seq<ParsedEdge>, n: nat, ids: map<Option<string>, BlockId>, supply: nat -> string, base: nat)
    requires n <= |proposed| && KeptTypedUpTo(proposed, ids, n)
    ensures forall i :: 0 <= i < n && BothResolve(ids, proposed[i]) ==>
              proposed[i].typeName.Some? &&
              ResolvedCount(proposed, i, ids) < |SemanticEdges(proposed, n, ids, supply, base)| &&
              SemanticEdges(proposed, n, ids, supply, base)[ResolvedCount(proposed, i, ids)]
                == SemanticEdge(proposed[i], ids, supply(base + ResolvedCount(proposed, i, ids)))
  {
    if n > 0 {
      SemanticEdgesAt(proposed, n - 1, ids, supply, base);
      forall i | 0 <= i < n - 1 && BothResolve(ids, proposed[i])
        ensures ResolvedCount(proposed, i, ids) < ResolvedCount(proposed, n - 1, ids)
      {
        ResolvedCountMonotone(proposed, ids, i, n - 1);
      }
    }
  }

  /** A reply the source turns into a plan without throwing. */
  predicate Assembles(reply: ParsedReply, supply: nat -> string, start: nat) {
    var chunks := Or(reply.chunks, []);
    var proposed := Or(reply.edges, []);
    TypedUpTo(chunks, |chunks|) && KeptTypedUpTo(proposed, IdMap(supply(start), chunks, supply, start + 1, |chunks|), |proposed|)
  }

  /** The blocks of the plan built from a reply: the manifest, then one block per chunk. */
  function ReplyBlockList(reply: ParsedReply, source: DocumentSource, supply: nat -> string, start: nat, now: string)
    : (bs: seq<Block>)
    requires TypedUpTo(Or(reply.chunks, []), |Or(reply.chunks, [])|)
    ensures |bs| == |Or(reply.chunks, [])| + 1
  {
    var chunks := Or(reply.chunks, []);
    [ReplyManifest(reply.manifest, source, supply(start), now)] + ChunkBlocks(chunks, supply, start + 1, |chunks|)
  }

  /**
   * The edges of the plan built from a reply: one CONTAINS_ORDERED edge per chunk, then the
   * kept semantic edges.
   */
  function ReplyEdgeList(reply: ParsedReply, supply: nat -> string, start: nat): (es: seq<Edge>)
    requires Assembles(reply, supply, start)
    ensures |es| >= |Or(reply.chunks, [])|
  {
    var chunks := Or(reply.chunks, []);
    var proposed := Or(reply.edges, []);
    var n := |chunks|;
    var cbs := ChunkBlocks(chunks, supply, start + 1, n);
    ContainsEdges(supply(start), cbs, supply, start + 1 + n, n, Chunker)
      + SemanticEdges(proposed, |proposed|, IdMap(supply(start), chunks, supply, start + 1, n), supply, start + 1 + 2 * n)
  }

  /**
   * The plan `parseChunkingResponse` builds from a reply that assembles: the manifest (id
   * supply(start)), one block per chunk (ids supply(start + 1 + i)), one CONTAINS_ORDERED
   * edge per chunk (ids following), the kept semantic edges (ids following), then the plan's
   * id. Confidence and reasoning points are computed outside the model and passed in.
   */
  function PlanFromReply(reply: ParsedReply, originalContent: string, source: DocumentSource, supply: nat -> string,
                         start: nat, now: string, confidence: real, reasoning: seq<string>): IngestionPlan
    requires Assembles(reply, supply, start)
  {
    PlanOf(ReplyBlockList(reply, source, supply, start, now), ReplyEdgeList(reply, supply, start), originalContent,
           Or(reply.suggestedTags, []), supply, start, confidence, reasoning)
  }

  /**
   * The pending plan with blocks bs (manifest first) and edges es, whose id is the one the
   * supply gives after the blocks' and edges' ids.
   */
  function PlanOf(bs: seq<Block>, es: seq<Edge>, originalContent: string, tags: seq<Tag>, supply: nat -> string,
                  start: nat, confidence: real, reasoning: seq<string>): IngestionPlan
    requires |bs| > 0
  {
    IngestionPlan(supply(start + |bs| + |es|), Text.Prefix(originalContent, 100), bs[0], bs, es,
                  tags, confidence, reasoning, PlanWarnings(bs, es), Pending)
  }

  /**
   * In an assembled plan the manifest comes first and chunk i becomes block i + 1, with the
   * type and template its name maps to and its position recorded.
   */
  lemma ReplyBlocks(reply: ParsedReply, source: DocumentSource, supply: nat -> string, start: nat, now: string)
    requires Assembles(reply, supply, start)
    ensures var bs := ReplyBlockList(reply, source, supply, start, now);
            var chunks := Or(reply.chunks, []);
            && bs[0].blockType == Manifest && bs[0].id == supply(start)
            && (forall i :: 0 <= i < |chunks| ==>
                  && chunks[i].typeName.Some?
                  && bs[i + 1].id == supply(start + 1 + i)
                  && bs[i + 1].blockType == MapBlockType(chunks[i].typeName.value)
                  && bs[i + 1].templateId == TemplateForTypeName(chunks[i].typeName.value)
                  && "originalIndex" in bs[i + 1].fields && bs[i + 1].fields["originalIndex"] == Num(i))
  {
    var chunks := Or(reply.chunks, []);
    var bs := ReplyBlockList(reply, source, supply, start, now);
    assert bs[0] == ReplyManifest(reply.manifest, source, supply(start), now);
    ChunkBlocksAt(chunks, supply, start + 1, |chunks|);
    forall i | 0 <= i < |chunks|
      ensures && chunks[i].typeName.Some?
              && bs[i + 1].id == supply(start + 1 + i)
              && bs[i + 1].blockType == MapBlockType(chunks[i].typeName.value)
              && bs[i + 1].templateId == TemplateForTypeName(chunks[i].typeName.value)
              && "originalIndex" in bs[i + 1].fields && bs[i + 1].fields["originalIndex"] == Num(i)
    {
      ReplyChunkBlock(reply, source, supply, start, now, chunks, bs, i);
    }
  }

  lemma ReplyChunkBlock(reply: ParsedReply, source: DocumentSource, supply: nat -> string, start: nat, now: string,
                        chunks: seq<ParsedChunk>, bs: seq<Block>, i: nat)
    requires chunks == Or(reply.chunks, []) && TypedUpTo(chunks, |chunks|) && i < |chunks|
    requires bs == ReplyBlockList(reply, source, supply, start, now)
    requires chunks[i].typeName.Some?
    requires ChunkBlocks(chunks, supply, start + 1, |chunks|)[i] == ChunkBlock(chunks[i], i, supply(start + 1 + i))
    ensures bs[i + 1] == ChunkBlock(chunks[i], i, supply(start + 1 + i))
    ensures "originalIndex" in bs[i + 1].fields && bs[i + 1].fields["originalIndex"] == Num(i)
  {
    assert bs[i + 1] == ChunkBlocks(chunks, supply, start + 1, |chunks|)[i];
    ChunkBlockFields(chunks[i], i, supply(start + 1 + i));
  }

  lemma ChunkBlockFields(c: ParsedChunk, index: nat, id: BlockId)
    requires c.typeName.Some?
    ensures "originalIndex" in ChunkBlock(c, index, id).fields
    ensures ChunkBlock(c, index, id).fields["originalIndex"] == Num(index)
  {
    var f := map["reasoning" := FieldOf(c.reasoning), "originalIndex" := Num(index)];
    assert f == ChunkBlock(c, index, id).fields;
    assert "originalIndex" in f;
  }

  /**
   * In an assembled plan edge i, for each chunk i, is a CONTAINS_ORDERED edge from the
   * manifest to block i + 1 with order i.
   */
  lemma ReplyContainsEdges(reply: ParsedReply, supply: nat -> string, start: nat)
    requires Assembles(reply, supply, start)
    ensures var es := ReplyEdgeList(reply, supply, start);
            forall i :: 0 <= i < |Or(reply.chunks, [])| ==>
              && es[i].fromBlockId == supply(start) && es[i].toBlockId == supply(start + 1 + i)
              && es[i].relationType == Structural(ContainsOrdered) && es[i].order == Some(i)
  {
    var chunks := Or(reply.chunks, []);
    var n := |chunks|;
    var proposed := Or(reply.edges, []);
    var es := ReplyEdgeList(reply, supply, start);
    var ses := ContainsEdges(supply(start), ChunkBlocks(chunks, supply, start + 1, n), supply, start + 1 + n, n, Chunker);
    var sem := SemanticEdges(proposed, |proposed|, IdMap(supply(start), chunks, supply, start + 1, n), supply, start + 1 + 2 * n);
    assert es == ses + sem;
    ChunkContainsEdges(chunks, supply, start, n, ses);
    forall i | 0 <= i < n
      ensures && es[i].fromBlockId == supply(start) && es[i].toBlockId == supply(start + 1 + i)
              && es[i].relationType == Structural(ContainsOrdered) && es[i].order == Some(i)
    {
      assert es[i] == ses[i];
      assert ses[i] == ContainsEdge(supply(start), supply(start + 1 + i), i, supply(start + 1 + n + i), Chunker);
    }
  }

  /**
   * After those come the kept semantic edges, resolved through the id map of the manifest
   * and the chunks, with the ids that follow.
   */
  lemma ReplySemanticEdges(reply: ParsedReply, supply: nat -> string, start: nat)
    requires Assembles(reply, supply, start)
    ensures var chunks := Or(reply.chunks, []);
            var n := |chunks|;
            var proposed := Or(reply.edges, []);
            ReplyEdgeList(reply, supply, start)[n..]
            == SemanticEdges(proposed, |proposed|, IdMap(supply(start), chunks, supply, start + 1, n), supply, start + 1 + 2 * n)
  {
    var chunks := Or(reply.chunks, []);
    var n := |chunks|;
    var proposed := Or(reply.edges, []);
    var es := ReplyEdgeList(reply, supply, start);
    var ses := ContainsEdges(supply(start), ChunkBlocks(chunks, supply, start + 1, n), supply, start + 1 + n, n, Chunker);
    var sem := SemanticEdges(proposed, |proposed|, IdMap(supply(start), chunks, supply, start + 1, n), supply, start + 1 + 2 * n);
    assert es == ses + sem;
    assert es[n..] == sem;
  }

  /** Chunk block i has id supply(base + i). */
  /** The i-th CONTAINS_ORDERED edge of a reply links the manifest to the block of chunk i. */
  lemma ChunkContainsEdges(chunks: seq<ParsedChunk>, supply: nat -> string, start: nat, n: nat, ses: seq<Edge>)
    requires n == |chunks| && TypedUpTo(chunks, n)
    requires ses == ContainsEdges(supply(start), ChunkBlocks(chunks, supply, start + 1, n), supply, start + 1 + n, n, Chunker)
    ensures |ses| == n
    ensures forall i :: 0 <= i < n ==> ses[i] == ContainsEdge(supply(start), supply(start + 1 + i), i, supply(start + 1 + n + i), Chunker)
  {
    var cbs := ChunkBlocks(chunks, supply, start + 1, n);
    ContainsEdgesAt(supply(start), cbs, supply, start + 1 + n, n, Chunker);
    ChunkBlockIds(chunks, supply, start + 1, n);
    forall i | 0 <= i < n
      ensures ses[i] == ContainsEdge(supply(start), supply(start + 1 + i), i, supply(start + 1 + n + i), Chunker)
    {
      assert ses[i] == ContainsEdge(supply(start), cbs[i].id, i, supply(start + 1 + n + i), Chunker);
      assert cbs[i].id == supply(start + 1 + i);
    }
  }

  lemma {:induction false} ChunkBlockIds(chunks: seq<ParsedChunk>, supply: nat -> string, base: nat, n: nat)
    requires n <= |chunks| && TypedUpTo(chunks, n)
    ensures forall i :: 0 <= i < n ==> ChunkBlocks(chunks, supply, base, n)[i].id == supply(base + i)
  {
    if n > 0 {
      ChunkBlockIds(chunks, supply, base, n - 1);
      var prev := ChunkBlocks(chunks, supply, base, n - 1);
      var last := ChunkBlock(chunks[n - 1], n - 1, supply(base + n - 1));
      assert ChunkBlocks(chunks, supply, base, n) == prev + [last];
      forall i | 0 <= i < n ensures ChunkBlocks(chunks, supply, base, n)[i].id == supply(base + i) {
        if i < n - 1 {
          assert (prev + [last])[i] == prev[i];
        }
      }
    }
  }

  /**
   * `validatePlan` finds no orphans in an assembled plan: every chunk block is the target of
   * its CONTAINS_ORDERED edge and the manifest is exempt.
   */
  lemma AssembledPlanHasNoOrphans(reply: ParsedReply, source: DocumentSource, supply: nat -> string, start: nat, now: string)
    requires Assembles(reply, supply, start)
    ensures var bs := ReplyBlockList(reply, source, supply, start, now);
            var es := ReplyEdgeList(reply, supply, start);
            OrphanWarnings(bs, |bs|, Endpoints(es, |es|)) == []
  {
    var chunks := Or(reply.chunks, []);
    var proposed := Or(reply.edges, []);
    var n := |chunks|;
    ContainedBlocksAreNoOrphans(ReplyBlockList(reply, source, supply, start, now), ReplyEdgeList(reply, supply, start),
                                ReplyManifest(reply.manifest, source, supply(start), now), ChunkBlocks(chunks, supply, start + 1, n),
                                supply(start), supply, start + 1 + n, Chunker,
                                SemanticEdges(proposed, |proposed|, IdMap(supply(start), chunks, supply, start + 1, n), supply, start + 1 + 2 * n));
  }

  /**
   * A manifest followed by blocks, with one CONTAINS_ORDERED edge per block ahead of any
   * other edges, gets no orphan warning.
   */
  lemma ContainedBlocksAreNoOrphans(bs: seq<Block>, es: seq<Edge>, m: Block, cbs: seq<Block>, manifestId: BlockId,
                                    supply: nat -> string, base: nat, author: string, more: seq<Edge>)
    requires m.blockType == Manifest && bs == [m] + cbs
    requires es == ContainsEdges(manifestId, cbs, supply, base, |cbs|, author) + more
    ensures OrphanWarnings(bs, |bs|, Endpoints(es, |es|)) == []
  {
    var ses := ContainsEdges(manifestId, cbs, supply, base, |cbs|, author);
    ContainsEdgesTargets(manifestId, cbs, supply, base, |cbs|, author);
    forall i | 1 <= i < |bs| ensures bs[i].id == es[i - 1].toBlockId {
      assert bs[i] == cbs[i - 1];
      assert es[i - 1] == ses[i - 1];
    }
    LinkedBlocksAreNoOrphans(bs, es);
  }

  /**
   * Blocks headed by a manifest, each later block the target of the edge at its position
   * minus one, get no orphan warning.
   */
  lemma LinkedBlocksAreNoOrphans(bs: seq<Block>, es: seq<Edge>)
    requires |bs| >= 1 && bs[0].blockType == Manifest && |es| >= |bs| - 1
    requires forall i :: 1 <= i < |bs| ==> bs[i].id == es[i - 1].toBlockId
    ensures OrphanWarnings(bs, |bs|, Endpoints(es, |es|)) == []
  {
    var connected := Endpoints(es, |es|);
    LinkedTargetsAreEndpoints(bs, es);
    forall i | 0 <= i < |bs| ensures !Orphaned(bs[i], connected) {
      if i == 0 {
        assert bs[i].blockType == Manifest;
      } else {
        assert bs[i].id in connected;
      }
    }
    NoOrphansNoWarnings(bs, |bs|, connected);
  }

  /** Every block after the first is an endpoint when it is the target of the edge before it. */
  lemma LinkedTargetsAreEndpoints(bs: seq<Block>, es: seq<Edge>)
    requires |bs| <= |es| + 1
    requires forall i :: 1 <= i < |bs| ==> bs[i].id == es[i - 1].toBlockId
    ensures forall i :: 1 <= i < |bs| ==> bs[i].id in Endpoints(es, |es|)
  {
    forall i | 1 <= i < |bs| ensures bs[i].id in Endpoints(es, |es|) {
      TargetIsEndpoint(es, |es|, i - 1);
    }
  }

  /** The target of edge k is an endpoint of every longer prefix. */
  lemma {:induction false} TargetIsEndpoint(edges: seq<Edge>, n: nat, k: nat)
    requires k < n <= |edges|
    ensures edges[k].toBlockId in Endpoints(edges, n)
  {
    if k < n - 1 {
      TargetIsEndpoint(edges, n - 1, k);
    }
  }

  /**
   * The plan built from a reply holds the blocks and edges above, the manifest first, and
   * warns about nothing but block sizes.
   */
  lemma PlanFromReplyParts(reply: ParsedReply, originalContent: string, source: DocumentSource, supply: nat -> string,
                           start: nat, now: string, confidence: real, reasoning: seq<string>)
    requires Assembles(reply, supply, start)
    ensures var p := PlanFromReply(reply, originalContent, source, supply, start, now, confidence, reasoning);
            && p.blocks == ReplyBlockList(reply, source, supply, start, now) && p.manifest == p.blocks[0]
            && p.edges == ReplyEdgeList(reply, supply, start)
            && p.warnings == SizeWarnings(p.blocks, |p.blocks|)
  {
    AssembledPlanHasNoOrphans(reply, source, supply, start, now);
  }

  // ---------------------------------------------------------------------------------------
  // Assembling a plan (`parseChunkingResponse` after the JSON has been parsed)
  // ---------------------------------------------------------------------------------------

  /**
   * The chunk loop: a fresh id per chunk, recorded under the chunk's key, then the block.
   * It stops at the first chunk without a type, as `type.toLowerCase()` throws there, having
   * used the ids up to and including that chunk's.
   */
  method BuildChunkBlocks(chunks: seq<ParsedChunk>, manifestId: BlockId, supply: nat -> string, base: nat)
    returns (r: Option<seq<Block>>, ids: map<Option<string>, BlockId>, next: nat)
    ensures r.Some? <==> TypedUpTo(chunks, |chunks|)
    ensures r.Some? ==> r.value == ChunkBlocks(chunks, supply, base, |chunks|) && next == base + |chunks|
    ensures r.Some? ==> ids == IdMap(manifestId, chunks, supply, base, |chunks|)
    ensures r.None? ==> next > base
  {
    var blocks: seq<Block> := [];
    ids := map[Some("manifest") := manifestId];
    var i := 0;
    while i < |chunks|
      invariant 0 <= i <= |chunks| && TypedUpTo(chunks, i)
      invariant ids == IdMap(manifestId, chunks, supply, base, i)
      invariant blocks == ChunkBlocks(chunks, supply, base, i)
    {
      var id := supply(base + i);
      ids := ids[chunks[i].key := id];
      if chunks[i].typeName.None? {
        TypedUpToExact(chunks, |chunks|);
        return None, ids, base + i + 1;
      }
      blocks := blocks + [ChunkBlock(chunks[i], i, id)];
      i := i + 1;
    }
    return Some(blocks), ids, base + |chunks|;
  }

  /** The structural loop: one CONTAINS_ORDERED edge from the manifest per chunk block, ordered by position. */
  method BuildContainsEdges(manifestId: BlockId, chunkBlocks: seq<Block>, supply: nat -> string, base: nat, author: string)
    returns (edges: seq<Edge>)
    ensures edges == ContainsEdges(manifestId, chunkBlocks, supply, base, |chunkBlocks|, author)
  {
    edges := [];
    var i := 0;
    while i < |chunkBlocks|
      invariant 0 <= i <= |chunkBlocks|
      invariant edges == ContainsEdges(manifestId, chunkBlocks, supply, base, i, author)
    {
      edges := edges + [ContainsEdge(manifestId, chunkBlocks[i].id, i, supply(base + i), author)];
      i := i + 1;
    }
  }

  /**
   * The semantic loop: a proposed edge is kept when both ends resolve. It stops at the first
   * kept edge without a type, as `type.toUpperCase()` throws there.
   */
  method BuildSemanticEdges(proposed: seq<ParsedEdge>, ids: map<Option<string>, BlockId>, supply: nat -> string, base: nat)
    returns (r: Option<seq<Edge>>, next: nat)
    ensures r.Some? <==> KeptTypedUpTo(proposed, ids, |proposed|)
    ensures r.Some? ==> r.value == SemanticEdges(proposed, |proposed|, ids, supply, base) && next == base + |r.value|
    ensures r.None? ==> next > base
  {
    var edges: seq<Edge> := [];
    var i := 0;
    while i < |proposed|
      invariant 0 <= i <= |proposed| && KeptTypedUpTo(proposed, ids, i)
      invariant edges == SemanticEdges(proposed, i, ids, supply, base)
    {
      var e := proposed[i];
      if BothResolve(ids, e) {
        if e.typeName.None? {
          KeptTypedUpToExact(proposed, ids, |proposed|);
          return None, base + |edges| + 1;
        }
        edges := edges + [SemanticEdge(e, ids, supply(base + |edges|))];
      }
      i := i + 1;
    }
    return Some(edges), base + |edges|;
  }

  /**
   * `parseChunkingResponse` from the parsed reply on: the plan of PlanFromReply when the reply
   * assembles, nothing when one of the loops throws (next is then where the fresh ids stand).
   */
  method AssemblePlan(reply: ParsedReply, originalContent: string, source: DocumentSource, supply: nat -> string,
                      start: nat, now: string, confidence: real, reasoning: seq<string>)
    returns (r: Option<IngestionPlan>, next: nat)
    ensures r.Some? <==> Assembles(reply, supply, start)
    ensures r.Some? ==> r.value == PlanFromReply(reply, originalContent, source, supply, start, now, confidence, reasoning)
    ensures next > start
  {
    var parts, after := BuildReplyParts(reply, source, supply, start, now);
    if parts.None? {
      return None, after;
    }
    var bs, es := parts.value.blocks, parts.value.edges;
    var warnings := ValidatePlan(bs, es);
    var plan := IngestionPlan(supply(after), Text.Prefix(originalContent, 100), bs[0], bs, es,
                              Or(reply.suggestedTags, []), confidence, reasoning, warnings, Pending);
    PlanFromReplyIsPlanOf(reply, originalContent, source, supply, start, now, confidence, reasoning, bs, es, warnings);
    r := Some(plan);
    next := after + 1;
  }

  lemma PlanFromReplyIsPlanOf(reply: ParsedReply, originalContent: string, source: DocumentSource, supply: nat -> string,
                              start: nat, now: string, confidence: real, reasoning: seq<string>, bs: seq<Block>, es: seq<Edge>,
                              warnings: seq<PlanWarning>)
    requires Assembles(reply, supply, start)
    requires bs == ReplyBlockList(reply, source, supply, start, now) && es == ReplyEdgeList(reply, supply, start)
    requires warnings == PlanWarnings(bs, es)
    ensures PlanFromReply(reply, originalContent, source, supply, start, now, confidence, reasoning)
            == IngestionPlan(supply(start + |bs| + |es|), Text.Prefix(originalContent, 100), bs[0], bs, es,
                             Or(reply.suggestedTags, []), confidence, reasoning, warnings, Pending)
  {
  }

  lemma ReplyEdgesAre(reply: ParsedReply, supply: nat -> string, start: nat, n: nat, cbs: seq<Block>,
                      ids: map<Option<string>, BlockId>, ses: seq<Edge>, sem: seq<Edge>)
    requires n == |Or(reply.chunks, [])| && TypedUpTo(Or(reply.chunks, []), n)
    requires cbs == ChunkBlocks(Or(reply.chunks, []), supply, start + 1, n)
    requires ids == IdMap(supply(start), Or(reply.chunks, []), supply, start + 1, n)
    requires KeptTypedUpTo(Or(reply.edges, []), ids, |Or(reply.edges, [])|)
    requires ses == ContainsEdges(supply(start), cbs, supply, start + 1 + n, n, Chunker)
    requires sem == SemanticEdges(Or(reply.edges, []), |Or(reply.edges, [])|, ids, supply, start + 1 + 2 * n)
    ensures Assembles(reply, supply, start)
    ensures ses + sem == ReplyEdgeList(reply, supply, start)
  {
    ReplyEdgeListIs(reply, supply, start);
  }

  lemma ReplyEdgeListIs(reply: ParsedReply, supply: nat -> string, start: nat)
    requires Assembles(reply, supply, start)
    ensures var chunks := Or(reply.chunks, []);
            var proposed := Or(reply.edges, []);
            var n := |chunks|;
            ReplyEdgeList(reply, supply, start)
            == ContainsEdges(supply(start), ChunkBlocks(chunks, supply, start + 1, n), supply, start + 1 + n, n, Chunker)
               + SemanticEdges(proposed, |proposed|, IdMap(supply(start), chunks, supply, start + 1, n), supply, start + 1 + 2 * n)
  {
  }

  /**
   * The loops of `parseChunkingResponse`: the manifest and the chunk blocks, the
   * CONTAINS_ORDERED edges, then the kept semantic edges; next is the first id not used.
   */
  method BuildReplyParts(reply: ParsedReply, source: DocumentSource, supply: nat -> string, start: nat, now: string)
    returns (r: Option<Parts>, next: nat)
    ensures r.Some? <==> Assembles(reply, supply, start)
    ensures r.Some? ==> && r.value.blocks == ReplyBlockList(reply, source, supply, start, now)
                        && r.value.edges == ReplyEdgeList(reply, supply, start)
                        && next == start + |r.value.blocks| + |r.value.edges|
    ensures r.None? ==> next > start
  {
    var chunks := Or(reply.chunks, []);
    var manifestId := supply(start);
    var cbs, ids, afterChunks := BuildChunkBlocks(chunks, manifestId, supply, start + 1);
    if cbs.None? {
      return None, afterChunks;
    }
    var es, afterEdges := BuildReplyEdges(reply, supply, start, cbs.value, ids);
    if es.None? {
      return None, afterEdges;
    }
    r := Some(Parts([ReplyManifest(reply.manifest, source, manifestId, now)] + cbs.value, es.value));
    next := afterEdges;
  }

  /** The two edge loops of `parseChunkingResponse`, once the chunk blocks are built. */
  method BuildReplyEdges(reply: ParsedReply, supply: nat -> string, start: nat, cbs: seq<Block>, ids: map<Option<string>, BlockId>)
    returns (r: Option<seq<Edge>>, next: nat)
    requires var chunks := Or(reply.chunks, []);
             && TypedUpTo(chunks, |chunks|)
             && cbs == ChunkBlocks(chunks, supply, start + 1, |chunks|)
             && ids == IdMap(supply(start), chunks, supply, start + 1, |chunks|)
    ensures r.Some? <==> Assembles(reply, supply, start)
    ensures r.Some? ==> r.value == ReplyEdgeList(reply, supply, start) && next == start + 1 + |cbs| + |r.value|
    ensures r.None? ==> next > start
  {
    var n := |Or(reply.chunks, [])|;
    assert |cbs| == n;
    var proposed := Or(reply.edges, []);
    var ses := BuildContainsEdges(supply(start), cbs, supply, start + 1 + n, Chunker);
    var sem, afterEdges := BuildSemanticEdges(proposed, ids, supply, start + 1 + 2 * n);
    if sem.None? {
      return None, afterEdges;
    }
    ReplyEdgesAre(reply, supply, start, n, cbs, ids, ses, sem.value);
    r := Some(ses + sem.value);
    next := afterEdges;
  }

  /**
   * `parseChunkingResponse`: no JSON in the reply, or a reply that throws while being
   * assembled, gives the fallback plan of the original text.
   */
  method ParseChunkingResponse(reply: Option<ParsedReply>, originalContent: string, source: DocumentSource,
                               supply: nat -> string, start: nat, now: string, confidence: real, reasoning: seq<string>)
    returns (plan: IngestionPlan)
    ensures reply.None? ==> plan == FallbackPlan(Inline(originalContent), supply, start)
    ensures reply.Some? && Assembles(reply.value, supply, start) ==>
              plan == PlanFromReply(reply.value, originalContent, source, supply, start, now, confidence, reasoning)
    ensures reply.Some? && !Assembles(reply.value, supply, start) ==>
              exists k :: start < k && plan == FallbackPlan(Inline(originalContent), supply, k)
  {
    if reply.None? {
      plan := CreateFallbackPlan(Inline(originalContent), supply, start);
      return;
    }
    var r, next := AssemblePlan(reply.value, originalContent, source, supply, start, now, confidence, reasoning);
    if r.Some? {
      plan := r.value;
    } else {
      plan := CreateFallbackPlan(Inline(originalContent), supply, next);
    }
  }

  // ---------------------------------------------------------------------------------------
  // Plan warnings (`validatePlan`)
  // ---------------------------------------------------------------------------------------

  /** The ids at either end of the first n edges. */
  function Endpoints(edges: seq<Edge>, n: nat): (r: set<BlockId>)
    requires n <= |edges|
  {
    if n == 0 then {} else Endpoints(edges, n - 1) + {edges[n - 1].fromBlockId, edges[n - 1].toBlockId}
  }

  /** Some edge among the first n has id at one of its ends. */
  predicate Touches(edges: seq<Edge>, n: nat, id: BlockId)
    requires n <= |edges|
  {
    exists i :: 0 <= i < n && (edges[i].fromBlockId == id || edges[i].toBlockId == id)
  }

  /** The endpoint set holds exactly the ids that some edge touches. */
  lemma {:induction false} EndpointsExact(edges: seq<Edge>, n: nat)
    requires n <= |edges|
    ensures forall id :: id in Endpoints(edges, n) <==> Touches(edges, n, id)
  {
    if n > 0 {
      EndpointsExact(edges, n - 1);
      forall id ensures Touches(edges, n, id) <==>
                        Touches(edges, n - 1, id) || edges[n - 1].fromBlockId == id || edges[n - 1].toBlockId == id {
        if Touches(edges, n, id) && edges[n - 1].fromBlockId != id && edges[n - 1].toBlockId != id {
          var i :| 0 <= i < n && (edges[i].fromBlockId == id || edges[i].toBlockId == id);
          assert i < n - 1;
        }
      }
    }
  }

  /** A block other than a manifest that no edge touches. */
  predicate Orphaned(b: Block, connected: set<BlockId>) {
    b.blockType != Manifest && b.id !in connected
  }

  /**
   * `content.split(/\\s+/).length`, the pattern as the source text writes it: pieces
   * separated by a backslash followed by one or more letters 's'.
   */
  function WordCount(content: string): (n: nat)
    ensures n >= 1
  {
    |Text.SplitRun(content, "\\", 's', "")|
  }

  /** Ordinary white space separates nothing: text without a backslash counts as one word. */
  lemma PlainTextIsOneWord(content: string)
    requires '\\' !in content
    ensures WordCount(content) == 1
  {
    Text.SplitRunWithoutLead(content, "\\", 's', "");
  }

  /** The orphan warnings for the first n blocks. */
  function OrphanWarnings(blocks: seq<Block>, n: nat, connected: set<BlockId>): (ws: seq<PlanWarning>)
    requires n <= |blocks|
    ensures |ws| <= n
  {
    if n == 0 then []
    else
      OrphanWarnings(blocks, n - 1, connected)
      + (if Orphaned(blocks[n - 1], connected) then [NoRelationships(blocks[n - 1].title)] else [])
  }

  /** The size warnings for one block. */
  function SizeWarningsOf(b: Block): seq<PlanWarning> {
    var words := WordCount(b.content);
    (if words < 10 && b.blockType != Manifest then [VeryShort(b.title, words)] else [])
    + (if words > 1000 then [VeryLong(b.title, words)] else [])
  }

  /** The size warnings for the first n blocks, block by block. */
  function SizeWarnings(blocks: seq<Block>, n: nat): (ws: seq<PlanWarning>)
    requires n <= |blocks|
  {
    if n == 0 then [] else SizeWarnings(blocks, n - 1) + SizeWarningsOf(blocks[n - 1])
  }

  /** `validatePlan`: all orphan warnings, then all size warnings. */
  function PlanWarnings(blocks: seq<Block>, edges: seq<Edge>): seq<PlanWarning> {
    OrphanWarnings(blocks, |blocks|, Endpoints(edges, |edges|)) + SizeWarnings(blocks, |blocks|)
  }

  /** Some block among the first n is orphaned and has the given title. */
  predicate OrphanTitled(blocks: seq<Block>, n: nat, connected: set<BlockId>, title: string)
    requires n <= |blocks|
  {
    exists i :: 0 <= i < n && Orphaned(blocks[i], connected) && blocks[i].title == title
  }

  /**
   * An orphan warning is present for each orphaned block, and every orphan warning is for an
   * orphaned block.
   */
  lemma {:induction false} OrphanWarningsExact(blocks: seq<Block>, n: nat, connected: set<BlockId>)
    requires n <= |blocks|
    ensures forall i :: 0 <= i < n && Orphaned(blocks[i], connected) ==>
              NoRelationships(blocks[i].title) in OrphanWarnings(blocks, n, connected)
    ensures forall w :: w in OrphanWarnings(blocks, n, connected) ==>
              w.NoRelationships? && OrphanTitled(blocks, n, connected, w.title)
  {
    if n > 0 {
      OrphanWarningsExact(blocks, n - 1, connected);
      forall title | OrphanTitled(blocks, n - 1, connected, title) ensures OrphanTitled(blocks, n, connected, title) {
        var i :| 0 <= i < n - 1 && Orphaned(blocks[i], connected) && blocks[i].title == title;
      }
    }
  }

  /** There is one orphan warning per orphaned block. */
  lemma {:induction false} OrphanWarningsCount(blocks: seq<Block>, n: nat, connected: set<BlockId>)
    requires n <= |blocks|
    ensures |OrphanWarnings(blocks, n, connected)| == |set i | 0 <= i < n && Orphaned(blocks[i], connected)|
  {
    if n > 0 {
      OrphanWarningsCount(blocks, n - 1, connected);
      var prev := set i | 0 <= i < n - 1 && Orphaned(blocks[i], connected);
      var all := set i | 0 <= i < n && Orphaned(blocks[i], connected);
      if Orphaned(blocks[n - 1], connected) {
        assert all == prev + {n - 1};
      } else {
        assert all == prev;
      }
    }
  }

  /** Without orphaned blocks there are no orphan warnings. */
  lemma {:induction false} NoOrphansNoWarnings(blocks: seq<Block>, n: nat, connected: set<BlockId>)
    requires n <= |blocks|
    requires forall i :: 0 <= i < n ==> !Orphaned(blocks[i], connected)
    ensures OrphanWarnings(blocks, n, connected) == []
  {
    if n > 0 {
      NoOrphansNoWarnings(blocks, n - 1, connected);
    }
  }

  /** Block i is a block other than a manifest under 10 words. */
  predicate IsShort(blocks: seq<Block>, i: nat)
    requires i < |blocks|
  {
    WordCount(blocks[i].content) < 10 && blocks[i].blockType != Manifest
  }

  /** Block i is over 1000 words. */
  predicate IsLong(blocks: seq<Block>, i: nat)
    requires i < |blocks|
  {
    WordCount(blocks[i].content) > 1000
  }

  /** Some block among the first n matches the size warning w. */
  predicate SizeWarned(blocks: seq<Block>, n: nat, w: PlanWarning)
    requires n <= |blocks|
  {
    exists i :: 0 <= i < n && (
      || (IsShort(blocks, i) && w == VeryShort(blocks[i].title, WordCount(blocks[i].content)))
      || (IsLong(blocks, i) && w == VeryLong(blocks[i].title, WordCount(blocks[i].content))))
  }

  /**
   * A block other than a manifest under 10 words is warned about as short, a block over 1000
   * words as long, and every size warning is one of those.
   */
  lemma SizeWarningsExact(blocks: seq<Block>, n: nat)
    requires n <= |blocks|
    ensures forall i :: 0 <= i < n && IsShort(blocks, i) ==>
              VeryShort(blocks[i].title, WordCount(blocks[i].content)) in SizeWarnings(blocks, n)
    ensures forall i :: 0 <= i < n && IsLong(blocks, i) ==>
              VeryLong(blocks[i].title, WordCount(blocks[i].content)) in SizeWarnings(blocks, n)
    ensures forall w :: w in SizeWarnings(blocks, n) ==> SizeWarned(blocks, n, w)
  {
    SizeWarningsComplete(blocks, n);
    SizeWarningsSound(blocks, n);
  }

  lemma {:induction false} SizeWarningsComplete(blocks: seq<Block>, n: nat)
    requires n <= |blocks|
    ensures forall i :: 0 <= i < n && IsShort(blocks, i) ==>
              VeryShort(blocks[i].title, WordCount(blocks[i].content)) in SizeWarnings(blocks, n)
    ensures forall i :: 0 <= i < n && IsLong(blocks, i) ==>
              VeryLong(blocks[i].title, WordCount(blocks[i].content)) in SizeWarnings(blocks, n)
  {
    if n > 0 {
      SizeWarningsComplete(blocks, n - 1);
      var prev, last := SizeWarnings(blocks, n - 1), SizeWarningsOf(blocks[n - 1]);
      assert SizeWarnings(blocks, n) == prev + last;
      forall i | 0 <= i < n && IsShort(blocks, i)
        ensures VeryShort(blocks[i].title, WordCount(blocks[i].content)) in prev + last
      {
        if i < n - 1 {
          assert VeryShort(blocks[i].title, WordCount(blocks[i].content)) in prev;
        }
      }
      forall i | 0 <= i < n && IsLong(blocks, i)
        ensures VeryLong(blocks[i].title, WordCount(blocks[i].content)) in prev + last
      {
        if i < n - 1 {
          assert VeryLong(blocks[i].title, WordCount(blocks[i].content)) in prev;
        }
      }
    }
  }

  lemma {:induction false} SizeWarningsSound(blocks: seq<Block>, n: nat)
    requires n <= |blocks|
    ensures forall w :: w in SizeWarnings(blocks, n) ==> SizeWarned(blocks, n, w)
  {
    if n > 0 {
      SizeWarningsSound(blocks, n - 1);
      var prev, last := SizeWarnings(blocks, n - 1), SizeWarningsOf(blocks[n - 1]);
      assert SizeWarnings(blocks, n) == prev + last;
      forall w | w in prev + last ensures SizeWarned(blocks, n, w) {
        if w in prev {
          assert SizeWarned(blocks, n - 1, w);
          var i :| 0 <= i < n - 1 && (
            || (IsShort(blocks, i) && w == VeryShort(blocks[i].title, WordCount(blocks[i].content)))
            || (IsLong(blocks, i) && w == VeryLong(blocks[i].title, WordCount(blocks[i].content))));
        } else {
          var i := n - 1;
          assert IsShort(blocks, i) || IsLong(blocks, i);
        }
      }
    }
  }

  /**
   * With the pattern as written, every block other than a manifest whose content has no
   * backslash is reported as very short, with one word.
   */
  lemma PlainBlocksAreShort(blocks: seq<Block>, i: nat)
    requires i < |blocks| && '\\' !in blocks[i].content && blocks[i].blockType != Manifest
    ensures VeryShort(blocks[i].title, 1) in SizeWarnings(blocks, |blocks|)
  {
    PlainTextIsOneWord(blocks[i].content);
    SizeWarningsExact(blocks, |blocks|);
  }

  /** The first loop of `validatePlan`: the set of ids at either end of some edge. */
  method CollectEndpoints(edges: seq<Edge>) returns (connected: set<BlockId>)
    ensures connected == Endpoints(edges, |edges|)
  {
    connected := {};
    var i := 0;
    while i < |edges|
      invariant 0 <= i <= |edges| && connected == Endpoints(edges, i)
    {
      connected := connected + {edges[i].fromBlockId, edges[i].toBlockId};
      i := i + 1;
    }
  }

  /** `validatePlan`: collects the edges' endpoints, then warns about orphans, then about sizes. */
  method ValidatePlan(blocks: seq<Block>, edges: seq<Edge>) returns (warnings: seq<PlanWarning>)
    ensures warnings == PlanWarnings(blocks, edges)
  {
    var connected := CollectEndpoints(edges);
    var orphans := CollectOrphanWarnings(blocks, connected);
    var sizes := CollectSizeWarnings(blocks);
    warnings := orphans + sizes;
  }

  /** The orphan loop of `validatePlan`. */
  method CollectOrphanWarnings(blocks: seq<Block>, connected: set<BlockId>) returns (warnings: seq<PlanWarning>)
    ensures warnings == OrphanWarnings(blocks, |blocks|, connected)
  {
    warnings := [];
    var i := 0;
    while i < |blocks|
      invariant 0 <= i <= |blocks| && warnings == OrphanWarnings(blocks, i, connected)
    {
      var b := blocks[i];
      if b.blockType != Manifest && b.id !in connected {
        warnings := warnings + [NoRelationships(b.title)];
      }
      i := i + 1;
    }
  }

  /** The size loop of `validatePlan`. */
  method CollectSizeWarnings(blocks: seq<Block>) returns (warnings: seq<PlanWarning>)
    ensures warnings == SizeWarnings(blocks, |blocks|)
  {
    warnings := [];
    var i := 0;
    while i < |blocks|
      invariant 0 <= i <= |blocks| && warnings == SizeWarnings(blocks, i)
    {
      var b := blocks[i];
      var words := WordCount(b.content);
      var before := warnings;
      if words < 10 && b.blockType != Manifest {
        warnings := warnings + [VeryShort(b.title, words)];
      }
      if words > 1000 {
        warnings := warnings + [VeryLong(b.title, words)];
      }
      assert warnings == before + SizeWarningsOf(b);
      i := i + 1;
    }
  }

  // ---------------------------------------------------------------------------------------
  // The fallback plan (`createFallbackPlan`)
  // ---------------------------------------------------------------------------------------

  /** The text the fallback chunks: the source text, or nothing for a file. */
  function SourceText(source: DocumentSource): string {
    match source
    case Inline(text) => text
    case UploadedFile => ""
  }

  /**
   * `content.split(/\\n\\n+/)`, the pattern as the source text writes it: pieces separated by
   * a backslash, 'n', a backslash and one or more letters 'n'.
   */
  function Paragraphs(content: string): (ps: seq<string>)
    ensures |ps| >= 1
  {
    Text.SplitRun(content, "\\n\\", 'n', "")
  }

  /** `p.trim().length > 0`. */
  predicate NonBlank(p: string) {
    !Text.Blank(p)
  }

  /** The positions among the first n paragraphs that are not blank, ascending. */
  function NonBlankIndices(ps: seq<string>, n: nat): (ix: seq<nat>)
    requires n <= |ps|
    ensures |ix| <= n
  {
    if n == 0 then []
    else
      var prev := NonBlankIndices(ps, n - 1);
      if NonBlank(ps[n - 1]) then prev + [n - 1] else prev
  }

  /**
   * NonBlankIndices lists, in ascending order, exactly the positions of the non-blank
   * paragraphs among the first n.
   */
  lemma {:induction false} NonBlankIndicesExact(ps: seq<string>, n: nat)
    requires n <= |ps|
    ensures var ix := NonBlankIndices(ps, n);
            && (forall k :: 0 <= k < |ix| ==> ix[k] < n && NonBlank(ps[ix[k]]))
            && (forall k, l :: 0 <= k < l < |ix| ==> ix[k] < ix[l])
            && (forall i :: 0 <= i < n && NonBlank(ps[i]) ==> i in ix)
  {
    if n > 0 {
      NonBlankIndicesExact(ps, n - 1);
      var prev := NonBlankIndices(ps, n - 1);
      assert forall j :: 0 <= j < |prev| ==> prev[j] < n - 1 && NonBlank(ps[prev[j]]);
      if NonBlank(ps[n - 1]) {
        var ix := prev + [n - 1];
        assert NonBlankIndices(ps, n) == ix;
        forall k | 0 <= k < |ix| ensures ix[k] < n && NonBlank(ps[ix[k]]) {
          if k < |prev| {
            assert prev[k] < n - 1 && NonBlank(ps[prev[k]]);
            assert ix[k] == prev[k];
          } else {
            assert ix[k] == n - 1;
          }
        }
        forall k, l | 0 <= k < l < |ix| ensures ix[k] < ix[l] {
          assert ix[k] == prev[k];
          if l < |prev| {
            assert ix[l] == prev[l];
          }
        }
        forall i | 0 <= i < n && NonBlank(ps[i]) ensures i in ix {
          if i < n - 1 {
            assert i in prev;
          } else {
            assert ix[|prev|] == i;
          }
        }
      } else {
        assert NonBlankIndices(ps, n) == prev;
      }
    }
  }

  function FallbackManifest(id: BlockId): Block {
    Block(id, Manifest, "doc.manifest", "Imported Document", "Document imported using fallback chunking",
          map[], [], Draft, Mutable, FallbackChunker, FallbackChunker, 1)
  }

  /** The author recorded on every block and edge of a fallback plan. */
  const FallbackChunker: string := "fallback-chunker"

  /** The NOTE block for the paragraph at position index. */
  function ParagraphBlock(p: string, index: nat, id: BlockId): Block {
    Block(id, Note, "default", "Paragraph " + Text.NatToString(index + 1), Text.Trim(p),
          map[], [], Draft, Mutable, FallbackChunker, FallbackChunker, 1)
  }

  datatype Parts = Parts(blocks: seq<Block>, edges: seq<Edge>)

  /**
   * The blocks and edges for the first n paragraphs: for the k-th non-blank one, its block
   * (id supply(start + 1 + 2k)) and its CONTAINS_ORDERED edge (id supply(start + 2 + 2k)).
   */
  function FallbackParts(ps: seq<string>, n: nat, manifestId: BlockId, supply: nat -> string, start: nat): (r: Parts)
    requires n <= |ps|
    ensures |r.blocks| == |r.edges|
  {
    if n == 0 then Parts([], [])
    else
      var prev := FallbackParts(ps, n - 1, manifestId, supply, start);
      if NonBlank(ps[n - 1]) then
        var k := |prev.blocks|;
        var b := ParagraphBlock(ps[n - 1], n - 1, supply(start + 1 + 2 * k));
        Parts(prev.blocks + [b], prev.edges + [ContainsEdge(manifestId, b.id, n - 1, supply(start + 2 + 2 * k), FallbackChunker)])
      else prev
  }

  lemma {:induction false} FallbackPartsAt(ps: seq<string>, n: nat, manifestId: BlockId, supply: nat -> string, start: nat)
    requires n <= |ps|
    ensures var r := FallbackParts(ps, n, manifestId, supply, start);
            var ix := NonBlankIndices(ps, n);
            |r.blocks| == |ix| &&
            forall k :: 0 <= k < |ix| ==>
              && ix[k] < n
              && r.blocks[k] == ParagraphBlock(ps[ix[k]], ix[k], supply(start + 1 + 2 * k))
              && r.edges[k] == ContainsEdge(manifestId, r.blocks[k].id, ix[k], supply(start + 2 + 2 * k), FallbackChunker)
  {
    NonBlankIndicesExact(ps, n);
    if n > 0 {
      FallbackPartsAt(ps, n - 1, manifestId, supply, start);
      var prev := FallbackParts(ps, n - 1, manifestId, supply, start);
      var ixp := NonBlankIndices(ps, n - 1);
      var r := FallbackParts(ps, n, manifestId, supply, start);
      var ix := NonBlankIndices(ps, n);
      if NonBlank(ps[n - 1]) {
        assert ix == ixp + [n - 1];
        assert r.blocks[..|ixp|] == prev.blocks && r.edges[..|ixp|] == prev.edges;
        forall k | 0 <= k < |ix|
          ensures r.blocks[k] == ParagraphBlock(ps[ix[k]], ix[k], supply(start + 1 + 2 * k))
          ensures r.edges[k] == ContainsEdge(manifestId, r.blocks[k].id, ix[k], supply(start + 2 + 2 * k), FallbackChunker)
        {
          if k < |ixp| {
            assert r.blocks[k] == prev.blocks[k] && r.edges[k] == prev.edges[k] && ix[k] == ixp[k];
          }
        }
      } else {
        assert ix == ixp && r == prev;
      }
    }
  }

  /** One more paragraph adds a block and an edge exactly when its trimmed text is not empty. */
  lemma FallbackPartsStep(ps: seq<string>, i: nat, manifestId: BlockId, supply: nat -> string, start: nat,
                          blocks: seq<Block>, edges: seq<Edge>, next: nat)
    requires i < |ps| && Parts(blocks, edges) == FallbackParts(ps, i, manifestId, supply, start)
    requires next == start + 1 + 2 * |blocks|
    ensures var b := ParagraphBlock(ps[i], i, supply(next));
            FallbackParts(ps, i + 1, manifestId, supply, start)
            == if Text.Trim(ps[i]) != "" then
                 Parts(blocks + [b], edges + [ContainsEdge(manifestId, b.id, i, supply(next + 1), FallbackChunker)])
               else Parts(blocks, edges)
  {
    Text.TrimEmptyIffBlank(ps[i]);
    var k := |blocks|;
    assert next + 1 == start + 2 + 2 * k;
  }

  /** The fallback plan; the manifest has id supply(start) and the plan the id after the parts'. */
  function FallbackPlan(source: DocumentSource, supply: nat -> string, start: nat): IngestionPlan {
    var content := SourceText(source);
    var ps := Paragraphs(content);
    var m := FallbackManifest(supply(start));
    var parts := FallbackParts(ps, |ps|, m.id, supply, start);
    IngestionPlan(supply(start + 1 + 2 * |parts.blocks|), Text.Prefix(content, 100), m, [m] + parts.blocks, parts.edges,
                  [], 0.3, ["Used fallback paragraph-based chunking"],
                  [Notice("LLM chunking unavailable, used simple fallback")], Pending)
  }

  /**
   * The parts built from paragraphs ps: block k is a NOTE holding the trimmed text of a
   * non-blank paragraph, and edge k links the manifest to it by CONTAINS_ORDERED with that
   * paragraph's position as order; the orders ascend (with gaps where paragraphs were blank)
   * and every non-blank paragraph's position is the order of some edge.
   */
  lemma FallbackPartsShape(ps: seq<string>, manifestId: BlockId, supply: nat -> string, start: nat)
    ensures var r := FallbackParts(ps, |ps|, manifestId, supply, start);
            && (forall k :: 0 <= k < |r.edges| ==>
                  && r.edges[k].fromBlockId == manifestId && r.edges[k].toBlockId == r.blocks[k].id
                  && r.edges[k].relationType == Structural(ContainsOrdered)
                  && r.edges[k].order.Some? && 0 <= r.edges[k].order.value < |ps|
                  && r.blocks[k].blockType == Note
                  && r.blocks[k].content == Text.Trim(ps[r.edges[k].order.value]) != "")
            && (forall k, l :: 0 <= k < l < |r.edges| ==> r.edges[k].order.value < r.edges[l].order.value)
            && (forall i :: 0 <= i < |ps| && NonBlank(ps[i]) ==>
                  exists k :: 0 <= k < |r.edges| && r.edges[k].order == Some(i))
  {
    FallbackEdgesLinkParagraphs(ps, manifestId, supply, start);
    FallbackOrdersAscend(ps, manifestId, supply, start, FallbackParts(ps, |ps|, manifestId, supply, start));
    FallbackCoversParagraphs(ps, manifestId, supply, start);
  }

  lemma FallbackEdgesLinkParagraphs(ps: seq<string>, manifestId: BlockId, supply: nat -> string, start: nat)
    ensures var r := FallbackParts(ps, |ps|, manifestId, supply, start);
            forall k :: 0 <= k < |r.edges| ==>
              && r.edges[k].fromBlockId == manifestId && r.edges[k].toBlockId == r.blocks[k].id
              && r.edges[k].relationType == Structural(ContainsOrdered)
              && r.edges[k].order.Some? && 0 <= r.edges[k].order.value < |ps|
              && r.blocks[k].blockType == Note
              && r.blocks[k].content == Text.Trim(ps[r.edges[k].order.value]) != ""
  {
    var r := FallbackParts(ps, |ps|, manifestId, supply, start);
    FallbackEdgeCount(ps, manifestId, supply, start);
    forall k | 0 <= k < |r.edges|
      ensures && r.edges[k].fromBlockId == manifestId && r.edges[k].toBlockId == r.blocks[k].id
              && r.edges[k].relationType == Structural(ContainsOrdered)
              && r.edges[k].order.Some? && 0 <= r.edges[k].order.value < |ps|
              && r.blocks[k].blockType == Note
              && r.blocks[k].content == Text.Trim(ps[r.edges[k].order.value]) != ""
    {
      FallbackEdgeAt(ps, manifestId, supply, start, k);
    }
  }

  lemma FallbackOrdersAscend(ps: seq<string>, manifestId: BlockId, supply: nat -> string, start: nat, r: Parts)
    requires r == FallbackParts(ps, |ps|, manifestId, supply, start)
    requires forall k :: 0 <= k < |r.edges| ==> r.edges[k].order.Some?
    ensures forall k, l :: 0 <= k < l < |r.edges| ==> r.edges[k].order.value < r.edges[l].order.value
  {
    FallbackEdgeCount(ps, manifestId, supply, start);
    forall k, l | 0 <= k < l < |r.edges| ensures r.edges[k].order.value < r.edges[l].order.value {
      FallbackOrderPair(ps, manifestId, supply, start, r, k, l);
    }
  }

  lemma FallbackOrderPair(ps: seq<string>, manifestId: BlockId, supply: nat -> string, start: nat, r: Parts, k: nat, l: nat)
    requires r == FallbackParts(ps, |ps|, manifestId, supply, start)
    requires k < l < |NonBlankIndices(ps, |ps|)|
    ensures k < l < |r.edges| && r.edges[k].order.Some? && r.edges[l].order.Some?
    ensures r.edges[k].order.value < r.edges[l].order.value
  {
    NonBlankIndicesExact(ps, |ps|);
    FallbackEdgeAt(ps, manifestId, supply, start, k);
    FallbackEdgeAt(ps, manifestId, supply, start, l);
  }

  lemma FallbackCoversParagraphs(ps: seq<string>, manifestId: BlockId, supply: nat -> string, start: nat)
    ensures var r := FallbackParts(ps, |ps|, manifestId, supply, start);
            forall i :: 0 <= i < |ps| && NonBlank(ps[i]) ==>
              exists k :: 0 <= k < |r.edges| && r.edges[k].order == Some(i)
  {
    var ix := NonBlankIndices(ps, |ps|);
    var r := FallbackParts(ps, |ps|, manifestId, supply, start);
    NonBlankIndicesExact(ps, |ps|);
    forall i | 0 <= i < |ps| && NonBlank(ps[i])
      ensures exists k :: 0 <= k < |r.edges| && r.edges[k].order == Some(i)
    {
      var k :| 0 <= k < |ix| && ix[k] == i;
      FallbackEdgeAt(ps, manifestId, supply, start, k);
    }
    assert r == FallbackParts(ps, |ps|, manifestId, supply, start);
  }

  lemma FallbackEdgeCount(ps: seq<string>, manifestId: BlockId, supply: nat -> string, start: nat)
    ensures |FallbackParts(ps, |ps|, manifestId, supply, start).edges| == |NonBlankIndices(ps, |ps|)|
  {
    FallbackPartsAt(ps, |ps|, manifestId, supply, start);
  }

  /** Edge k of the fallback parts links the manifest to block k, ordered by the k-th non-blank position. */
  lemma FallbackEdgeAt(ps: seq<string>, manifestId: BlockId, supply: nat -> string, start: nat, k: nat)
    requires k < |NonBlankIndices(ps, |ps|)|
    ensures var r := FallbackParts(ps, |ps|, manifestId, supply, start);
            var i := NonBlankIndices(ps, |ps|)[k];
            && k < |r.edges| && i < |ps|
            && r.edges[k].fromBlockId == manifestId && r.edges[k].toBlockId == r.blocks[k].id
            && r.edges[k].relationType == Structural(ContainsOrdered) && r.edges[k].order == Some(i)
            && r.blocks[k].blockType == Note && r.blocks[k].content == Text.Trim(ps[i]) != ""
  {
    var i := NonBlankIndices(ps, |ps|)[k];
    FallbackPartsAt(ps, |ps|, manifestId, supply, start);
    NonBlankIndicesExact(ps, |ps|);
    Text.TrimEmptyIffBlank(ps[i]);
  }

  /**
   * The fallback plan holds the manifest first, then the blocks of the parts built from the
   * paragraphs of the text, and the edges of those parts.
   */
  lemma FallbackPlanShape(source: DocumentSource, supply: nat -> string, start: nat)
    ensures var p := FallbackPlan(source, supply, start);
            var parts := FallbackParts(Paragraphs(SourceText(source)), |Paragraphs(SourceText(source))|, p.manifest.id, supply, start);
            && p.blocks[0] == p.manifest && p.manifest.blockType == Manifest
            && p.blocks == [p.manifest] + parts.blocks && p.edges == parts.edges
            && p.confidence == 0.3
  {
  }

  /**
   * Ordinary line breaks do not separate paragraphs: a text without a backslash falls back
   * to the manifest and at most one block, holding the trimmed text.
   */
  lemma FallbackOfPlainText(text: string, supply: nat -> string, start: nat)
    requires '\\' !in text
    ensures var p := FallbackPlan(Inline(text), supply, start);
            && |p.edges| == (if NonBlank(text) then 1 else 0)
            && (NonBlank(text) ==> p.blocks[1].content == Text.Trim(text))
  {
    Text.SplitRunWithoutLead(text, "\\n\\", 'n', "");
    assert "" + text == text;
    var ps := Paragraphs(text);
    assert ps == [text];
    var m := FallbackManifest(supply(start));
    var parts := FallbackParts(ps, 1, m.id, supply, start);
    assert FallbackParts(ps, 0, m.id, supply, start) == Parts([], []);
    var p := FallbackPlan(Inline(text), supply, start);
    assert p.blocks == [m] + parts.blocks && p.edges == parts.edges;
    if NonBlank(text) {
      assert parts.blocks == [ParagraphBlock(text, 0, supply(start + 1))];
    } else {
      assert parts == Parts([], []);
    }
  }

  /** A file falls back to a plan holding just the manifest. */
  lemma FallbackOfFile(supply: nat -> string, start: nat)
    ensures FallbackPlan(UploadedFile, supply, start).blocks == [FallbackManifest(supply(start))]
    ensures FallbackPlan(UploadedFile, supply, start).edges == []
  {
    var ps := Paragraphs("");
    assert ps == [""];
    assert !NonBlank(ps[0]);
    assert FallbackParts(ps, 1, supply(start), supply, start) == FallbackParts(ps, 0, supply(start), supply, start);
  }

  /** The paragraph loop of `createFallbackPlan`: a block and an edge per non-blank paragraph, in order. */
  method BuildParagraphParts(ps: seq<string>, manifestId: BlockId, supply: nat -> string, start: nat)
    returns (blocks: seq<Block>, edges: seq<Edge>)
    ensures Parts(blocks, edges) == FallbackParts(ps, |ps|, manifestId, supply, start)
  {
    var next := start + 1;
    blocks := [];
    edges := [];
    var i := 0;
    while i < |ps|
      invariant 0 <= i <= |ps|
      invariant Parts(blocks, edges) == FallbackParts(ps, i, manifestId, supply, start)
      invariant next == start + 1 + 2 * |blocks|
    {
      FallbackPartsStep(ps, i, manifestId, supply, start, blocks, edges, next);
      if Text.Trim(ps[i]) != "" {
        var b := ParagraphBlock(ps[i], i, supply(next));
        blocks := blocks + [b];
        edges := edges + [ContainsEdge(manifestId, b.id, i, supply(next + 1), FallbackChunker)];
        next := next + 2;
      }
      i := i + 1;
    }
  }

  /** `createFallbackPlan`: the manifest, then a block and an edge per non-blank paragraph. */
  method CreateFallbackPlan(source: DocumentSource, supply: nat -> string, start: nat) returns (plan: IngestionPlan)
    ensures plan == FallbackPlan(source, supply, start)
  {
    var content := SourceText(source);
    var ps := Paragraphs(content);
    var m := FallbackManifest(supply(start));
    var blocks, edges := BuildParagraphParts(ps, m.id, supply, start);
    plan := IngestionPlan(supply(start + 1 + 2 * |blocks|), Text.Prefix(content, 100), m, [m] + blocks, edges, [], 0.3,
                          ["Used fallback paragraph-based chunking"],
                          [Notice("LLM chunking unavailable, used simple fallback")], Pending);
  }

}
