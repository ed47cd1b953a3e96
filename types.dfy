/**
 * The data model shared by the whole knowledge-graph system: blocks, typed edges and tags
 * (src/types/index.ts). Timestamps, positions and other purely visual or audit payload are
 * not part of the model.
 */
module Types {

  datatype Option<T> = None | Some(value: T)

  /** An operation that either yields a value or fails with the message the source throws. */
  datatype Result<T> = Ok(value: T) | Err(error: string)

  type BlockId = string
  type EdgeId = string
  type TagId = string
  type TemplateId = string

  /** Core block types; each carries the string code the application stores. */
  datatype BlockType =
    | Note | Requirement | Spec | Implementation | Test
    | DataSource | Manifest | Assembler | DashboardBlock | Filter
  {
    function Code(): string {
      match this
      case Note => "note"
      case Requirement => "requirement"
      case Spec => "spec"
      case Implementation => "impl"
      case Test => "test"
      case DataSource => "data.source"
      case Manifest => "doc.manifest"
      case Assembler => "view.assembler"
      case DashboardBlock => "dashboard.block"
      case Filter => "filter.block"
    }
  }

  /** The three-tier editing protection of a block. */
  datatype ImmutabilityLevel = Mutable | Locked | Immutable
  {
    function Code(): string {
      match this
      case Mutable => "mutable"
      case Locked => "locked"
      case Immutable => "immutable"
    }
  }

  datatype BlockState = Draft | Active | Archived | Deleted
  {
    function Code(): string {
      match this
      case Draft => "draft"
      case Active => "active"
      case Archived => "archived"
      case Deleted => "deleted"
    }
  }

  /** Relations used for document assembly. */
  datatype StructuralRelation = ParentOf | ContainsOrdered | SectionOf | ThreadOf | AttachedTo

  /** Relations used for knowledge linking. */
  datatype SemanticRelation =
    Implements | VerifiedBy | DependsOn | References | Links | Contradicts | Elaborates

  /** The two disjoint relation families, as one tagged variant. */
  datatype RelationType = Structural(s: StructuralRelation) | Semantic(m: SemanticRelation)

  /** PARENT_OF and CONTAINS_ORDERED: the relations that make a block a structural parent. */
  predicate IsParentLink(r: RelationType) {
    r == Structural(ParentOf) || r == Structural(ContainsOrdered)
  }

  /**
   * A value of a block's free-form `fields` record. Arrays, objects and dates are
   * not inspected anywhere in the modelled code and are collapsed into Other.
   */
  datatype FieldValue = Undefined | Null | Bool(b: bool) | Num(n: int) | Str(s: string) | Other

  /** JavaScript truthiness of a field value. */
  predicate Truthy(v: FieldValue) {
    match v
    case Undefined => false
    case Null => false
    case Bool(b) => b
    case Num(n) => n != 0
    case Str(s) => s != ""
    case Other => true
  }

  /** `s || d` on a string: a missing or empty string gives d. */
  function StrOr(s: Option<string>, d: string): string {
    if s.Some? && s.value != "" then s.value else d
  }

  /** `n || d` on a number: a missing or zero number gives d. */
  function IntOr(n: Option<int>, d: int): int {
    if n.Some? && n.value != 0 then n.value else d
  }

  /** `x || d` for values that are always truthy when present (objects, arrays, enum codes). */
  function Or<T>(x: Option<T>, d: T): T {
    if x.Some? then x.value else d
  }

  datatype Block = Block(
    id: BlockId,
    blockType: BlockType,
    templateId: TemplateId,
    title: string,
    content: string,
    fields: map<string, FieldValue>,
    tags: seq<TagId>,
    state: BlockState,
    immutability: ImmutabilityLevel,
    createdBy: string,
    updatedBy: string,
    version: int)

  datatype Edge = Edge(
    id: EdgeId,
    fromBlockId: BlockId,
    toBlockId: BlockId,
    relationType: RelationType,
    order: Option<int>,
    labelText: Option<string>,
    createdBy: string)

  datatype TagGroup = Organizational | Domain | Status | Priority | TypeGroup | Custom

  datatype Tag = Tag(
    id: TagId,
    labelText: string,
    group: TagGroup,
    inheritable: bool,
    system: bool,
    color: string)

  /** `edge.order || 0`: a missing (or zero) order counts as 0. */
  function OrderOrZero(order: Option<int>): int {
    match order
    case None => 0
    case Some(o) => o
  }
}
