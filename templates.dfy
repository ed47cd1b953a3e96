/**
 * The template system (src/lib/templates/index.ts): the eight built-in templates, the
 * factory that keeps them in an insertion-ordered registry, the block-type to template
 * mapping, and block validation against a template's required fields and validators.
 * Descriptions, icons, colours, views and allowed relations are display data and are not
 * part of the model.
 */
module Templates {
  import opened Types
  import Seqs

  datatype FieldDefinition = FieldDefinition(name: string, labelText: string, required: bool)

  /** What a validator returns: `{ valid, errors? }`. */
  datatype ValidationOutcome = ValidationOutcome(valid: bool, errors: Option<seq<string>>)

  /** A template's validator: the requirement priority check, or one supplied with a registered template. */
  datatype Validator = PriorityCheck | Custom(run: Block -> ValidationOutcome)

  datatype Template = Template(
    id: TemplateId,
    name: string,
    category: string,
    requiredFields: seq<FieldDefinition>,
    optionalFields: seq<FieldDefinition>,
    inheritTags: bool,
    validators: Option<seq<Validator>>)

  /** The result of `validateBlock`. */
  datatype ValidationResult = ValidationResult(valid: bool, errors: seq<string>)

  function TemplateKey(t: Template): TemplateId { t.id }

  function Required(name: string, labelText: string): FieldDefinition { FieldDefinition(name, labelText, true) }
  function Optional(name: string, labelText: string): FieldDefinition { FieldDefinition(name, labelText, false) }

  /** `defaultTemplates`, in declaration order. */
  function DefaultTemplates(): seq<Template> {
    [ Template("default", "Default Block", "general", [], [Optional("notes", "Notes")], true, Some([])),
      Template("requirement", "Requirement", "planning",
               [Required("priority", "Priority"), Required("acceptanceCriteria", "Acceptance Criteria")],
               [Optional("stakeholder", "Stakeholder"), Optional("deadline", "Deadline"),
                Optional("rationale", "Rationale")], true, Some([PriorityCheck])),
      Template("specification", "Specification", "technical",
               [Required("interfaces", "Interfaces"), Required("constraints", "Constraints")],
               [Optional("decisions", "Design Decisions"), Optional("alternatives", "Alternatives Considered"),
                Optional("risks", "Risks")], true, Some([])),
      Template("implementation", "Implementation", "technical",
               [Required("language", "Language"), Required("framework", "Framework")],
               [Optional("codeReference", "Code Reference"), Optional("dependencies", "Dependencies"),
                Optional("performance", "Performance Metrics")], true, Some([])),
      Template("test", "Test", "quality",
               [Required("testType", "Test Type"), Required("expectedResult", "Expected Result")],
               [Optional("actualResult", "Actual Result"), Optional("testData", "Test Data"),
                Optional("coverage", "Coverage")], true, Some([])),
      Template("doc.manifest", "Document Manifest", "document", [],
               [Optional("summary", "Summary"), Optional("author", "Author"), Optional("version", "Version"),
                Optional("assemblyRules", "Assembly Rules")], true, Some([])),
      Template("view.assembler", "View Assembler", "view", [Required("traversalProfile", "Traversal Profile")],
               [Optional("filters", "Filters"), Optional("sortOrder", "Sort Order")], false, Some([])),
      Template("dashboard.block", "Dashboard Block", "dashboard", [Required("widgetType", "Widget Type")],
               [Optional("config", "Configuration"), Optional("refreshInterval", "Refresh Interval")], false,
               Some([]))
    ]
  }

  /** The fixed block-type to template-id table of `getTemplateForType`. */
  function TemplateIdFor(t: BlockType): TemplateId {
    match t
    case Note => "default"
    case Requirement => "requirement"
    case Spec => "specification"
    case Implementation => "implementation"
    case Test => "test"
    case DataSource => "default"
    case Manifest => "doc.manifest"
    case Assembler => "view.assembler"
    case DashboardBlock => "dashboard.block"
    case Filter => "default"
  }

  /**
   * The built-in templates have distinct ids, include 'default', and cover every id of the
   * type table, so a fresh factory never falls back for any type; data sources, filters and
   * notes share the default template.
   */
  lemma DefaultTemplatesCoverTypes()
    ensures Seqs.DistinctKeys(DefaultTemplates(), TemplateKey)
    ensures forall t: BlockType :: Seqs.HasKey(DefaultTemplates(), TemplateIdFor(t), TemplateKey)
    ensures TemplateIdFor(DataSource) == TemplateIdFor(Filter) == TemplateIdFor(Note) == "default"
  {
    var ts := DefaultTemplates();
    DefaultTemplateIds();
    forall t: BlockType ensures Seqs.HasKey(ts, TemplateIdFor(t), TemplateKey) {
      match t
      case Note => assert TemplateKey(ts[0]) == TemplateIdFor(t);
      case Requirement => assert TemplateKey(ts[1]) == TemplateIdFor(t);
      case Spec => assert TemplateKey(ts[2]) == TemplateIdFor(t);
      case Implementation => assert TemplateKey(ts[3]) == TemplateIdFor(t);
      case Test => assert TemplateKey(ts[4]) == TemplateIdFor(t);
      case DataSource => assert TemplateKey(ts[0]) == TemplateIdFor(t);
      case Manifest => assert TemplateKey(ts[5]) == TemplateIdFor(t);
      case Assembler => assert TemplateKey(ts[6]) == TemplateIdFor(t);
      case DashboardBlock => assert TemplateKey(ts[7]) == TemplateIdFor(t);
      case Filter => assert TemplateKey(ts[0]) == TemplateIdFor(t);
    }
    assert TemplateKey(ts[0]) == "default";
  }

  lemma DefaultTemplateIds()
    ensures |DefaultTemplates()| == 8
    ensures forall i :: 0 <= i < 8 ==> DefaultTemplates()[i].id == DefaultIds[i]
    ensures Seqs.DistinctKeys(DefaultTemplates(), TemplateKey)
  {
    var ts := DefaultTemplates();
    assert forall i :: 0 <= i < 8 ==> ts[i].id == DefaultIds[i];
    forall i, j | 0 <= i < j < 8 ensures TemplateKey(ts[i]) != TemplateKey(ts[j]) {
      assert |DefaultIds[i]| != |DefaultIds[j]| || DefaultIds[i][0] != DefaultIds[j][0];
    }
  }

  /** The ids of the built-in templates, in order. */
  const DefaultIds: seq<string> := ["default", "requirement", "specification", "implementation", "test",
                                    "doc.manifest", "view.assembler", "dashboard.block"]

  // ---------------------------------------------------------------------------------------
  // Validation
  // ---------------------------------------------------------------------------------------

  const PriorityLevels: seq<string> := ["low", "medium", "high", "critical"]

  const PriorityError: string := "Priority must be one of: low, medium, high, critical"

  /** The requirement template's validator. */
  function CheckPriority(b: Block): ValidationOutcome {
    if "priority" in b.fields && b.fields["priority"].Str? && b.fields["priority"].s in PriorityLevels
    then ValidationOutcome(true, None)
    else ValidationOutcome(false, Some([PriorityError]))
  }

  function Run(v: Validator, b: Block): ValidationOutcome {
    match v
    case PriorityCheck => CheckPriority(b)
    case Custom(run) => run(b)
  }

  /** `!(name in block.fields) || block.fields[name] === undefined`. */
  predicate IsMissing(b: Block, f: FieldDefinition) {
    f.name !in b.fields || b.fields[f.name] == Undefined
  }

  function MissingMessage(labelText: string): string {
    "Required field '" + labelText + "' is missing"
  }

  /** One message per missing field, in field order. */
  function MissingFieldErrors(fs: seq<FieldDefinition>, b: Block): seq<string>
    decreases |fs|
  {
    if fs == [] then []
    else
      var n := |fs| - 1;
      MissingFieldErrors(fs[..n], b) + (if IsMissing(b, fs[n]) then [MissingMessage(fs[n].labelText)] else [])
  }

  /** The errors of every validator that fails and reports errors, in validator order. */
  function ValidatorErrors(vs: seq<Validator>, b: Block): seq<string>
    decreases |vs|
  {
    if vs == [] then []
    else
      var n := |vs| - 1;
      var o := Run(vs[n], b);
      ValidatorErrors(vs[..n], b) + (if !o.valid && o.errors.Some? then o.errors.value else [])
  }

  /** Validation of a block against a template that exists. */
  function Validation(t: Template, b: Block): ValidationResult {
    var errors := MissingFieldErrors(t.requiredFields, b)
                  + ValidatorErrors(if t.validators.Some? then t.validators.value else [], b);
    ValidationResult(|errors| == 0, errors)
  }

  /** The priority check passes exactly for the four levels and otherwise reports one error. */
  lemma CheckPriorityExact(b: Block)
    ensures CheckPriority(b).valid <==>
      ("priority" in b.fields && b.fields["priority"] in [Str("low"), Str("medium"), Str("high"), Str("critical")])
    ensures !CheckPriority(b).valid ==> CheckPriority(b).errors == Some([PriorityError])
  {
  }

  /**
   * The missing-field errors are the messages of exactly the missing fields, in field order:
   * there are as many as missing fields, and the k-th names the k-th missing field.
   */
  lemma {:induction false} MissingFieldErrorsExact(fs: seq<FieldDefinition>, b: Block)
    ensures |MissingFieldErrors(fs, b)| == |Seqs.Filter(fs, (f: FieldDefinition) => IsMissing(b, f))|
    ensures forall k :: 0 <= k < |MissingFieldErrors(fs, b)| ==>
      MissingFieldErrors(fs, b)[k] == MissingMessage(Seqs.Filter(fs, (f: FieldDefinition) => IsMissing(b, f))[k].labelText)
    decreases |fs|
  {
    var p := (f: FieldDefinition) => IsMissing(b, f);
    if fs != [] {
      var n := |fs| - 1;
      MissingFieldErrorsExact(fs[..n], b);
      Seqs.FilterSnoc(fs[..n], fs[n], p);
      assert fs[..n] + [fs[n]] == fs;
    }
  }

  /**
   * A block is valid exactly when it has no errors; a block with every required field
   * present and no failing validator is valid, and one missing field makes it invalid.
   */
  lemma {:induction false} ValidationExact(t: Template, b: Block)
    ensures Validation(t, b).valid <==> Validation(t, b).errors == []
    ensures (exists i :: 0 <= i < |t.requiredFields| && IsMissing(b, t.requiredFields[i])) ==> !Validation(t, b).valid
  {
    if exists i :: 0 <= i < |t.requiredFields| && IsMissing(b, t.requiredFields[i]) {
      var i :| 0 <= i < |t.requiredFields| && IsMissing(b, t.requiredFields[i]);
      MissingFieldErrorsExact(t.requiredFields, b);
      var p := (f: FieldDefinition) => IsMissing(b, f);
      Seqs.FilterMembers(t.requiredFields, p);
      assert t.requiredFields[i] in Seqs.Filter(t.requiredFields, p);
    }
  }

  /**
   * A requirement is valid exactly when it has both required fields and a priority of low,
   * medium, high or critical.
   */
  lemma RequirementValidation(b: Block)
    ensures Validation(DefaultTemplates()[1], b).valid <==>
      ("priority" in b.fields && b.fields["priority"] != Undefined
       && "acceptanceCriteria" in b.fields && b.fields["acceptanceCriteria"] != Undefined
       && CheckPriority(b).valid)
  {
    var t := DefaultTemplates()[1];
    var fs := t.requiredFields;
    assert fs[..1][..0] == [] && fs[..1] == [fs[0]];
    assert fs[..2] == fs && fs[..2][..1] == fs[..1];
    assert MissingFieldErrors(fs, b)
        == (if IsMissing(b, fs[0]) then [MissingMessage(fs[0].labelText)] else [])
           + (if IsMissing(b, fs[1]) then [MissingMessage(fs[1].labelText)] else []);
    var vs := t.validators.value;
    assert vs == [PriorityCheck] && vs[..0] == [];
    assert ValidatorErrors(vs, b) == if CheckPriority(b).valid then [] else [PriorityError];
  }

  // ---------------------------------------------------------------------------------------
  // The factory
  // ---------------------------------------------------------------------------------------

  function InCategory(category: string): Template -> bool {
    (t: Template) => t.category == category
  }

  /** The requiredFields loop of `validateBlock`: one message per missing field, in order. */
  method CollectMissing(fs: seq<FieldDefinition>, b: Block) returns (errors: seq<string>)
    ensures errors == MissingFieldErrors(fs, b)
  {
    errors := [];
    var i := 0;
    while i < |fs|
      invariant 0 <= i <= |fs|
      invariant errors == MissingFieldErrors(fs[..i], b)
    {
      assert fs[..i + 1][..i] == fs[..i];
      var field := fs[i];
      if field.name !in b.fields || b.fields[field.name] == Undefined {
        errors := errors + [MissingMessage(field.labelText)];
      }
      i := i + 1;
    }
    assert fs[..|fs|] == fs;
  }

  /** The validators loop of `validateBlock`: the errors of each failing validator, in order. */
  method RunValidators(vs: seq<Validator>, b: Block) returns (errors: seq<string>)
    ensures errors == ValidatorErrors(vs, b)
  {
    errors := [];
    var j := 0;
    while j < |vs|
      invariant 0 <= j <= |vs|
      invariant errors == ValidatorErrors(vs[..j], b)
    {
      assert vs[..j + 1][..j] == vs[..j];
      var outcome := Run(vs[j], b);
      if !outcome.valid && outcome.errors.Some? {
        errors := errors + outcome.errors.value;
      }
      j := j + 1;
    }
    assert vs[..|vs|] == vs;
  }

  class TemplateFactory {
    /** The registry, in insertion order, one entry per id. */
    var templates: seq<Template>

    /** Ids are unique and the 'default' template is always registered. */
    ghost predicate Valid()
      reads this
    {
      Seqs.DistinctKeys(templates, TemplateKey) && Seqs.HasKey(templates, "default", TemplateKey)
    }

    /** A factory starts with a copy of the built-in templates. */
    constructor()
      ensures Valid() && templates == DefaultTemplates()
    {
      templates := DefaultTemplates();
      new;
      DefaultTemplatesCoverTypes();
    }

    function GetTemplate(id: TemplateId): Option<Template>
      reads this
    {
      Seqs.Find(templates, id, TemplateKey)
    }

    /**
     * `getTemplateForType`: the template the type table names, or 'default' when it is not
     * registered; always a registered template.
     */
    function GetTemplateForType(t: BlockType): (r: Template)
      requires Valid()
      reads this
      ensures r in templates
      ensures r.id == TemplateIdFor(t) || (r.id == "default" && !Seqs.HasKey(templates, TemplateIdFor(t), TemplateKey))
    {
      Seqs.FindSpec(templates, TemplateIdFor(t), TemplateKey);
      Seqs.FindSpec(templates, "default", TemplateKey);
      match Seqs.Find(templates, TemplateIdFor(t), TemplateKey)
      case Some(x) => x
      case None => Seqs.Find(templates, "default", TemplateKey).value
    }

    /** `registerTemplate`: afterwards the id yields the new template and every other id is unaffected. */
    method RegisterTemplate(t: Template)
      requires Valid()
      modifies this
      ensures Valid()
      ensures templates == Seqs.Put(old(templates), t, TemplateKey)
      ensures GetTemplate(t.id) == Some(t)
      ensures forall id :: id != t.id ==> GetTemplate(id) == old(GetTemplate(id))
    {
      Seqs.PutSpec(templates, t, TemplateKey);
      forall id ensures Seqs.Find(Seqs.Put(templates, t, TemplateKey), id, TemplateKey)
                        == if id == t.id then Some(t) else Seqs.Find(templates, id, TemplateKey) {
        Seqs.FindPut(templates, t, id, TemplateKey);
      }
      Seqs.FindSpec(templates, "default", TemplateKey);
      templates := Seqs.Put(templates, t, TemplateKey);
      Seqs.FindSpec(templates, "default", TemplateKey);
    }

    /** `getTemplatesByCategory`: the registered templates of that category, in registry order. */
    function GetTemplatesByCategory(category: string): (r: seq<Template>)
      reads this
      ensures forall x :: x in r <==> x in templates && x.category == category
    {
      Seqs.FilterMembers(templates, InCategory(category));
      Seqs.Filter(templates, InCategory(category))
    }

    /** `validateBlock`: "Template not found" for an unknown id, else missing fields then validator errors. */
    method ValidateBlock(b: Block, templateId: TemplateId) returns (r: ValidationResult)
      ensures GetTemplate(templateId).None? ==> r == ValidationResult(false, ["Template not found"])
      ensures GetTemplate(templateId).Some? ==> r == Validation(GetTemplate(templateId).value, b)
    {
      var template := Seqs.Find(templates, templateId, TemplateKey);
      if template.None? {
        return ValidationResult(false, ["Template not found"]);
      }
      var t := template.value;
      var missing := CollectMissing(t.requiredFields, b);
      var failed := RunValidators(if t.validators.Some? then t.validators.value else [], b);
      var errors := missing + failed;
      r := ValidationResult(|errors| == 0, errors);
    }
  }
}
