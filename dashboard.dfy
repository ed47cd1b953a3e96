/**
 * The rules of the user-composed dashboard (src/components/Dashboard/Dashboard.tsx): which
 * blocks a widget shows under its block filter, and the edits of the widget list (add,
 * remove, edit, and the layout change reported by the grid). Each edit produces a new
 * widget list that replaces the old one.
 */
module Dashboard {
  import opened Types
  import Text
  import Seqs

  datatype FilterField = TagsField | TypeField | StateField | ImmutabilityField | CustomField

  datatype FilterOperator = EqualsOp | ContainsOp | NotOp | InOp | NotInOp

  /** `FilterConfig.value` (typed `any`): a string or an array of strings. */
  datatype FilterValue = TextValue(s: string) | ListValue(items: seq<string>)

  datatype FilterConfig = FilterConfig(field: FilterField, operator: FilterOperator, value: FilterValue)

  datatype WidgetType = BlockList | GraphViewWidget | Stats | Calendar | CustomWidget
  {
    function Code(): string {
      match this
      case BlockList => "block-list"
      case GraphViewWidget => "graph-view"
      case Stats => "stats"
      case Calendar => "calendar"
      case CustomWidget => "custom"
    }
  }

  datatype Position = Position(x: int, y: int, w: int, h: int)

  datatype WidgetConfig = WidgetConfig(title: Option<string>, blockFilter: Option<FilterConfig>,
                                       customComponent: Option<string>)

  datatype Widget = Widget(id: string, widgetType: WidgetType, position: Position, config: WidgetConfig)

  /** A react-grid-layout item: the widget id `i` and the new geometry. */
  datatype LayoutItem = LayoutItem(i: string, x: int, y: int, w: int, h: int)

  // ---------------------------------------------------------------------------------
  // The widget's block filter
  // ---------------------------------------------------------------------------------

  /** `value.includes(t)`: membership for an array, substring for a string. */
  predicate Includes(value: FilterValue, t: string) {
    match value
    case TextValue(s) => Text.ContainsSubstring(s, t)
    case ListValue(items) => t in items
  }

  /** `x === value` for a string code x. */
  predicate StrictEquals(value: FilterValue, x: string) {
    value == TextValue(x)
  }

  /** The predicate passed to `filter` for one block. */
  predicate Keeps(filter: FilterConfig, b: Block) {
    match filter.field
    case TagsField =>
      if filter.operator == ContainsOp then exists t :: t in b.tags && Includes(filter.value, t)
      else forall t :: t in b.tags ==> !Includes(filter.value, t)
    case TypeField =>
      if filter.operator == EqualsOp then StrictEquals(filter.value, b.blockType.Code())
      else !StrictEquals(filter.value, b.blockType.Code())
    case StateField =>
      if filter.operator == EqualsOp then StrictEquals(filter.value, b.state.Code())
      else !StrictEquals(filter.value, b.state.Code())
    case ImmutabilityField =>
      if filter.operator == EqualsOp then StrictEquals(filter.value, b.immutability.Code())
      else !StrictEquals(filter.value, b.immutability.Code())
    case CustomField => true
  }

  function KeepsFilter(filter: FilterConfig): Block -> bool {
    b => Keeps(filter, b)
  }

  /** `filteredBlocks`: every block without a filter, otherwise the blocks the filter keeps. */
  function FilteredBlocks(blocks: seq<Block>, blockFilter: Option<FilterConfig>): seq<Block> {
    match blockFilter
    case None => blocks
    case Some(filter) => Seqs.Filter(blocks, KeepsFilter(filter))
  }

  /** The operators other than the positive one (equals, or contains for tags). */
  predicate Negative(field: FilterField, op: FilterOperator) {
    if field == TagsField then op != ContainsOp else op != EqualsOp
  }

  /**
   * A block is shown under a filter exactly as follows: every block without a filter and
   * for a custom field; for tags, a block carrying a tag the value includes ('contains')
   * or carrying none ('not' and the rest); for type, state and immutability, a block whose
   * code is the value ('equals') or is not ('not' and the rest).
   */
  lemma FilteredBlocksMembers(blocks: seq<Block>, blockFilter: Option<FilterConfig>, b: Block)
    requires b in blocks
    ensures blockFilter.None? ==> b in FilteredBlocks(blocks, blockFilter)
    ensures blockFilter.Some? ==>
              var f := blockFilter.value;
              var shown := b in FilteredBlocks(blocks, blockFilter);
              && (f.field == CustomField ==> shown)
              && (f.field == TagsField ==>
                    (shown <==> (f.operator == ContainsOp <==> exists t :: t in b.tags && Includes(f.value, t))))
              && (f.field == TypeField ==>
                    (shown <==> (f.operator == EqualsOp <==> f.value == TextValue(b.blockType.Code()))))
              && (f.field == StateField ==>
                    (shown <==> (f.operator == EqualsOp <==> f.value == TextValue(b.state.Code()))))
              && (f.field == ImmutabilityField ==>
                    (shown <==> (f.operator == EqualsOp <==> f.value == TextValue(b.immutability.Code()))))
  {
    if blockFilter.Some? {
      Seqs.FilterMembers(blocks, KeepsFilter(blockFilter.value));
    }
  }

  /**
   * For a field other than custom, the positive operator and any other operator split the
   * blocks between them: every block is shown by exactly one of the two filters.
   */
  lemma OperatorsPartition(blocks: seq<Block>, field: FilterField, value: FilterValue,
                           positive: FilterOperator, negative: FilterOperator)
    requires field != CustomField
    requires !Negative(field, positive) && Negative(field, negative)
    ensures |FilteredBlocks(blocks, Some(FilterConfig(field, positive, value)))|
          + |FilteredBlocks(blocks, Some(FilterConfig(field, negative, value)))| == |blocks|
    ensures forall b :: b in blocks ==>
              (b in FilteredBlocks(blocks, Some(FilterConfig(field, positive, value))) <==>
               b !in FilteredBlocks(blocks, Some(FilterConfig(field, negative, value))))
  {
    var p := KeepsFilter(FilterConfig(field, positive, value));
    var n := KeepsFilter(FilterConfig(field, negative, value));
    assert forall b :: n(b) <==> !p(b);
    ComplementSizes(blocks, p, n);
    Seqs.FilterMembers(blocks, p);
    Seqs.FilterMembers(blocks, n);
  }

  /** Filtering by a predicate and by its negation splits a sequence. */
  lemma {:induction false} ComplementSizes(s: seq<Block>, p: Block -> bool, n: Block -> bool)
    requires forall b :: n(b) <==> !p(b)
    ensures |Seqs.Filter(s, p)| + |Seqs.Filter(s, n)| == |s|
  {
    if s != [] {
      ComplementSizes(s[1..], p, n);
    }
  }

  // ---------------------------------------------------------------------------------
  // Widget list edits
  // ---------------------------------------------------------------------------------

  /** The widget created by addWidget; `now` stands for `Date.now()`. */
  function NewWidget(widgetType: WidgetType, now: nat): Widget {
    Widget("widget-" + Text.NatToString(now), widgetType, Position(0, 0, 4, 4),
           WidgetConfig(Some("New " + widgetType.Code() + " Widget"), None, None))
  }

  /** addWidget: the new widget appended to the list. */
  function AddWidget(widgets: seq<Widget>, widgetType: WidgetType, now: nat): (r: seq<Widget>)
    ensures |r| == |widgets| + 1 && r[..|widgets|] == widgets
    ensures r[|widgets|].position == Position(0, 0, 4, 4) && r[|widgets|].widgetType == widgetType
    ensures r[|widgets|].config.title == Some("New " + widgetType.Code() + " Widget")
  {
    widgets + [NewWidget(widgetType, now)]
  }

  function IdIsNot(id: string): Widget -> bool {
    (w: Widget) => w.id != id
  }

  /** removeWidget: `widgets.filter(w => w.id !== id)`. */
  function RemoveWidget(widgets: seq<Widget>, id: string): seq<Widget> {
    Seqs.Filter(widgets, IdIsNot(id))
  }

  /**
   * removeWidget keeps exactly the widgets with another id, in their order: the result is
   * the list itself when no widget has the id.
   */
  lemma RemoveWidgetSpec(widgets: seq<Widget>, id: string)
    ensures forall w :: w in RemoveWidget(widgets, id) <==> w in widgets && w.id != id
    ensures (forall w :: w in widgets ==> w.id != id) ==> RemoveWidget(widgets, id) == widgets
  {
    Seqs.FilterMembers(widgets, IdIsNot(id));
    if forall w :: w in widgets ==> w.id != id {
      Seqs.FilterAll(widgets, IdIsNot(id));
    }
  }

  /** Removing a widget just added, under an id no other widget has, gives the list back. */
  lemma RemoveUndoesAdd(widgets: seq<Widget>, widgetType: WidgetType, now: nat)
    requires forall w :: w in widgets ==> w.id != NewWidget(widgetType, now).id
    ensures RemoveWidget(AddWidget(widgets, widgetType, now), NewWidget(widgetType, now).id) == widgets
  {
    var id := NewWidget(widgetType, now).id;
    Seqs.FilterSnoc(widgets, NewWidget(widgetType, now), IdIsNot(id));
    Seqs.FilterAll(widgets, IdIsNot(id));
  }

  /** editWidget: every widget with the edited widget's id replaced by it. */
  function EditWidget(widgets: seq<Widget>, updated: Widget): (r: seq<Widget>)
    ensures |r| == |widgets|
  {
    seq(|widgets|, i requires 0 <= i < |widgets| =>
      if widgets[i].id == updated.id then updated else widgets[i])
  }

  /**
   * editWidget leaves the length, the order and every widget with another id unchanged;
   * editing twice with the same widget is editing once; and removing the id afterwards
   * removes the same widgets as removing it before.
   */
  lemma EditWidgetSpec(widgets: seq<Widget>, updated: Widget)
    ensures forall i :: 0 <= i < |widgets| && widgets[i].id != updated.id ==>
              EditWidget(widgets, updated)[i] == widgets[i]
    ensures forall i :: 0 <= i < |widgets| && widgets[i].id == updated.id ==>
              EditWidget(widgets, updated)[i] == updated
    ensures EditWidget(EditWidget(widgets, updated), updated) == EditWidget(widgets, updated)
    ensures RemoveWidget(EditWidget(widgets, updated), updated.id) == RemoveWidget(widgets, updated.id)
  {
    EditThenRemove(widgets, updated);
  }

  lemma {:induction false} EditThenRemove(widgets: seq<Widget>, updated: Widget)
    ensures RemoveWidget(EditWidget(widgets, updated), updated.id) == RemoveWidget(widgets, updated.id)
  {
    if widgets != [] {
      EditThenRemove(widgets[1..], updated);
      assert EditWidget(widgets, updated)[1..] == EditWidget(widgets[1..], updated);
    }
  }

  /** `layout.find(l => l.i === id)`. */
  function FindLayout(layout: seq<LayoutItem>, id: string): Option<LayoutItem> {
    if layout == [] then None else if layout[0].i == id then Some(layout[0]) else FindLayout(layout[1..], id)
  }

  /** One widget after a layout change. */
  function Relayout(w: Widget, layout: seq<LayoutItem>): Widget {
    match FindLayout(layout, w.id)
    case None => w
    case Some(l) => w.(position := Position(l.x, l.y, l.w, l.h))
  }

  /** handleLayoutChange. */
  function HandleLayoutChange(widgets: seq<Widget>, layout: seq<LayoutItem>): (r: seq<Widget>)
    ensures |r| == |widgets|
  {
    seq(|widgets|, i requires 0 <= i < |widgets| => Relayout(widgets[i], layout))
  }

  /** `layoutItems`: the grid items of the widgets. */
  function LayoutItems(widgets: seq<Widget>): (r: seq<LayoutItem>)
    ensures |r| == |widgets|
  {
    seq(|widgets|, i requires 0 <= i < |widgets| =>
      LayoutItem(widgets[i].id, widgets[i].position.x, widgets[i].position.y,
                 widgets[i].position.w, widgets[i].position.h))
  }

  lemma {:induction false} FindLayoutSpec(layout: seq<LayoutItem>, id: string)
    ensures FindLayout(layout, id).None? <==> forall k :: 0 <= k < |layout| ==> layout[k].i != id
    ensures FindLayout(layout, id).Some? ==>
              exists k :: 0 <= k < |layout| && layout[k] == FindLayout(layout, id).value && layout[k].i == id
                          && forall j :: 0 <= j < k ==> layout[j].i != id
  {
    if layout != [] && layout[0].i != id {
      FindLayoutSpec(layout[1..], id);
      if FindLayout(layout, id).Some? {
        var k :| && 0 <= k < |layout[1..]| && layout[1..][k] == FindLayout(layout, id).value
                 && layout[1..][k].i == id
                 && (forall j :: 0 <= j < k ==> layout[1..][j].i != id);
        assert layout[k + 1] == layout[1..][k];
        forall j | 0 <= j < k + 1 ensures layout[j].i != id {
          if j > 0 { assert layout[j] == layout[1..][j - 1]; }
        }
      }
    }
  }

  /**
   * A layout change moves a widget to the geometry of the first layout item with its id,
   * leaves a widget without such an item unchanged, and never changes an id, a type or a
   * configuration.
   */
  lemma HandleLayoutChangeSpec(widgets: seq<Widget>, layout: seq<LayoutItem>, i: nat)
    requires i < |widgets|
    ensures var r := HandleLayoutChange(widgets, layout)[i];
            && r.id == widgets[i].id && r.widgetType == widgets[i].widgetType
            && r.config == widgets[i].config
            && ((forall k :: 0 <= k < |layout| ==> layout[k].i != widgets[i].id) ==> r == widgets[i])
            && (forall k ::
                  (&& 0 <= k < |layout| && layout[k].i == widgets[i].id
                   && (forall j :: 0 <= j < k ==> layout[j].i != widgets[i].id))
                  ==> r.position == Position(layout[k].x, layout[k].y, layout[k].w, layout[k].h))
  {
    FindLayoutSpec(layout, widgets[i].id);
  }

  /** Feeding the grid's own items back is the identity when widget ids are distinct. */
  lemma LayoutRoundTrip(widgets: seq<Widget>)
    requires forall i, j :: 0 <= i < j < |widgets| ==> widgets[i].id != widgets[j].id
    ensures HandleLayoutChange(widgets, LayoutItems(widgets)) == widgets
  {
    var items := LayoutItems(widgets);
    forall i | 0 <= i < |widgets| ensures HandleLayoutChange(widgets, items)[i] == widgets[i] {
      FindLayoutSpec(items, widgets[i].id);
      assert items[i].i == widgets[i].id;
      var k :| && 0 <= k < |items| && items[k] == FindLayout(items, widgets[i].id).value
               && items[k].i == widgets[i].id
               && (forall j :: 0 <= j < k ==> items[j].i != widgets[i].id);
      assert k == i;
    }
  }
}
