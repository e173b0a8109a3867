/** The right-hand configuration panel (components/ConfigPanel.tsx): which
    page it shows, and the patches its controls send to the editor's
    carousel update. */
module ConfigPanel {
  import opened Types
  import opened App

  // ---------------------------------------------------------------------
  // Which page
  // ---------------------------------------------------------------------

  /** A hint to select the carousel, the template's field list, or the
      global settings. */
  datatype Page = Placeholder | LayoutPage | GlobalSettings

  function PageFor(s: AppState): (p: Page)
    ensures p == Placeholder <==> s.selectedType != Some(CAROUSEL_TABLE)
    ensures p == LayoutPage <==> s.selectedType == Some(CAROUSEL_TABLE) && s.isEditingLayout
    ensures p == GlobalSettings <==> s.selectedType == Some(CAROUSEL_TABLE) && !s.isEditingLayout
  {
    if s.selectedType != Some(CAROUSEL_TABLE) then Placeholder
    else if s.isEditingLayout then LayoutPage
    else GlobalSettings
  }

  /** The editor opens on the global settings of its carousel. */
  lemma InitialPage()
    ensures PageFor(InitialState()) == GlobalSettings
  {
  }

  /** With the carousel selected, "edit layout" opens the field list and
      the back and "done" buttons return to the global settings. */
  lemma EditingLayoutSwitchesPage(s: AppState)
    requires s.selectedType == Some(CAROUSEL_TABLE)
    ensures PageFor(WithEditingLayout(s, true)) == LayoutPage
    ensures PageFor(WithEditingLayout(s, false)) == GlobalSettings
  {
  }

  /** Adding a carousel table selects it, so the panel leaves the
      placeholder; adding any other layer shows the placeholder. */
  lemma AddingContentSelectsPage(s: AppState, t: ContentType)
    ensures PageFor(WithContentAdded(s, t)) == Placeholder <==> t != CAROUSEL_TABLE
  {
  }

  /** Removing the carousel table shows the placeholder. */
  lemma RemovingCarouselShowsPlaceholder(s: AppState)
    ensures PageFor(WithLayerRemoved(s, CAROUSEL_TABLE)) == Placeholder
  {
  }

  // ---------------------------------------------------------------------
  // handleFieldToggle, handleFieldUpdate
  // ---------------------------------------------------------------------

  function Toggled(f: FieldConfig): FieldConfig {
    f.(enabled := !f.enabled)
  }

  /** Flips `enabled` on exactly the fields with the given id; every other
      field, every other attribute, the length and the order are kept. */
  function ToggleField(fs: seq<FieldConfig>, id: string): (r: seq<FieldConfig>)
    ensures |r| == |fs|
    ensures forall i :: 0 <= i < |fs| ==> (r[i].enabled <==> (fs[i].enabled != (fs[i].id == id)))
    ensures forall i :: 0 <= i < |fs| ==> r[i] == fs[i].(enabled := r[i].enabled)
  {
    MapById(fs, id, Toggled)
  }

  /** Toggling the same field twice gives back the original list. */
  lemma ToggleTwice(fs: seq<FieldConfig>, id: string)
    ensures ToggleField(ToggleField(fs, id), id) == fs
  {
    var r := ToggleField(ToggleField(fs, id), id);
    assert forall i :: 0 <= i < |fs| ==> r[i] == fs[i];
  }

  lemma ToggleKeepsTemplate(fs: seq<FieldConfig>, id: string)
    requires TemplateValid(fs)
    ensures TemplateValid(ToggleField(fs, id))
  {
    MapByIdKeepsTemplate(fs, id, Toggled);
  }

  /** `{...f, ...u}`: every key the patch lacks keeps its old value, the
      style keys it carries are taken from it, and so a style patch keeps
      the field's identity and position. `UpdateField` states every key. */
  function ApplyFieldPatch(f: FieldConfig, u: FieldPatch): (r: FieldConfig)
    ensures u == FieldPatch(None, None, None, None, None, None, None, None, None) ==> r == f
    ensures StyleOnly(u) ==>
      r.id == f.id && r.caption == f.caption && r.enabled == f.enabled
      && r.order == f.order && r.x == f.x && r.y == f.y
    ensures u.fontSize.Some? ==> r.fontSize == u.fontSize.value
    ensures u.color.Some? ==> r.color == u.color.value
    ensures u.isBold.Some? ==> r.isBold == u.isBold.value
    ensures u.fontSize.None? ==> r.fontSize == f.fontSize
    ensures u.color.None? ==> r.color == f.color
    ensures u.isBold.None? ==> r.isBold == f.isBold
    ensures u.id.None? ==> r.id == f.id
    ensures u.caption.None? ==> r.caption == f.caption
    ensures u.enabled.None? ==> r.enabled == f.enabled
    ensures u.order.None? ==> r.order == f.order
    ensures u.x.None? ==> r.x == f.x
    ensures u.y.None? ==> r.y == f.y
  {
    FieldConfig(
      u.id.GetOr(f.id), u.caption.GetOr(f.caption), u.enabled.GetOr(f.enabled),
      u.fontSize.GetOr(f.fontSize), u.color.GetOr(f.color), u.isBold.GetOr(f.isBold),
      u.order.GetOr(f.order), u.x.GetOr(f.x), u.y.GetOr(f.y))
  }

  /** Spreading the same patch twice is spreading it once. */
  lemma ApplyFieldPatchIdempotent(f: FieldConfig, u: FieldPatch)
    ensures ApplyFieldPatch(ApplyFieldPatch(f, u), u) == ApplyFieldPatch(f, u)
  {
  }

  /** The panel's style controls send only font size, colour and weight. */
  predicate StyleOnly(u: FieldPatch) {
    u.id.None? && u.caption.None? && u.enabled.None? && u.order.None? && u.x.None? && u.y.None?
  }

  /** Overwrites the patch's attributes on the fields with the given id and
      leaves every other field as it was; length and order are kept. */
  function UpdateField(fs: seq<FieldConfig>, id: string, u: FieldPatch): (r: seq<FieldConfig>)
    ensures |r| == |fs|
    ensures forall i :: 0 <= i < |fs| && fs[i].id != id ==> r[i] == fs[i]
    ensures forall i :: 0 <= i < |fs| && fs[i].id == id ==>
      && r[i].fontSize == u.fontSize.GetOr(fs[i].fontSize)
      && r[i].color == u.color.GetOr(fs[i].color)
      && r[i].isBold == u.isBold.GetOr(fs[i].isBold)
      && r[i].enabled == u.enabled.GetOr(fs[i].enabled)
      && r[i].x == u.x.GetOr(fs[i].x) && r[i].y == u.y.GetOr(fs[i].y)
      && r[i].id == u.id.GetOr(fs[i].id) && r[i].caption == u.caption.GetOr(fs[i].caption)
      && r[i].order == u.order.GetOr(fs[i].order)
  {
    MapById(fs, id, f => ApplyFieldPatch(f, u))
  }

  /** Sending the same update twice is sending it once, even when the update
      renames the field. */
  lemma UpdateFieldIdempotent(fs: seq<FieldConfig>, id: string, u: FieldPatch)
    ensures UpdateField(UpdateField(fs, id, u), id, u) == UpdateField(fs, id, u)
  {
    var once := UpdateField(fs, id, u);
    var twice := UpdateField(once, id, u);
    forall i | 0 <= i < |fs| ensures twice[i] == once[i] {
      if fs[i].id == id && once[i].id == id {
        assert once[i] == ApplyFieldPatch(fs[i], u);
      }
    }
  }

  /** A style update keeps ids and positions, so it keeps a template valid. */
  lemma StyleUpdateKeepsTemplate(fs: seq<FieldConfig>, id: string, u: FieldPatch)
    requires TemplateValid(fs) && StyleOnly(u)
    ensures TemplateValid(UpdateField(fs, id, u))
  {
    MapByIdKeepsTemplate(fs, id, f => ApplyFieldPatch(f, u));
  }

  // ---------------------------------------------------------------------
  // Rows and columns steppers
  // ---------------------------------------------------------------------

  /** `Math.max(1, n - 1)`: one less, but never below one. */
  function StepDown(n: int): (r: int)
    ensures r >= 1
    ensures n >= 2 ==> r == n - 1
    ensures n <= 1 ==> r == 1
  {
    if 1 > n - 1 then 1 else n - 1
  }

  /** The minus button undoes the plus button. */
  lemma StepDownUndoesStepUp(n: int)
    requires n >= 1
    ensures StepDown(n + 1) == n
  {
  }

  // ---------------------------------------------------------------------
  // The panel's controls
  // ---------------------------------------------------------------------

  /** One user action on the panel. */
  datatype PanelAction =
    | Toggle(fieldId: string)
    | Restyle(fieldId: string, updates: FieldPatch)
    | RowsDown | RowsUp | ColsDown | ColsUp
    | SetDuration(seconds: int)
    | SelectItemType(category: ItemType)

  /** The duration comes from a range input bounded to 3..60 seconds. */
  predicate ActionAllowed(a: PanelAction) {
    a.SetDuration? ==> 3 <= a.seconds <= 60
  }

  /** The patch each control sends, read off the carousel it is shown: one
      key per control, never a size, and the steppers never send fewer than
      one row or column to a valid grid. The values sent are stated by
      `Perform`, which merges this patch into the carousel. */
  function ActionPatch(c: CarouselConfig, a: PanelAction): (r: CarouselPatch)
    requires ActionAllowed(a)
    ensures r.fields.Some? <==> a.Toggle? || a.Restyle?
    ensures r.rows.Some? <==> a.RowsDown? || a.RowsUp?
    ensures r.cols.Some? <==> a.ColsDown? || a.ColsUp?
    ensures r.duration.Some? <==> a.SetDuration?
    ensures r.itemType.Some? <==> a.SelectItemType?
    ensures r.width.None? && r.height.None?
    ensures r.rows.Some? && c.rows >= 1 ==> r.rows.value >= 1
    ensures r.cols.Some? && c.cols >= 1 ==> r.cols.value >= 1
    ensures r.duration.Some? ==> 3 <= r.duration.value <= 60
  {
    match a
    case Toggle(id) => NoChange.(fields := Some(ToggleField(c.fields, id)))
    case Restyle(id, u) => NoChange.(fields := Some(UpdateField(c.fields, id, u)))
    case RowsDown => NoChange.(rows := Some(StepDown(c.rows)))
    case RowsUp => NoChange.(rows := Some(c.rows + 1))
    case ColsDown => NoChange.(cols := Some(StepDown(c.cols)))
    case ColsUp => NoChange.(cols := Some(c.cols + 1))
    case SetDuration(n) => NoChange.(duration := Some(n))
    case SelectItemType(t) => NoChange.(itemType := Some(t))
  }

  /** The carousel after a control's patch has gone through the editor's
      update: exactly the attribute the control is about changes. */
  function Perform(c: CarouselConfig, a: PanelAction): (r: CarouselConfig)
    requires ActionAllowed(a)
    ensures a.Toggle? ==> r == c.(fields := ToggleField(c.fields, a.fieldId))
    ensures a.Restyle? ==> r == c.(fields := UpdateField(c.fields, a.fieldId, a.updates))
    ensures a.RowsDown? ==> r == c.(rows := StepDown(c.rows))
    ensures a.RowsUp? ==> r == c.(rows := c.rows + 1)
    ensures a.ColsDown? ==> r == c.(cols := StepDown(c.cols))
    ensures a.ColsUp? ==> r == c.(cols := c.cols + 1)
    ensures a.SetDuration? ==> r == c.(duration := a.seconds)
    ensures a.SelectItemType? && a.category == c.itemType ==> r == c
    ensures a.SelectItemType? && a.category != c.itemType ==>
              r == c.(itemType := a.category, fields := ItemDefaults(a.category))
  {
    MergeCarousel(c, ActionPatch(c, a))
  }

  /** Every panel control keeps a valid carousel valid. */
  lemma PerformKeepsValid(c: CarouselConfig, a: PanelAction)
    requires CarouselValid(c) && ActionAllowed(a)
    requires a.Restyle? ==> StyleOnly(a.updates)
    ensures CarouselValid(Perform(c, a))
  {
    match a
    case Toggle(id) => ToggleKeepsTemplate(c.fields, id);
    case Restyle(id, u) => StyleUpdateKeepsTemplate(c.fields, id, u);
    case _ =>
  }

  /** Switching the category discards every edit to the template: two
      carousels that differ only in their fields end up identical. */
  lemma SwitchDiscardsEdits(c: CarouselConfig, fs: seq<FieldConfig>, t: ItemType)
    requires t != c.itemType
    ensures Perform(c, SelectItemType(t)) == Perform(c.(fields := fs), SelectItemType(t))
    ensures |Perform(c, SelectItemType(t)).fields| == 4
  {
  }
}
