# Carousel-table editor: state rules and direct-manipulation arithmetic

This project models the logic under a small React editor for digital-signage
layouts. A display holds layers (image, video, text, queue table, carousel
table, ...). The carousel table is a grid of cells. Each cell shows the same
template of fields (room number, status, ...) at percentage positions, and
the user edits that template by dragging fields around. The editor state is
one record. Every handler replaces it with a new record. The canvas turns
pointer movement into new field positions and new carousel sizes.

The model has four modules, one per source file of the core plus the types:

- `Types` (types.dfy, from `types.ts`) holds the enumerations and records.
  `Partial<...>` records become records of `Option`s. It also holds the
  invariants of the layout data and two list operations. `Filter` is
  JavaScript's `filter`. `MapById` is the `fields.map(f => f.id === id ? ... : f)`
  rewrite that all three field edits use.
- `App` (app.dfy, from `App.tsx`) holds the default template of each
  category, the initial state, and each handler as a function from the old
  state to the new one. It proves the invariant `AppValid`: no duplicate
  layers, at most one exclusive layer, the selection is empty or a layer on
  display, and the carousel is valid. The class `App.Editor` holds the state
  and applies the handlers in place.
- `ConfigPanel` (config_panel.dfy) covers which page the panel shows, the
  field toggle and style update, the row and column steppers, the duration
  slider and the category selector. Each control is a `PanelAction` whose
  patch goes through the editor's carousel update (`Perform`).
- `Canvas` (canvas.dfy) covers the placeholder values, the grid of cells,
  the cell-template editor's size, and the pointer-to-percent conversion
  with its clamp. It also covers the resize handles and the two drag
  sessions. Each session is a class: mouse-down constructs it,
  `OnMouseMove` emits a patch while the listeners are installed, and
  `OnMouseUp` removes them.

Coordinates and sizes are `real`. Integer attributes (rows, columns,
duration, font size) are `int`. The pointer position and the measured
container rectangle are parameters.

## Model

| member | source | states |
|---|---|---|
| `Types.Filter` | App.tsx:57 | the result keeps exactly the elements the test accepts, and is no longer than the input |
| `Types.FilterConcat` | App.tsx:57 | filtering a concatenation filters each part, so kept elements keep their relative order |
| `Types.FilterNoDup` | App.tsx:57 | a list without duplicates has none after filtering |
| `Types.MapById` | components/ConfigPanel.tsx:32-34 | exactly the fields with the given id are rewritten; length, order and every other field are kept |
| `Types.MapByIdKeepsTemplate` | components/Canvas.tsx:82-84 | an id-preserving edit that keeps fields inside the cell keeps ids distinct and positions in [0,100] |
| `App.ItemDefaults` | App.tsx:9-28 | every category has 4 enabled fields with distinct ids, x = 50, y in [0,100] increasing top to bottom, `order` equal to the position, only the first field bold |
| `App.InitialState` | App.tsx:31-46 | the initial state is valid: the carousel table alone and selected, ROOM, 4×4, 640×400, 10 s, the ROOM defaults, not editing the layout |
| `App.WithSelection` | App.tsx:48-50 | selecting a layer changes only `selectedType` |
| `App.SelectionKeepsValid` | App.tsx:48-50 | selecting a layer that is on display keeps the state valid |
| `App.WithEditingLayout` | App.tsx:88-90 | the layout-editing flag changes and nothing else does |
| `App.IsExclusive` | App.tsx:54-56 | product, queue table and carousel table are exclusive; exactly the six other kinds (image, video, text, monitor, web page, weather) are not |
| `App.AddLayer` | App.tsx:53-61 | the added layer is present; an exclusive one is last and is then the only exclusive layer; a non-exclusive one is appended unless already present, leaving the list otherwise unchanged; no other layer appears or disappears except evicted exclusive ones |
| `App.AddLayerKeepsOthers` | App.tsx:56-61 | adding an exclusive layer keeps the non-exclusive layers in the same order; adding another kind keeps the exclusive layers |
| `App.AddLayerKeepsLayersValid` | App.tsx:53-61 | adding a layer keeps the list free of duplicates with at most one exclusive layer |
| `App.WithContentAdded` | App.tsx:63-72 | the added layer becomes selected; adding a carousel table resets it to ROOM with the ROOM defaults and keeps rows, cols, width, height and duration; any other layer leaves the carousel untouched |
| `App.AddContentKeepsValid` | App.tsx:52-73 | adding content keeps the editor state valid |
| `App.WithLayerRemoved` | App.tsx:98-102 | the layer list is the order-keeping filter of the old one without that layer: it is gone and the others stay; the selection is cleared exactly when it was that layer and is otherwise unchanged |
| `App.RemoveKeepsOrder` | App.tsx:100 | removing `t` from `a + [t] + b`, `t` in neither part, leaves exactly `a + b`: the others keep their order |
| `App.RemoveKeepsValid` | App.tsx:98-102 | removing a layer keeps the editor state valid |
| `App.MergeCarousel` | App.tsx:75-86 | each attribute takes the patch value or keeps the old one; a change of category loads that category's defaults even if the patch carried fields; otherwise fields are the patch's or unchanged |
| `App.MergeNoChange` | App.tsx:77 | the empty patch changes nothing |
| `App.MergeKeepsValid` | App.tsx:77-80 | a patch whose values are valid keeps a valid carousel valid |
| `App.MergeIdempotent` | App.tsx:77-80 | a patch that does not both switch the category and carry fields is idempotent, including one that names the current category |
| `App.SwitchWithFieldsIdempotence` | App.tsx:77-80 | a patch that switches the category and carries fields changes the carousel when applied a second time exactly when its fields differ from the new category's defaults |
| `App.SwitchWithFieldsNotIdempotent` | App.tsx:78-79 | one instance: switching the initial carousel to cinema with an empty template gives a different result when applied a second time |
| `App.MergeLastWins` | App.tsx:77 | a later patch that overwrites every key of an earlier one, neither of them carrying a category, erases it |
| `App.LastPatchWins` | App.tsx:75-86 | a stream of patches with the same keys and no category leaves the carousel as the last patch alone would |
| `App.ApplyPatchesKeepsValid` | App.tsx:75-86 | a stream of valid patches keeps the carousel valid |
| `App.ApplyPatches` | App.tsx:75-86 | successive carousel updates are handled in arrival order: the result is the last patch merged over the result of the ones before it |
| `App.WithCarouselUpdate` | App.tsx:75-86 | the carousel update replaces only the carousel |
| `App.Editor.constructor` | App.tsx:31-46 | the editor starts in the initial state, which is valid |
| `App.Editor.HandleSelectLayer` | App.tsx:48-50 | the state becomes `WithSelection` of the old state and stays valid for a layer on display |
| `App.Editor.HandleAddContent` | App.tsx:52-73 | the state built by filtering and pushing on a copy equals `WithContentAdded` of the old state and stays valid |
| `App.Editor.HandleUpdateCarousel` | App.tsx:75-86 | the state becomes `WithCarouselUpdate` of the old state and stays valid under a valid patch |
| `App.Editor.SetEditingLayout` | App.tsx:88-90 | the state becomes `WithEditingLayout` of the old state and stays valid |
| `App.Editor.OnRemove` | App.tsx:98-102 | the state becomes `WithLayerRemoved` of the old state and stays valid |
| `ConfigPanel.PageFor` | components/ConfigPanel.tsx:20-124 | placeholder iff the carousel table is not selected; otherwise the layout page iff editing the layout, else the global settings |
| `ConfigPanel.InitialPage` | components/ConfigPanel.tsx:20-46 | the editor opens on the global settings page |
| `ConfigPanel.EditingLayoutSwitchesPage` | components/ConfigPanel.tsx:46-51 | with the carousel selected, entering layout editing shows the layout page and leaving it shows the global settings |
| `ConfigPanel.AddingContentSelectsPage` | components/ConfigPanel.tsx:20 | after adding content the placeholder shows iff the added layer is not the carousel table |
| `ConfigPanel.RemovingCarouselShowsPlaceholder` | components/ConfigPanel.tsx:20 | removing the carousel table shows the placeholder |
| `ConfigPanel.ToggleField` | components/ConfigPanel.tsx:31-36 | length and order kept; `enabled` flips exactly on the fields with the id; every other attribute and every other field is unchanged |
| `ConfigPanel.ToggleTwice` | components/ConfigPanel.tsx:32-34 | toggling the same id twice gives back the original list |
| `ConfigPanel.ToggleKeepsTemplate` | components/ConfigPanel.tsx:32-34 | toggling keeps a valid template valid |
| `ConfigPanel.ApplyFieldPatch` | components/ConfigPanel.tsx:40 | every key the patch lacks keeps the field's old value and each style key it carries is taken from it; so the empty patch changes nothing and a style patch keeps id, caption, enabled flag, order and position |
| `ConfigPanel.ApplyFieldPatchIdempotent` | components/ConfigPanel.tsx:40 | spreading the same patch over a field twice is spreading it once |
| `ConfigPanel.UpdateField` | components/ConfigPanel.tsx:38-43 | length and order kept; matching fields take every attribute the patch carries and keep the others; non-matching fields are unchanged |
| `ConfigPanel.UpdateFieldIdempotent` | components/ConfigPanel.tsx:38-43 | sending the same field update twice is sending it once |
| `ConfigPanel.StyleUpdateKeepsTemplate` | components/ConfigPanel.tsx:84-103 | a font-size, weight or colour update keeps a valid template valid |
| `ConfigPanel.StepDown` | components/ConfigPanel.tsx:168 | `max(1, n-1)`: always at least 1, one less from 2 up, and 1 stays 1 |
| `ConfigPanel.StepDownUndoesStepUp` | components/ConfigPanel.tsx:168-180 | the minus button undoes the plus button |
| `ConfigPanel.ActionPatch` | components/ConfigPanel.tsx:145-218 | each control sends exactly its own key and never a size; the steppers send at least one row or column for a grid that has one; the duration sent is in [3,60] |
| `ConfigPanel.Perform` | components/ConfigPanel.tsx:145-218 | after each control's patch goes through the carousel update, only that control's attribute changes: toggled/updated fields, rows and cols `max(1,n-1)` or exactly n+1 with no upper bound, the duration, or a new category with its defaults (same category: no change) |
| `ConfigPanel.PerformKeepsValid` | components/ConfigPanel.tsx:145-218 | every panel control keeps a valid carousel valid, given a duration in [3,60] |
| `ConfigPanel.SwitchDiscardsEdits` | components/ConfigPanel.tsx:145 | after a category switch the result does not depend on the previous fields, and the template has 4 fields |
| `Canvas.Decimal` | components/Canvas.tsx:12 | the numeral of a natural is non-empty, all digits, with no leading zero |
| `Canvas.DecimalRoundTrip` | components/Canvas.tsx:12 | the numeral reads back as the number it came from |
| `Canvas.MockTable` | components/Canvas.tsx:11-15 | every entry of every category's table is a non-empty text, so `\|\| '-'` gives a dash only for an id without an entry |
| `Canvas.GetMockValue` | components/Canvas.tsx:10-17 | the text is '-' exactly for an id not in the category's table, and the table's text otherwise |
| `Canvas.RoomMocks` | components/Canvas.tsx:12 | ROOM `room_no` is the numeral of 101+index; ROOM `status` is '空闲' iff index % 3 == 0 |
| `Canvas.MocksCoverDefaults` | components/Canvas.tsx:11-15 | each category's mock table has entries for exactly the ids of its default template |
| `Canvas.CellCount` | components/Canvas.tsx:39 | rows·cols cells when both are at least 1, and none when the product is not positive |
| `Canvas.CellContents` | components/Canvas.tsx:41-56 | a cell shows as many fields as are enabled |
| `Canvas.Grid` | components/Canvas.tsx:39-58 | the grid has `CellCount(rows, cols)` cells |
| `Canvas.EnabledFields` | components/Canvas.tsx:27 | at most as many fields as the template, and a field is kept exactly when it is in the template and enabled |
| `Canvas.GridShowsEnabledFields` | components/Canvas.tsx:27-56 | every cell shows exactly the enabled fields, in list order, each with its text for that cell |
| `Canvas.DefaultGridShowsAllFields` | components/Canvas.tsx:27-56 | with a default template every cell shows its four fields in order, none as '-' |
| `Canvas.CellWidth` | components/Canvas.tsx:182 | `cols` cells of this width fill the width, and it is positive for a positive width |
| `Canvas.CellHeight` | components/Canvas.tsx:183 | `rows` cells of this height fill the height, and it is positive for a positive height |
| `Canvas.DisplayHeight` | components/Canvas.tsx:98-99 | the 400-pixel-wide template editor has the cell's aspect ratio, and a positive height for a positive cell height |
| `Canvas.TemplateEditorHeight` | components/Canvas.tsx:98-99 | for a valid carousel the template editor's height is positive |
| `Canvas.TemplatePreview` | components/Canvas.tsx:112-127 | the template editor shows what the grid's first cell shows |
| `Canvas.ClampPercent` | components/Canvas.tsx:83 | the result is in [0,100], equals the input inside that range, and is 0 below and 100 above |
| `Canvas.ClampIdempotent` | components/Canvas.tsx:83 | clamping a clamped value changes nothing |
| `Canvas.ToPercent` | components/Canvas.tsx:79-80 | the near edge is 0 percent and the far edge 100; a coordinate inside the extent gives a value in [0,100]; converting back gives the coordinate |
| `Canvas.PercentRoundTrip` | components/Canvas.tsx:79-80 | converting a pointer coordinate to percent and back gives the coordinate |
| `Canvas.PercentOutside` | components/Canvas.tsx:79-80 | before the container the raw percent is negative; past it, above 100 |
| `Canvas.PointerToPercent` | components/Canvas.tsx:79-83 | both coordinates are in [0,100]; inside the rectangle the field's anchor lands under the pointer; outside it is pinned to the nearer edge |
| `Canvas.CentreScenario` | components/Canvas.tsx:79-83 | rect (0,0,400,300) with the pointer at (200,150) gives (50,50) |
| `Canvas.LeftOfContainerScenario` | components/Canvas.tsx:79-83 | a pointer giving x = -10 stores x = 0 |
| `Canvas.DragFields` | components/Canvas.tsx:82-84 | the emitted list is the mouse-down snapshot with only the dragged id's x and y replaced by the clamped pointer position; length, order and other fields are unchanged |
| `Canvas.DragKeepsTemplate` | components/Canvas.tsx:82-84 | a drag move keeps a valid template valid |
| `Canvas.DragStream` | components/Canvas.tsx:77-86 | one patch per mouse move |
| `Canvas.DragGestureOutcome` | components/Canvas.tsx:77-94 | however the pointer moved, the template after a drag is the one the last move emitted |
| `Canvas.DimensionDelta` | components/Canvas.tsx:150-152 | the doubled delta, scaled back by the canvas's 0.5 display scale, is the pointer's movement |
| `Canvas.ResizePatch` | components/Canvas.tsx:149-162 | width present iff mode is width or both, height iff height or both; each is `max(100, start + 2·delta)`; no other key is present |
| `Canvas.ResizeFollowsPointer` | components/Canvas.tsx:151-156 | above the floor, the width grows by exactly the pointer's movement on the half-size canvas |
| `Canvas.CornerScenario` | components/Canvas.tsx:151-159 | the corner handle dragged by (+50,+20) from 640×400 gives 740×440 |
| `Canvas.ResizeKeepsValid` | components/Canvas.tsx:154-161 | a resize move keeps a valid carousel valid |
| `Canvas.ResizeStream` | components/Canvas.tsx:149-162 | one patch per mouse move |
| `Canvas.ResizeGestureOutcome` | components/Canvas.tsx:142-171 | path independence: the carousel after a resize is what the last move alone gives |
| `Canvas.FieldDragSession.constructor` | components/Canvas.tsx:73-95 | mouse-down captures the field id, the field list and the rectangle, installs the listeners, and the session is `Valid` |
| `Canvas.FieldDragSession.OnMouseMove` | components/Canvas.tsx:77-86 | for a session whose mouse-down rectangle has an area (`Valid`, established by the constructor), emits exactly while listening, and what it emits is `DragFields` of the captured snapshot |
| `Canvas.FieldDragSession.OnMouseUp` | components/Canvas.tsx:88-91 | after mouse-up the listeners are gone |
| `Canvas.ResizeSession.constructor` | components/Canvas.tsx:142-147 | mouse-down captures the mode, the pointer and the carousel's width and height, and installs the listeners |
| `Canvas.ResizeSession.OnMouseMove` | components/Canvas.tsx:149-162 | emits exactly while listening, and what it emits is `ResizePatch` of the captured start values and the current pointer |
| `Canvas.ResizeSession.OnMouseUp` | components/Canvas.tsx:164-167 | after mouse-up the listeners are gone |

## Left out

- Markup, styling, icons and the Chinese label tables (components/ConfigPanel.tsx:11-15) are presentation only. So are the 1.5× font size in the template editor, the 720×1280 canvas frame and the selection ring.
- components/Sidebar.tsx and components/Toolbar.tsx only display things and forward clicks. Toolbar's `isOtherExclusiveActive` is never used. The disabled product button is a mock-up; `WithContentAdded` still covers adding a product.
- The untyped, unread `productConfig` and `queueConfig` slots of the state, and the zoom widget and header buttons, which have no handlers.
- Browser APIs are not modelled. `getBoundingClientRect` becomes a `Rect` parameter. `window.addEventListener`/`removeEventListener` become a session's `listening` flag. React's batching of `setState` is not modelled.
- `FieldDragSession.constructor`: the early return when the container element is not mounted (components/Canvas.tsx:74) is not modelled. A session is only built from a measured rectangle.
- `App.Editor.HandleAddContent`: the source builds the new layer list from the `state` captured when the component last rendered (App.tsx:53), not from `prev`. The model builds it from the current state, which is the same unless two updates are batched between renders.
- `Canvas.PointerToPercent` and `Canvas.FieldDragSession.constructor` require a rectangle of positive width and height. The source divides by them unguarded, and zero would give infinities or NaN.
- JavaScript numbers are IEEE doubles; the model uses exact `real` and `int`, so rounding is not modelled.
- `Canvas.Decimal` covers `toString` only for the natural cell indexes the grid passes.
- `Canvas.GetMockValue`: JavaScript's `||` would also turn an empty text into '-', and the model keeps that case. No entry of the tables is empty.
- `Canvas.GetMockValue`: the tables are plain objects, so an id naming an inherited `Object.prototype` member (`toString`, `constructor`) would read a function rather than '-'. The model treats such ids as absent; ids come only from the default templates, and the panel never sends an `id`.
- `ConfigPanel.Perform` requires the duration to be in [3,60], as the range input delivers it. The code has no clamp of the duration, no error path for a zero-sized container and no guard against starting a second drag, and the model has none either.
- `App.SelectionKeepsValid` requires the selected layer to be on display. The sidebar lists only layers on display, but `handleSelectLayer` itself accepts any type.
- The resize scale is fixed at 2 (`DimensionDelta`), as in the code. There is no configurable zoom.
