/** The editor's state container (App.tsx): the per-category default
    templates, the initial state, and the handlers that replace the one
    `AppState` record. Each handler is a function from the old state to the
    new one, and `Editor` holds the state and applies them in place. */
module App {
  import opened Types

  // ---------------------------------------------------------------------
  // ITEM_DEFAULTS
  // ---------------------------------------------------------------------

  /** The fixed default template of each category: four fields, all shown,
      centred horizontally, stacked top to bottom, the first one bold. */
  function ItemDefaults(t: ItemType): (d: seq<FieldConfig>)
    ensures |d| == 4
    ensures TemplateValid(d)
    ensures forall i :: 0 <= i < |d| ==> d[i].enabled && d[i].x == 50.0 && d[i].order == i
    ensures forall i, j :: 0 <= i < j < |d| ==> d[i].y < d[j].y
    ensures d[0].isBold && forall i :: 1 <= i < |d| ==> !d[i].isBold
  {
    match t
    case ROOM => [
      FieldConfig("room_no", "包间号", true, 16, "#000000", true, 0, 50.0, 20.0),
      FieldConfig("status", "包间状态", true, 14, "#3B82F6", false, 1, 50.0, 45.0),
      FieldConfig("end_time", "结束时间", true, 12, "#6B7280", false, 2, 50.0, 65.0),
      FieldConfig("capacity", "包间人数", true, 12, "#6B7280", false, 3, 50.0, 80.0)]
    case CINEMA => [
      FieldConfig("hall_name", "影厅名称", true, 16, "#000000", true, 0, 50.0, 20.0),
      FieldConfig("movie_title", "电影名称", true, 14, "#10B981", false, 1, 50.0, 45.0),
      FieldConfig("start_time", "开场时间", true, 12, "#6B7280", false, 2, 50.0, 65.0),
      FieldConfig("remaining_seats", "剩余座位", true, 12, "#6B7280", false, 3, 50.0, 80.0)]
    case STUDY => [
      FieldConfig("seat_no", "座位号", true, 16, "#000000", true, 0, 50.0, 20.0),
      FieldConfig("usage_status", "使用状态", true, 14, "#F59E0B", false, 1, 50.0, 45.0),
      FieldConfig("remaining_time", "剩余时长", true, 12, "#6B7280", false, 2, 50.0, 65.0),
      FieldConfig("user_type", "用户类型", true, 12, "#6B7280", false, 3, 50.0, 80.0)]
  }

  // ---------------------------------------------------------------------
  // Layers
  // ---------------------------------------------------------------------

  /** Product, queue table and carousel table cannot share a display. */
  const ExclusiveTypes: seq<ContentType> := [PRODUCT, QUEUE_TABLE, CAROUSEL_TABLE]

  /** `exclusiveTypes.includes(t)`: the six free-standing kinds of layer are
      exactly the ones that are not exclusive. */
  predicate IsExclusive(t: ContentType)
    ensures !IsExclusive(t) <==>
      t == IMAGE || t == VIDEO || t == TEXT || t == MONITOR || t == WEB_H5 || t == WEATHER
  {
    assert t in ExclusiveTypes <==> t == PRODUCT || t == QUEUE_TABLE || t == CAROUSEL_TABLE;
    t in ExclusiveTypes
  }

  predicate NotExclusive(t: ContentType) {
    !IsExclusive(t)
  }

  /** No layer twice, and at most one of the mutually exclusive kinds. */
  predicate LayersValid(ls: seq<ContentType>) {
    && NoDup(ls)
    && forall a, b :: a in ls && b in ls && IsExclusive(a) && IsExclusive(b) ==> a == b
  }

  /** The invariant of the editor state: valid layers, a selection that is
      empty or one of the layers, and a valid carousel. */
  predicate AppValid(s: AppState) {
    && LayersValid(s.activeLayers)
    && (s.selectedType.Some? ==> s.selectedType.value in s.activeLayers)
    && CarouselValid(s.carousel)
  }

  // ---------------------------------------------------------------------
  // Initial state
  // ---------------------------------------------------------------------

  /** A carousel table alone on the display and selected: a 4 by 4 grid of
      rooms, 640 by 400 pixels, ten seconds a page, the room template. */
  function InitialState(): (s: AppState)
    ensures AppValid(s)
    ensures s.activeLayers == [CAROUSEL_TABLE] && s.selectedType == Some(CAROUSEL_TABLE)
    ensures !s.isEditingLayout
    ensures s.carousel.itemType == ROOM && s.carousel.fields == ItemDefaults(ROOM)
    ensures s.carousel.rows == 4 && s.carousel.cols == 4 && s.carousel.duration == 10
    ensures s.carousel.width == 640.0 && s.carousel.height == 400.0
  {
    AppState([CAROUSEL_TABLE], Some(CAROUSEL_TABLE),
             CarouselConfig(ROOM, 4, 4, 640.0, 400.0, 10, ItemDefaults(ROOM)), false)
  }

  // ---------------------------------------------------------------------
  // handleSelectLayer, setEditingLayout
  // ---------------------------------------------------------------------

  function WithSelection(s: AppState, t: ContentType): (r: AppState)
    ensures r.selectedType == Some(t)
    ensures r.activeLayers == s.activeLayers && r.carousel == s.carousel
    ensures r.isEditingLayout == s.isEditingLayout
  {
    s.(selectedType := Some(t))
  }

  /** Selecting one of the layers on display keeps the state valid. */
  lemma SelectionKeepsValid(s: AppState, t: ContentType)
    requires AppValid(s) && t in s.activeLayers
    ensures AppValid(WithSelection(s, t))
  {
  }

  function WithEditingLayout(s: AppState, editing: bool): (r: AppState)
    ensures r.isEditingLayout == editing
    ensures r.activeLayers == s.activeLayers && r.selectedType == s.selectedType
    ensures r.carousel == s.carousel
  {
    s.(isEditingLayout := editing)
  }

  // ---------------------------------------------------------------------
  // handleAddContent
  // ---------------------------------------------------------------------

  /** The layer list after adding `t`: an exclusive kind evicts every
      exclusive layer and goes last; another kind is appended unless it is
      already there. */
  function AddLayer(ls: seq<ContentType>, t: ContentType): (r: seq<ContentType>)
    ensures t in r
    ensures IsExclusive(t) ==> r[|r| - 1] == t
    ensures IsExclusive(t) ==> forall x :: x in r && IsExclusive(x) ==> x == t
    ensures !IsExclusive(t) ==> r == if t in ls then ls else ls + [t]
    ensures forall x :: x != t ==> (x in r <==> x in ls && (IsExclusive(t) ==> !IsExclusive(x)))
  {
    if IsExclusive(t) then Filter(NotExclusive, ls) + [t]
    else if t !in ls then ls + [t]
    else ls
  }

  /** Adding an exclusive kind leaves the non-exclusive layers exactly as
      they were, in the same order; adding another kind leaves the
      exclusive layers as they were. */
  lemma AddLayerKeepsOthers(ls: seq<ContentType>, t: ContentType)
    ensures IsExclusive(t) ==> Filter(NotExclusive, AddLayer(ls, t)) == Filter(NotExclusive, ls)
    ensures !IsExclusive(t) ==> Filter(IsExclusive, AddLayer(ls, t)) == Filter(IsExclusive, ls)
  {
    var kept := Filter(NotExclusive, ls);
    if IsExclusive(t) {
      FilterConcat(NotExclusive, kept, [t]);
      FilterIdempotent(NotExclusive, ls);
      assert Filter(NotExclusive, [t]) == [];
    } else if t !in ls {
      FilterConcat(IsExclusive, ls, [t]);
      assert Filter(IsExclusive, [t]) == [];
    }
  }

  /** Adding a layer to a valid list gives a valid list: no duplicates, at
      most one exclusive kind. */
  lemma AddLayerKeepsLayersValid(ls: seq<ContentType>, t: ContentType)
    requires LayersValid(ls)
    ensures LayersValid(AddLayer(ls, t))
  {
    var r := AddLayer(ls, t);
    if IsExclusive(t) {
      var kept := Filter(NotExclusive, ls);
      FilterNoDup(NotExclusive, ls);
      assert t !in kept;
      forall i, j | 0 <= i < j < |r| ensures r[i] != r[j] {
        if j == |r| - 1 {
          assert r[i] == kept[i];
        } else {
          assert r[i] == kept[i] && r[j] == kept[j];
        }
      }
    } else if t !in ls {
      forall i, j | 0 <= i < j < |r| ensures r[i] != r[j] {
        if j == |r| - 1 {
          assert r[i] == ls[i];
        } else {
          assert r[i] == ls[i] && r[j] == ls[j];
        }
      }
    }
  }

  function WithContentAdded(s: AppState, t: ContentType): (r: AppState)
    ensures r.activeLayers == AddLayer(s.activeLayers, t)
    ensures r.selectedType == Some(t)
    ensures r.isEditingLayout == s.isEditingLayout
    ensures t == CAROUSEL_TABLE ==> r.carousel.itemType == ROOM && r.carousel.fields == ItemDefaults(ROOM)
    ensures t == CAROUSEL_TABLE ==> r.carousel.rows == s.carousel.rows && r.carousel.cols == s.carousel.cols
    ensures t == CAROUSEL_TABLE ==> r.carousel.width == s.carousel.width && r.carousel.height == s.carousel.height
    ensures t == CAROUSEL_TABLE ==> r.carousel.duration == s.carousel.duration
    ensures t != CAROUSEL_TABLE ==> r.carousel == s.carousel
  {
    s.(activeLayers := AddLayer(s.activeLayers, t),
       selectedType := Some(t),
       carousel := if t == CAROUSEL_TABLE
                   then s.carousel.(itemType := ROOM, fields := ItemDefaults(ROOM))
                   else s.carousel)
  }

  lemma AddContentKeepsValid(s: AppState, t: ContentType)
    requires AppValid(s)
    ensures AppValid(WithContentAdded(s, t))
  {
    AddLayerKeepsLayersValid(s.activeLayers, t);
  }

  // ---------------------------------------------------------------------
  // Sidebar's onRemove
  // ---------------------------------------------------------------------

  /** `l => l !== t`. */
  function Other(t: ContentType): ContentType -> bool {
    x => x != t
  }

  /** The state after removing layer `t`: the layer is gone, the others keep
      their order, and the selection is cleared exactly when it was `t`. */
  function WithLayerRemoved(s: AppState, t: ContentType): (r: AppState)
    ensures r.activeLayers == Filter(Other(t), s.activeLayers)
    ensures t !in r.activeLayers
    ensures forall x :: x in r.activeLayers <==> x in s.activeLayers && x != t
    ensures t !in s.activeLayers ==> r.activeLayers == s.activeLayers
    ensures r.selectedType.None? <==> s.selectedType.None? || s.selectedType == Some(t)
    ensures r.selectedType.Some? ==> r.selectedType == s.selectedType
    ensures r.carousel == s.carousel && r.isEditingLayout == s.isEditingLayout
  {
    var ls := Filter(Other(t), s.activeLayers);
    assert t !in s.activeLayers ==> ls == s.activeLayers by {
      if t !in s.activeLayers {
        FilterKeepsAll(Other(t), s.activeLayers);
      }
    }
    s.(activeLayers := ls,
       selectedType := if s.selectedType == Some(t) then None else s.selectedType)
  }

  lemma RemoveKeepsValid(s: AppState, t: ContentType)
    requires AppValid(s)
    ensures AppValid(WithLayerRemoved(s, t))
  {
    FilterNoDup(Other(t), s.activeLayers);
  }

  /** Removing a layer closes the gap it leaves: the layers before it and
      the layers after it stay in their order. */
  lemma RemoveKeepsOrder(s: AppState, a: seq<ContentType>, t: ContentType, b: seq<ContentType>)
    requires s.activeLayers == a + [t] + b
    requires t !in a && t !in b
    ensures WithLayerRemoved(s, t).activeLayers == a + b
  {
    var keep := Other(t);
    assert !keep(t);
    assert Filter(keep, [t]) == [] by {
      assert [t][1..] == [];
    }
    FilterKeepsAll(keep, a);
    FilterKeepsAll(keep, b);
    FilterConcat(keep, a, [t]);
    assert Filter(keep, a + [t]) == a;
    FilterConcat(keep, a + [t], b);
  }

  // ---------------------------------------------------------------------
  // handleUpdateCarousel
  // ---------------------------------------------------------------------

  /** The patch names a category other than the current one. */
  predicate SwitchesCategory(c: CarouselConfig, p: CarouselPatch) {
    p.itemType.Some? && p.itemType.value != c.itemType
  }

  /** `{...c, ...p}`, except that a change of category throws the template
      away and loads the new category's defaults, whatever fields `p` had. */
  function MergeCarousel(c: CarouselConfig, p: CarouselPatch): (r: CarouselConfig)
    ensures r.itemType == p.itemType.GetOr(c.itemType)
    ensures r.rows == p.rows.GetOr(c.rows) && r.cols == p.cols.GetOr(c.cols)
    ensures r.width == p.width.GetOr(c.width) && r.height == p.height.GetOr(c.height)
    ensures r.duration == p.duration.GetOr(c.duration)
    ensures SwitchesCategory(c, p) ==> r.fields == ItemDefaults(r.itemType)
    ensures !SwitchesCategory(c, p) ==> r.fields == p.fields.GetOr(c.fields)
  {
    var spread := CarouselConfig(
      p.itemType.GetOr(c.itemType), p.rows.GetOr(c.rows), p.cols.GetOr(c.cols),
      p.width.GetOr(c.width), p.height.GetOr(c.height), p.duration.GetOr(c.duration),
      p.fields.GetOr(c.fields));
    if SwitchesCategory(c, p) then spread.(fields := ItemDefaults(p.itemType.value)) else spread
  }

  /** The empty patch changes nothing. */
  lemma MergeNoChange(c: CarouselConfig)
    ensures MergeCarousel(c, NoChange) == c
  {
  }

  lemma MergeKeepsValid(c: CarouselConfig, p: CarouselPatch)
    requires CarouselValid(c) && PatchValid(p)
    ensures CarouselValid(MergeCarousel(c, p))
  {
  }

  /** Applying a patch twice is applying it once, unless it both switches
      the category and carries fields. */
  lemma MergeIdempotent(c: CarouselConfig, p: CarouselPatch)
    requires !(SwitchesCategory(c, p) && p.fields.Some?)
    ensures MergeCarousel(MergeCarousel(c, p), p) == MergeCarousel(c, p)
  {
  }

  /** A patch that switches the category and carries fields: the first
      application loads the new category's defaults, the second no longer
      switches and keeps the patch's fields. So applying it again changes
      the carousel exactly when those fields are not the defaults. */
  lemma SwitchWithFieldsIdempotence(c: CarouselConfig, p: CarouselPatch)
    requires SwitchesCategory(c, p) && p.fields.Some?
    ensures (MergeCarousel(MergeCarousel(c, p), p) != MergeCarousel(c, p)) <==>
            p.fields.value != ItemDefaults(p.itemType.value)
  {
  }

  /** For instance, switching the initial carousel to cinema with an empty
      template leaves four default fields once and none the second time. */
  lemma SwitchWithFieldsNotIdempotent()
    ensures var c := InitialState().carousel;
            var p := NoChange.(itemType := Some(CINEMA), fields := Some([]));
            MergeCarousel(MergeCarousel(c, p), p) != MergeCarousel(c, p)
  {
    var c := InitialState().carousel;
    var p := NoChange.(itemType := Some(CINEMA), fields := Some([]));
    assert |MergeCarousel(c, p).fields| == 4;
    assert MergeCarousel(MergeCarousel(c, p), p).fields == [];
  }

  /** `q` sets every key that `p` sets. */
  predicate Covers(q: CarouselPatch, p: CarouselPatch) {
    && (p.itemType.Some? ==> q.itemType.Some?)
    && (p.rows.Some? ==> q.rows.Some?)
    && (p.cols.Some? ==> q.cols.Some?)
    && (p.width.Some? ==> q.width.Some?)
    && (p.height.Some? ==> q.height.Some?)
    && (p.duration.Some? ==> q.duration.Some?)
    && (p.fields.Some? ==> q.fields.Some?)
  }

  /** A later patch that overwrites every key of an earlier one, neither of
      them switching category, erases the earlier one. */
  lemma MergeLastWins(c: CarouselConfig, p: CarouselPatch, q: CarouselPatch)
    requires p.itemType.None? && q.itemType.None? && Covers(q, p)
    ensures MergeCarousel(MergeCarousel(c, p), q) == MergeCarousel(c, q)
  {
  }

  /** The carousel after handling a stream of patches, in arrival order. */
  function ApplyPatches(c: CarouselConfig, ps: seq<CarouselPatch>): (r: CarouselConfig)
    ensures |ps| > 0 ==> r == MergeCarousel(ApplyPatches(c, ps[..|ps| - 1]), ps[|ps| - 1])
    decreases |ps|
  {
    if ps == [] then c
    else
      assert |ps| > 1 ==> ps[..|ps| - 1][1..] == ps[1..][..|ps[1..]| - 1];
      ApplyPatches(MergeCarousel(c, ps[0]), ps[1..])
  }

  /** A stream of patches that set the same keys and no category leaves the
      carousel as the last patch alone would. */
  lemma {:induction false} LastPatchWins(c: CarouselConfig, ps: seq<CarouselPatch>)
    requires |ps| > 0
    requires forall i :: 0 <= i < |ps| ==> ps[i].itemType.None? && Covers(ps[|ps| - 1], ps[i])
    ensures ApplyPatches(c, ps) == MergeCarousel(c, ps[|ps| - 1])
    decreases |ps|
  {
    if |ps| > 1 {
      var last := ps[|ps| - 1];
      assert ps[1..][|ps[1..]| - 1] == last;
      LastPatchWins(MergeCarousel(c, ps[0]), ps[1..]);
      MergeLastWins(c, ps[0], last);
    }
  }

  /** A stream of valid patches keeps a carousel valid. */
  lemma {:induction false} ApplyPatchesKeepsValid(c: CarouselConfig, ps: seq<CarouselPatch>)
    requires CarouselValid(c)
    requires forall i :: 0 <= i < |ps| ==> PatchValid(ps[i])
    ensures CarouselValid(ApplyPatches(c, ps))
    decreases |ps|
  {
    if ps != [] {
      MergeKeepsValid(c, ps[0]);
      ApplyPatchesKeepsValid(MergeCarousel(c, ps[0]), ps[1..]);
    }
  }

  function WithCarouselUpdate(s: AppState, p: CarouselPatch): (r: AppState)
    ensures r.carousel == MergeCarousel(s.carousel, p)
    ensures r.activeLayers == s.activeLayers && r.selectedType == s.selectedType
    ensures r.isEditingLayout == s.isEditingLayout
  {
    s.(carousel := MergeCarousel(s.carousel, p))
  }

  // ---------------------------------------------------------------------
  // The state holder
  // ---------------------------------------------------------------------

  /** The App component: one state record, replaced by every handler. */
  class Editor {
    var state: AppState

    ghost predicate Valid()
      reads this
    {
      AppValid(state)
    }

    constructor ()
      ensures state == InitialState() && Valid()
    {
      state := InitialState();
    }

    method HandleSelectLayer(t: ContentType)
      modifies this
      ensures state == WithSelection(old(state), t)
      ensures old(Valid()) && t in old(state.activeLayers) ==> Valid()
    {
      state := state.(selectedType := Some(t));
    }

    /** Builds the new layer list on a copy, filtering and pushing, then
        installs it with the new selection and, for a carousel table, the
        room defaults. */
    method HandleAddContent(t: ContentType)
      modifies this
      ensures state == WithContentAdded(old(state), t)
      ensures old(Valid()) ==> Valid()
    {
      ghost var prev := state;
      var newLayers := state.activeLayers;
      if IsExclusive(t) {
        newLayers := Filter(NotExclusive, newLayers);
        newLayers := newLayers + [t];
      } else if t !in newLayers {
        newLayers := newLayers + [t];
      }
      var carousel := state.carousel;
      if t == CAROUSEL_TABLE {
        carousel := carousel.(itemType := ROOM, fields := ItemDefaults(ROOM));
      }
      state := state.(activeLayers := newLayers, selectedType := Some(t), carousel := carousel);
      if AppValid(prev) {
        AddContentKeepsValid(prev, t);
      }
    }

    /** Spreads the patch over the carousel, then reloads the defaults if the
        category changed. */
    method HandleUpdateCarousel(p: CarouselPatch)
      modifies this
      ensures state == WithCarouselUpdate(old(state), p)
      ensures old(Valid()) && PatchValid(p) ==> Valid()
    {
      var c := state.carousel;
      var newConfig := CarouselConfig(
        p.itemType.GetOr(c.itemType), p.rows.GetOr(c.rows), p.cols.GetOr(c.cols),
        p.width.GetOr(c.width), p.height.GetOr(c.height), p.duration.GetOr(c.duration),
        p.fields.GetOr(c.fields));
      if p.itemType.Some? && p.itemType.value != c.itemType {
        newConfig := newConfig.(fields := ItemDefaults(p.itemType.value));
      }
      state := state.(carousel := newConfig);
    }

    method SetEditingLayout(editing: bool)
      modifies this
      ensures state == WithEditingLayout(old(state), editing)
      ensures old(Valid()) ==> Valid()
    {
      state := state.(isEditingLayout := editing);
    }

    method OnRemove(t: ContentType)
      modifies this
      ensures state == WithLayerRemoved(old(state), t)
      ensures old(Valid()) ==> Valid()
    {
      ghost var prev := state;
      var selected := if state.selectedType == Some(t) then None else state.selectedType;
      state := state.(activeLayers := Filter(Other(t), state.activeLayers), selectedType := selected);
      if AppValid(prev) {
        RemoveKeepsValid(prev, t);
      }
    }
  }
}
