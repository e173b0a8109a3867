/** The canvas (components/Canvas.tsx): the placeholder values shown in the
    cells, the grid of cells, the cell-template editor in which fields are
    dragged, and the handles that resize the carousel. Pointer positions,
    the measured container rectangle and the window's listeners are inputs
    and session state here. */
module Canvas {
  import opened Types
  import opened App

  function RealMax(a: real, b: real): real {
    if a >= b then a else b
  }

  function RealMin(a: real, b: real): real {
    if a <= b then a else b
  }

  // ---------------------------------------------------------------------
  // Number.prototype.toString for the cell index
  // ---------------------------------------------------------------------

  predicate IsDigit(ch: char) {
    '0' <= ch <= '9'
  }

  function Digit(d: nat): (ch: char)
    requires d < 10
    ensures IsDigit(ch) && ch as int - '0' as int == d
  {
    "0123456789"[d]
  }

  /** The decimal numeral of `n`: digits only, no leading zero. */
  function Decimal(n: nat): (s: string)
    ensures |s| >= 1
    ensures forall i :: 0 <= i < |s| ==> IsDigit(s[i])
    ensures |s| > 1 ==> s[0] != '0'
    ensures n > 0 ==> s[0] != '0'
  {
    if n < 10 then [Digit(n)] else Decimal(n / 10) + [Digit(n % 10)]
  }

  function DigitValue(ch: char): nat
    requires IsDigit(ch)
  {
    ch as int - '0' as int
  }

  /** The number a numeral denotes. */
  function DecimalValue(s: string): nat
    requires forall i :: 0 <= i < |s| ==> IsDigit(s[i])
  {
    if s == [] then 0
    else
      assert IsDigit(s[|s| - 1]);
      DecimalValue(s[..|s| - 1]) * 10 + DigitValue(s[|s| - 1])
  }

  /** The numeral reads back as the number it was made from. */
  lemma {:induction false} DecimalRoundTrip(n: nat)
    ensures DecimalValue(Decimal(n)) == n
  {
    if n >= 10 {
      var s := Decimal(n);
      assert s[..|s| - 1] == Decimal(n / 10);
      DecimalRoundTrip(n / 10);
    }
  }

  // ---------------------------------------------------------------------
  // getMockValue
  // ---------------------------------------------------------------------

  /** The placeholder text of each field of a category, for the cell at
      `index`. */
  function MockTable(t: ItemType, index: nat): (m: map<string, string>)
    ensures forall id :: id in m ==> |m[id]| > 0
  {
    match t
    case ROOM => map[
      "room_no" := Decimal(101 + index),
      "status" := if index % 3 == 0 then "空闲" else "占用",
      "end_time" := "14:30",
      "capacity" := "4人"]
    case CINEMA => map[
      "hall_name" := Decimal(index + 1) + "号厅",
      "movie_title" := if index % 2 == 0 then "阿凡达" else "星际穿越",
      "start_time" := "19:00",
      "remaining_seats" := "24"]
    case STUDY => map[
      "seat_no" := "A-" + Decimal(index + 1),
      "usage_status" := if index % 2 == 0 then "学习中" else "空置",
      "remaining_time" := "02:45",
      "user_type" := "会员"]
  }

  /** `mocks[type][fieldId] || '-'`: the table's text, or a dash when the
      id has no entry (an empty text would also give a dash). */
  function GetMockValue(t: ItemType, id: string, index: nat): (v: string)
    ensures v == "-" <==> id !in MockTable(t, index)
    ensures id in MockTable(t, index) ==> v == MockTable(t, index)[id]
  {
    var m := MockTable(t, index);
    if id in m && m[id] != "" then m[id] else "-"
  }

  /** Room numbers count up from 101, and every third room from the first
      is free. */
  lemma RoomMocks(index: nat)
    ensures DecimalValue(GetMockValue(ROOM, "room_no", index)) == 101 + index
    ensures GetMockValue(ROOM, "status", index) == "空闲" <==> index % 3 == 0
  {
    DecimalRoundTrip(101 + index);
  }

  /** The mock table of a category has an entry for exactly the ids of its
      default template. */
  lemma MocksCoverDefaults(t: ItemType, index: nat)
    ensures MockTable(t, index).Keys == set f | f in ItemDefaults(t) :: f.id
  {
    var d := ItemDefaults(t);
    assert d[0] in d && d[1] in d && d[2] in d && d[3] in d;
  }

  // ---------------------------------------------------------------------
  // CarouselGrid
  // ---------------------------------------------------------------------

  predicate IsEnabled(f: FieldConfig) {
    f.enabled
  }

  /** `fields.filter(f => f.enabled)`. */
  function EnabledFields(fs: seq<FieldConfig>): (r: seq<FieldConfig>)
    ensures |r| <= |fs|
    ensures forall f :: f in r <==> f in fs && f.enabled
  {
    Filter(IsEnabled, fs)
  }

  /** One field as drawn in a cell: its style and position, and its text. */
  datatype Shown = Shown(field: FieldConfig, text: string)

  /** `Array.from({length: rows * cols})`: a length that is not positive
      gives no cells. */
  function CellCount(rows: int, cols: int): (n: nat)
    ensures rows >= 1 && cols >= 1 ==> n == rows * cols
    ensures n > 0 <==> rows * cols > 0
  {
    if rows * cols > 0 then rows * cols else 0
  }

  /** The cell at `index`: the enabled fields in list order, each with its
      placeholder text for that cell. */
  function CellContents(t: ItemType, fs: seq<FieldConfig>, index: nat): (cell: seq<Shown>)
    ensures |cell| == |EnabledFields(fs)|
  {
    var shown := EnabledFields(fs);
    seq(|shown|, k requires 0 <= k < |shown| => Shown(shown[k], GetMockValue(t, shown[k].id, index)))
  }

  /** The grid of cells, in reading order. */
  function Grid(c: CarouselConfig): (cells: seq<seq<Shown>>)
    ensures |cells| == CellCount(c.rows, c.cols)
  {
    seq(CellCount(c.rows, c.cols), i requires 0 <= i < CellCount(c.rows, c.cols) =>
      CellContents(c.itemType, c.fields, i))
  }

  /** Every cell shows exactly the enabled fields, in list order, with the
      text for that cell. */
  lemma GridShowsEnabledFields(c: CarouselConfig, i: nat)
    requires i < |Grid(c)|
    ensures |Grid(c)[i]| == |EnabledFields(c.fields)|
    ensures forall k :: 0 <= k < |Grid(c)[i]| ==>
              Grid(c)[i][k].field == EnabledFields(c.fields)[k] &&
              Grid(c)[i][k].field.enabled &&
              Grid(c)[i][k].text == GetMockValue(c.itemType, Grid(c)[i][k].field.id, i)
    ensures forall f :: f in c.fields && f.enabled <==> exists k :: 0 <= k < |Grid(c)[i]| && Grid(c)[i][k].field == f
  {
    var shown := EnabledFields(c.fields);
    forall f ensures f in c.fields && f.enabled <==> exists k :: 0 <= k < |Grid(c)[i]| && Grid(c)[i][k].field == f {
      if f in c.fields && f.enabled {
        assert f in shown;
        var k :| 0 <= k < |shown| && shown[k] == f;
        assert Grid(c)[i][k].field == f;
      }
    }
  }

  /** A fresh template shows all four of its fields in every cell, each with
      a real value rather than a dash. */
  lemma DefaultGridShowsAllFields(c: CarouselConfig, i: nat)
    requires c.fields == ItemDefaults(c.itemType)
    requires i < |Grid(c)|
    ensures Grid(c)[i] == seq(4, k requires 0 <= k < 4 =>
              Shown(c.fields[k], GetMockValue(c.itemType, c.fields[k].id, i)))
    ensures forall k :: 0 <= k < 4 ==> Grid(c)[i][k].text != "-"
  {
    FilterKeepsAll(IsEnabled, c.fields);
    MocksCoverDefaults(c.itemType, i);
    forall k | 0 <= k < 4 ensures c.fields[k].id in MockTable(c.itemType, i) {
      assert c.fields[k] in c.fields;
    }
  }

  // ---------------------------------------------------------------------
  // Cell size and the template editor's display size
  // ---------------------------------------------------------------------

  /** `width / cols`: `cols` cells of this width fill the carousel. */
  function CellWidth(c: CarouselConfig): (w: real)
    requires c.cols >= 1
    ensures w * c.cols as real == c.width
    ensures c.width > 0.0 ==> w > 0.0
  {
    c.width / c.cols as real
  }

  /** `height / rows`: `rows` cells of this height fill the carousel. */
  function CellHeight(c: CarouselConfig): (h: real)
    requires c.rows >= 1
    ensures h * c.rows as real == c.height
    ensures c.height > 0.0 ==> h > 0.0
  {
    c.height / c.rows as real
  }

  /** The template editor is always 400 pixels wide. */
  const DisplayWidth: real := 400.0

  /** `cellHeight / cellWidth * 400`: the editor's height, so that it has
      the cell's aspect ratio. */
  function DisplayHeight(cellWidth: real, cellHeight: real): (h: real)
    requires cellWidth > 0.0
    ensures h * cellWidth == cellHeight * DisplayWidth
    ensures cellHeight > 0.0 ==> h > 0.0
  {
    cellHeight / cellWidth * DisplayWidth
  }

  /** For a valid carousel the template editor has positive height. */
  lemma TemplateEditorHeight(c: CarouselConfig)
    requires CarouselValid(c)
    ensures DisplayHeight(CellWidth(c), CellHeight(c)) > 0.0
  {
  }

  /** The fields the template editor shows, each with the first cell's text:
      it previews the first cell of the grid. */
  function TemplatePreview(c: CarouselConfig): (cell: seq<Shown>)
    ensures CellCount(c.rows, c.cols) > 0 ==> cell == Grid(c)[0]
  {
    CellContents(c.itemType, c.fields, 0)
  }

  // ---------------------------------------------------------------------
  // Pointer to percent (CellLayoutEditor's mouse move)
  // ---------------------------------------------------------------------

  datatype Point = Point(x: real, y: real)

  /** A measured element, in viewport pixels. */
  datatype Rect = Rect(left: real, top: real, width: real, height: real)

  /** `Math.max(0, Math.min(100, v))`. */
  function ClampPercent(v: real): (r: real)
    ensures InPercentRange(r)
    ensures InPercentRange(v) ==> r == v
    ensures v < 0.0 ==> r == 0.0
    ensures v > 100.0 ==> r == 100.0
  {
    RealMax(0.0, RealMin(100.0, v))
  }

  /** Clamping a clamped value changes nothing. */
  lemma ClampIdempotent(v: real)
    ensures ClampPercent(ClampPercent(v)) == ClampPercent(v)
  {
  }

  /** Where `p` lies along an extent starting at `origin`, in percent. */
  function ToPercent(p: real, origin: real, size: real): (r: real)
    requires size > 0.0
    ensures p == origin ==> r == 0.0
    ensures p == origin + size ==> r == 100.0
    ensures origin <= p <= origin + size ==> 0.0 <= r <= 100.0
    ensures FromPercent(r, origin, size) == p
  {
    (p - origin) / size * 100.0
  }

  /** The viewport coordinate at `pc` percent of an extent. */
  function FromPercent(pc: real, origin: real, size: real): real {
    origin + pc / 100.0 * size
  }

  lemma PercentRoundTrip(p: real, origin: real, size: real)
    requires size > 0.0
    ensures FromPercent(ToPercent(p, origin, size), origin, size) == p
  {
  }

  /** Before the extent is below 0 percent, past it above 100 percent. */
  lemma PercentOutside(p: real, origin: real, size: real)
    requires size > 0.0
    ensures p < origin ==> ToPercent(p, origin, size) < 0.0
    ensures p > origin + size ==> ToPercent(p, origin, size) > 100.0
  {
    var q := (p - origin) / size;
    assert q * size == p - origin;
  }

  /** The clamped position, per axis, of the pointer in the rectangle. */
  function PointerToPercent(rect: Rect, pointer: Point): (pos: Point)
    requires rect.width > 0.0 && rect.height > 0.0
    ensures InPercentRange(pos.x) && InPercentRange(pos.y)
    ensures rect.left <= pointer.x <= rect.left + rect.width ==>
              FromPercent(pos.x, rect.left, rect.width) == pointer.x
    ensures rect.top <= pointer.y <= rect.top + rect.height ==>
              FromPercent(pos.y, rect.top, rect.height) == pointer.y
    ensures pointer.x < rect.left ==> pos.x == 0.0
    ensures pointer.x > rect.left + rect.width ==> pos.x == 100.0
    ensures pointer.y < rect.top ==> pos.y == 0.0
    ensures pointer.y > rect.top + rect.height ==> pos.y == 100.0
  {
    var x := ToPercent(pointer.x, rect.left, rect.width);
    var y := ToPercent(pointer.y, rect.top, rect.height);
    PercentRoundTrip(pointer.x, rect.left, rect.width);
    PercentRoundTrip(pointer.y, rect.top, rect.height);
    PercentOutside(pointer.x, rect.left, rect.width);
    PercentOutside(pointer.y, rect.top, rect.height);
    Point(ClampPercent(x), ClampPercent(y))
  }

  /** A 400 by 300 container at the origin, pointer at its centre. */
  lemma CentreScenario()
    ensures PointerToPercent(Rect(0.0, 0.0, 400.0, 300.0), Point(200.0, 150.0)) == Point(50.0, 50.0)
  {
  }

  /** A pointer 40 pixels left of a 400-pixel container would give x = -10;
      the stored x is 0. */
  lemma LeftOfContainerScenario()
    ensures ToPercent(-40.0, 0.0, 400.0) == -10.0
    ensures PointerToPercent(Rect(0.0, 0.0, 400.0, 300.0), Point(-40.0, 150.0)).x == 0.0
  {
  }

  /** The field list one drag move emits: the list captured at mouse-down,
      with only the dragged field moved to the pointer. */
  function DragFields(snapshot: seq<FieldConfig>, id: string, rect: Rect, pointer: Point): (r: seq<FieldConfig>)
    requires rect.width > 0.0 && rect.height > 0.0
    ensures |r| == |snapshot|
    ensures forall i :: 0 <= i < |snapshot| && snapshot[i].id != id ==> r[i] == snapshot[i]
    ensures forall i :: 0 <= i < |snapshot| && snapshot[i].id == id ==>
              r[i] == snapshot[i].(x := r[i].x, y := r[i].y) && Placed(r[i]) &&
              Point(r[i].x, r[i].y) == PointerToPercent(rect, pointer)
  {
    var pos := PointerToPercent(rect, pointer);
    MapById(snapshot, id, (f: FieldConfig) => f.(x := pos.x, y := pos.y))
  }

  lemma DragKeepsTemplate(snapshot: seq<FieldConfig>, id: string, rect: Rect, pointer: Point)
    requires rect.width > 0.0 && rect.height > 0.0
    requires TemplateValid(snapshot)
    ensures TemplateValid(DragFields(snapshot, id, rect, pointer))
  {
    var pos := PointerToPercent(rect, pointer);
    MapByIdKeepsTemplate(snapshot, id, (f: FieldConfig) => f.(x := pos.x, y := pos.y));
  }

  /** The patches of a drag, one per mouse move, in order. */
  function DragStream(snapshot: seq<FieldConfig>, id: string, rect: Rect, moves: seq<Point>): (ps: seq<CarouselPatch>)
    requires rect.width > 0.0 && rect.height > 0.0
    ensures |ps| == |moves|
  {
    seq(|moves|, i requires 0 <= i < |moves| => NoChange.(fields := Some(DragFields(snapshot, id, rect, moves[i]))))
  }

  /** However the pointer wandered, a drag leaves the template as the last
      mouse move alone would. */
  lemma DragGestureOutcome(c: CarouselConfig, snapshot: seq<FieldConfig>, id: string, rect: Rect, moves: seq<Point>)
    requires rect.width > 0.0 && rect.height > 0.0
    requires |moves| > 0
    ensures ApplyPatches(c, DragStream(snapshot, id, rect, moves)) ==
            c.(fields := DragFields(snapshot, id, rect, moves[|moves| - 1]))
  {
    LastPatchWins(c, DragStream(snapshot, id, rect, moves));
  }

  // ---------------------------------------------------------------------
  // Canvas resize handles
  // ---------------------------------------------------------------------

  /** The canvas is drawn at half size. */
  const CanvasScale: real := 0.5

  /** The smallest width or height a resize produces. */
  const MinDimension: real := 100.0

  /** A pointer movement in screen pixels, as carousel pixels: doubled. */
  function DimensionDelta(pointerDelta: real): (d: real)
    ensures d * CanvasScale == pointerDelta
  {
    pointerDelta * 2.0
  }

  /** The right edge, the bottom edge, or the bottom-right corner. */
  datatype ResizeMode = Width | Height | Both

  /** The patch one resize move emits: the new width for the right edge and
      corner, the new height for the bottom edge and corner, each the start
      value plus the doubled pointer delta, never below 100. */
  function ResizePatch(mode: ResizeMode, start: Point, startWidth: real, startHeight: real, current: Point): (p: CarouselPatch)
    ensures p == NoChange.(width := p.width, height := p.height)
    ensures p.width.Some? <==> mode != Height
    ensures p.height.Some? <==> mode != Width
    ensures p.width.Some? ==> p.width.value >= MinDimension && p.width.value >= startWidth + DimensionDelta(current.x - start.x)
    ensures p.height.Some? ==> p.height.value >= MinDimension && p.height.value >= startHeight + DimensionDelta(current.y - start.y)
    ensures p.width.Some? ==> p.width.value == MinDimension || p.width.value == startWidth + DimensionDelta(current.x - start.x)
    ensures p.height.Some? ==> p.height.value == MinDimension || p.height.value == startHeight + DimensionDelta(current.y - start.y)
  {
    var width := RealMax(MinDimension, startWidth + DimensionDelta(current.x - start.x));
    var height := RealMax(MinDimension, startHeight + DimensionDelta(current.y - start.y));
    match mode
    case Width => NoChange.(width := Some(width))
    case Height => NoChange.(height := Some(height))
    case Both => NoChange.(width := Some(width), height := Some(height))
  }

  /** Above the floor, the edge follows the pointer: on the half-size canvas
      the dimension grows by exactly the pointer's movement. */
  lemma ResizeFollowsPointer(mode: ResizeMode, start: Point, startWidth: real, startHeight: real, current: Point)
    requires mode != Height
    requires startWidth + DimensionDelta(current.x - start.x) >= MinDimension
    ensures (ResizePatch(mode, start, startWidth, startHeight, current).width.value - startWidth) * CanvasScale
            == current.x - start.x
  {
  }

  /** Dragging the corner of a 640 by 400 carousel by (+50, +20) screen
      pixels makes it 740 by 440. */
  lemma CornerScenario()
    ensures ResizePatch(Both, Point(0.0, 0.0), 640.0, 400.0, Point(50.0, 20.0))
            == NoChange.(width := Some(740.0), height := Some(440.0))
  {
  }

  /** A resize keeps a valid carousel valid. */
  lemma ResizeKeepsValid(c: CarouselConfig, mode: ResizeMode, start: Point, current: Point)
    requires CarouselValid(c)
    ensures CarouselValid(MergeCarousel(c, ResizePatch(mode, start, c.width, c.height, current)))
  {
    MergeKeepsValid(c, ResizePatch(mode, start, c.width, c.height, current));
  }

  /** The patches of a resize, one per mouse move, in order. */
  function ResizeStream(mode: ResizeMode, start: Point, startWidth: real, startHeight: real, moves: seq<Point>): (ps: seq<CarouselPatch>)
    ensures |ps| == |moves|
  {
    seq(|moves|, i requires 0 <= i < |moves| => ResizePatch(mode, start, startWidth, startHeight, moves[i]))
  }

  /** Path independence: however the pointer wandered, a resize leaves the
      carousel as the last mouse move alone would. */
  lemma ResizeGestureOutcome(c: CarouselConfig, mode: ResizeMode, start: Point, moves: seq<Point>)
    requires |moves| > 0
    ensures ApplyPatches(c, ResizeStream(mode, start, c.width, c.height, moves)) ==
            MergeCarousel(c, ResizePatch(mode, start, c.width, c.height, moves[|moves| - 1]))
  {
    LastPatchWins(c, ResizeStream(mode, start, c.width, c.height, moves));
  }

  // ---------------------------------------------------------------------
  // Drag sessions: mouse-down installs the window listeners, mouse-up
  // removes them
  // ---------------------------------------------------------------------

  /** One drag of a field in the template editor. The listeners close over
      the field list and the container rectangle of mouse-down. */
  class FieldDragSession {
    const fieldId: string
    const snapshot: seq<FieldConfig>
    const rect: Rect
    /** The mouse-move and mouse-up listeners are installed. */
    var listening: bool

    /** The rectangle measured at mouse-down has an area to divide by. */
    ghost predicate Valid() {
      rect.width > 0.0 && rect.height > 0.0
    }

    /** Mouse-down on a field. */
    constructor (fieldId: string, snapshot: seq<FieldConfig>, rect: Rect)
      requires rect.width > 0.0 && rect.height > 0.0
      ensures Valid()
      ensures this.fieldId == fieldId && this.snapshot == snapshot && this.rect == rect
      ensures listening
    {
      this.fieldId := fieldId;
      this.snapshot := snapshot;
      this.rect := rect;
      listening := true;
    }

    /** A mouse move emits the moved field list while the listeners are
        installed, and nothing after mouse-up. */
    method OnMouseMove(pointer: Point) returns (emitted: Option<seq<FieldConfig>>)
      requires Valid()
      ensures emitted.Some? <==> listening
      ensures emitted.Some? ==> emitted.value == DragFields(snapshot, fieldId, rect, pointer)
    {
      if listening {
        var pos := PointerToPercent(rect, pointer);
        emitted := Some(MapById(snapshot, fieldId, (f: FieldConfig) => f.(x := pos.x, y := pos.y)));
      } else {
        emitted := None;
      }
    }

    /** Mouse-up removes both listeners. */
    method OnMouseUp()
      modifies this
      ensures !listening
    {
      listening := false;
    }
  }

  /** One drag of a resize handle. The listeners close over the handle, the
      pointer position and the carousel size of mouse-down. */
  class ResizeSession {
    const mode: ResizeMode
    const start: Point
    const startWidth: real
    const startHeight: real
    var listening: bool

    /** Mouse-down on a handle. */
    constructor (mode: ResizeMode, start: Point, carousel: CarouselConfig)
      ensures this.mode == mode && this.start == start
      ensures startWidth == carousel.width && startHeight == carousel.height
      ensures listening
    {
      this.mode := mode;
      this.start := start;
      startWidth := carousel.width;
      startHeight := carousel.height;
      listening := true;
    }

    /** A mouse move emits the size patch while the listeners are installed,
        and nothing after mouse-up. */
    method OnMouseMove(current: Point) returns (emitted: Option<CarouselPatch>)
      ensures emitted.Some? <==> listening
      ensures emitted.Some? ==> emitted.value == ResizePatch(mode, start, startWidth, startHeight, current)
    {
      if !listening {
        return None;
      }
      var deltaX := (current.x - start.x) * 2.0;
      var deltaY := (current.y - start.y) * 2.0;
      var updates := NoChange;
      if mode == Width || mode == Both {
        updates := updates.(width := Some(RealMax(MinDimension, startWidth + deltaX)));
      }
      if mode == Height || mode == Both {
        updates := updates.(height := Some(RealMax(MinDimension, startHeight + deltaY)));
      }
      emitted := Some(updates);
    }

    /** Mouse-up removes both listeners. */
    method OnMouseUp()
      modifies this
      ensures !listening
    {
      listening := false;
    }
  }
}
