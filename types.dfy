/** The records and enumerations of the carousel editor (types.ts), the
    partial records its handlers pass around, the invariants of the
    layout data, and the two sequence operations the handlers are built
    from: JavaScript's `filter` and the `map` that rewrites the fields
    whose id matches. */
module Types {

  datatype Option<T> = None | Some(value: T) {
    /** The value if present, else `default`: how `{...old, ...patch}` reads one key. */
    function GetOr(default: T): T {
      match this
      case Some(v) => v
      case None => default
    }
  }

  /** The kinds of layer a display can hold. */
  datatype ContentType =
    | IMAGE | VIDEO | TEXT | MONITOR | WEB_H5 | QUEUE_TABLE | WEATHER | PRODUCT | CAROUSEL_TABLE

  /** The business category whose items a carousel table cycles through. */
  datatype ItemType = ROOM | CINEMA | STUDY

  /** One piece of text placed in the cell template; x and y are percentages
      of the cell's box, measured to the field's centre. */
  datatype FieldConfig = FieldConfig(
    id: string,
    caption: string,   // `label` in the source; `label` is a Dafny keyword
    enabled: bool,
    fontSize: int,
    color: string,
    isBold: bool,
    order: int,
    x: real,
    y: real)

  /** The carousel table widget: grid shape, pixel size at scale 1,
      seconds per page, and the cell template. */
  datatype CarouselConfig = CarouselConfig(
    itemType: ItemType,
    rows: int,
    cols: int,
    width: real,
    height: real,
    duration: int,
    fields: seq<FieldConfig>)

  /** The whole editor state. The `productConfig` and `queueConfig` slots of
      the source are untyped and never read, so they are not modelled. */
  datatype AppState = AppState(
    activeLayers: seq<ContentType>,
    selectedType: Option<ContentType>,
    carousel: CarouselConfig,
    isEditingLayout: bool)

  /** `Partial<CarouselConfig>`: a key is either absent or carries a value. */
  datatype CarouselPatch = CarouselPatch(
    itemType: Option<ItemType>,
    rows: Option<int>,
    cols: Option<int>,
    width: Option<real>,
    height: Option<real>,
    duration: Option<int>,
    fields: Option<seq<FieldConfig>>)

  /** The empty patch `{}`. */
  const NoChange: CarouselPatch := CarouselPatch(None, None, None, None, None, None, None)

  /** `Partial<FieldConfig>`. */
  datatype FieldPatch = FieldPatch(
    id: Option<string>,
    caption: Option<string>,
    enabled: Option<bool>,
    fontSize: Option<int>,
    color: Option<string>,
    isBold: Option<bool>,
    order: Option<int>,
    x: Option<real>,
    y: Option<real>)

  // ---------------------------------------------------------------------
  // Invariants of the layout data
  // ---------------------------------------------------------------------

  predicate InPercentRange(v: real) {
    0.0 <= v <= 100.0
  }

  /** A field's anchor lies inside the cell. */
  predicate Placed(f: FieldConfig) {
    InPercentRange(f.x) && InPercentRange(f.y)
  }

  /** No two fields of a template share an id, so an edit "by id" reaches
      at most one field. */
  predicate DistinctIds(fs: seq<FieldConfig>) {
    forall i, j :: 0 <= i < j < |fs| ==> fs[i].id != fs[j].id
  }

  predicate TemplateValid(fs: seq<FieldConfig>) {
    DistinctIds(fs) && forall i :: 0 <= i < |fs| ==> Placed(fs[i])
  }

  /** What every reachable carousel satisfies: at least one row and column,
      a positive size, a duration the range input can produce, and a
      template whose fields sit inside the cell under distinct ids. */
  predicate CarouselValid(c: CarouselConfig) {
    && c.rows >= 1
    && c.cols >= 1
    && c.width > 0.0
    && c.height > 0.0
    && 3 <= c.duration <= 60
    && TemplateValid(c.fields)
  }

  /** A patch every one of whose present values would keep a carousel valid. */
  predicate PatchValid(p: CarouselPatch) {
    && (p.rows.Some? ==> p.rows.value >= 1)
    && (p.cols.Some? ==> p.cols.value >= 1)
    && (p.width.Some? ==> p.width.value > 0.0)
    && (p.height.Some? ==> p.height.value > 0.0)
    && (p.duration.Some? ==> 3 <= p.duration.value <= 60)
    && (p.fields.Some? ==> TemplateValid(p.fields.value))
  }

  predicate NoDup<T(==)>(s: seq<T>) {
    forall i, j :: 0 <= i < j < |s| ==> s[i] != s[j]
  }

  // ---------------------------------------------------------------------
  // Array.prototype.filter
  // ---------------------------------------------------------------------

  /** The elements of `s` that `keep` accepts, in their original order. */
  function Filter<T(==,!new)>(keep: T -> bool, s: seq<T>): (r: seq<T>)
    ensures |r| <= |s|
    ensures forall x :: x in r <==> x in s && keep(x)
  {
    if s == [] then []
    else (if keep(s[0]) then [s[0]] else []) + Filter(keep, s[1..])
  }

  /** Filtering a concatenation filters each part: the kept elements keep
      their relative order. */
  lemma {:induction false} FilterConcat<T(!new)>(keep: T -> bool, a: seq<T>, b: seq<T>)
    ensures Filter(keep, a + b) == Filter(keep, a) + Filter(keep, b)
  {
    if a == [] {
      assert a + b == b;
    } else {
      assert (a + b)[0] == a[0];
      assert (a + b)[1..] == a[1..] + b;
      FilterConcat(keep, a[1..], b);
    }
  }

  /** A filter that rejects nothing returns its input. */
  lemma {:induction false} FilterKeepsAll<T(!new)>(keep: T -> bool, s: seq<T>)
    requires forall x :: x in s ==> keep(x)
    ensures Filter(keep, s) == s
  {
    if s != [] {
      assert forall x :: x in s[1..] ==> x in s;
      FilterKeepsAll(keep, s[1..]);
    }
  }

  /** Filtering twice with the same test is filtering once. */
  lemma FilterIdempotent<T(!new)>(keep: T -> bool, s: seq<T>)
    ensures Filter(keep, Filter(keep, s)) == Filter(keep, s)
  {
    FilterKeepsAll(keep, Filter(keep, s));
  }

  /** A list without duplicates stays without duplicates when filtered. */
  lemma {:induction false} FilterNoDup<T(!new)>(keep: T -> bool, s: seq<T>)
    requires NoDup(s)
    ensures NoDup(Filter(keep, s))
  {
    if s != [] {
      var head := if keep(s[0]) then [s[0]] else [];
      var tail := Filter(keep, s[1..]);
      assert NoDup(s[1..]) by {
        forall i, j | 0 <= i < j < |s[1..]| ensures s[1..][i] != s[1..][j] {
          assert s[1..][i] == s[i + 1] && s[1..][j] == s[j + 1];
        }
      }
      FilterNoDup(keep, s[1..]);
      assert s[0] !in s[1..] by {
        forall k | 0 <= k < |s[1..]| ensures s[1..][k] != s[0] {
          assert s[1..][k] == s[k + 1];
        }
      }
      assert s[0] !in tail;
      var r := head + tail;
      forall i, j | 0 <= i < j < |r| ensures r[i] != r[j] {
        if i < |head| {
          assert r[i] == s[0] && r[j] == tail[j - |head|];
        } else {
          assert r[i] == tail[i - |head|] && r[j] == tail[j - |head|];
        }
      }
    }
  }

  // ---------------------------------------------------------------------
  // fields.map(f => f.id === id ? edit(f) : f)
  // ---------------------------------------------------------------------

  /** Rewrites, by `edit`, exactly the fields whose id is `id`; every other
      field, the length and the order stay as they were. */
  function MapById(fs: seq<FieldConfig>, id: string, edit: FieldConfig -> FieldConfig): (r: seq<FieldConfig>)
    ensures |r| == |fs|
    ensures forall i :: 0 <= i < |fs| ==> r[i] == if fs[i].id == id then edit(fs[i]) else fs[i]
  {
    if fs == [] then []
    else [if fs[0].id == id then edit(fs[0]) else fs[0]] + MapById(fs[1..], id, edit)
  }

  /** An edit that keeps ids and keeps fields inside the cell keeps a
      template valid. */
  lemma MapByIdKeepsTemplate(fs: seq<FieldConfig>, id: string, edit: FieldConfig -> FieldConfig)
    requires TemplateValid(fs)
    requires forall f :: edit(f).id == f.id
    requires forall f :: Placed(f) ==> Placed(edit(f))
    ensures TemplateValid(MapById(fs, id, edit))
  {
    var r := MapById(fs, id, edit);
    forall i, j | 0 <= i < j < |r| ensures r[i].id != r[j].id {
      assert r[i].id == fs[i].id && r[j].id == fs[j].id;
    }
  }
}
