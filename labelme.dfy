/**
 * The Labelme document model of pyxllib/data/labelme.py: shapes and documents as values,
 * shape construction (LabelmeDict.gen_shape, gen_shape2, ToLabelmeJson.get_shape), the
 * schema test is_labelme_json_data, and the pure (copying, `inplace=False`) forms of the
 * document edits reduce, flip_points and update_labelattr. The in-place forms are the
 * methods of class LabelmeDocs.LabelmeDoc.
 */
module Labelme {
  import opened Wrappers
  import opened PyValues
  import opened PyRepr

  datatype Point = Point(x: int, y: int)

  /** A shape's `label`: free text, or the attribute map that normalisation turns it into. */
  datatype Label = Raw(text: string) | Attrs(attrs: Record)

  /**
   * One element of a document's `shapes` list. The five standard keys are fields;
   * `extra` holds every other key of the shape's dict.
   */
  datatype Shape = Shape(
    labelValue: Label,
    points: seq<Point>,
    groupId: Json,
    shapeType: Json,
    flags: Json,
    extra: Record)

  const StdShapeKeys: set<string> := {"label", "points", "group_id", "shape_type", "flags"}

  /** A shape's dict never holds a standard key twice, so `extra` avoids them. */
  predicate WellFormed(s: Shape) {
    s.extra.Keys !! StdShapeKeys
  }

  /** One Labelme JSON document. */
  datatype Document = Document(
    version: string,
    flags: Json,
    shapes: seq<Shape>,
    imagePath: string,
    imageData: Json,
    imageWidth: int,
    imageHeight: int)

  const LabelmeKeys: set<string> :=
    {"version", "flags", "shapes", "imagePath", "imageData", "imageHeight", "imageWidth"}

  // ---------------------------------------------------------------------------------------
  // The dict view of shapes and documents

  function PointsJson(ps: seq<Point>): Json {
    JArr(seq(|ps|, k requires 0 <= k < |ps| => JArr([JInt(ps[k].x), JInt(ps[k].y)])))
  }

  /** A label as stored in the dict: text, or the attribute map that `json.dumps` encodes. */
  function LabelJson(l: Label): Json {
    match l
    case Raw(t) => JStr(t)
    case Attrs(m) => JObj(m)
  }

  function ShapeJson(s: Shape): Json {
    JObj(s.extra + map[
      "label" := LabelJson(s.labelValue),
      "points" := PointsJson(s.points),
      "group_id" := s.groupId,
      "shape_type" := s.shapeType,
      "flags" := s.flags])
  }

  function DocJson(d: Document): Record {
    map[
      "version" := JStr(d.version),
      "flags" := d.flags,
      "shapes" := JArr(seq(|d.shapes|, k requires 0 <= k < |d.shapes| => ShapeJson(d.shapes[k]))),
      "imagePath" := JStr(d.imagePath),
      "imageData" := d.imageData,
      "imageWidth" := JInt(d.imageWidth),
      "imageHeight" := JInt(d.imageHeight)]
  }

  /** is_labelme_json_data: the dict has all seven top-level Labelme keys. */
  function IsLabelmeJsonData(data: Record): (r: bool)
    ensures r <==> forall k :: k in LabelmeKeys ==> k in data
  {
    LabelmeKeys <= data.Keys
  }

  lemma DocumentsAreLabelmeData(d: Document)
    ensures IsLabelmeJsonData(DocJson(d))
    ensures forall k :: k in LabelmeKeys ==> !IsLabelmeJsonData(DocJson(d) - {k})
  {
  }

  /** The skeleton document of ToLabelmeJson.get_data_base, for an image of the given name and size. */
  function DataBase(name: string, height: int, width: int): (d: Document)
    ensures d.shapes == [] && d.imageData == JNull && d.flags == JObj(map[])
    ensures d.imagePath == name && d.imageHeight == height && d.imageWidth == width
  {
    Document("4.5.6", JObj(map[]), [], name, JNull, width, height)
  }

  // ---------------------------------------------------------------------------------------
  // Shape construction

  /** numpy's `reshape(-1, 2)` of a flat coordinate list: consecutive pairs. */
  function Pairs(coords: seq<int>): (ps: seq<Point>)
    requires |coords| % 2 == 0
    ensures |ps| * 2 == |coords|
    ensures forall k :: 0 <= k < |ps| ==> ps[k] == Point(coords[2 * k], coords[2 * k + 1])
  {
    if coords == [] then [] else [Point(coords[0], coords[1])] + Pairs(coords[2..])
  }

  /** The keyword names gen_shape binds itself, which therefore never reach its `**kwargs`. */
  const NamedShapeArgs: set<string> := {"label", "points", "shape_type", "dtype", "group_id"}

  /**
   * LabelmeDict.gen_shape (and the identical ToLabelmeJson.get_shape). `coords` are the
   * points flattened in row order; `shapeType` and `groupId` are JNull when not given.
   */
  function GenShape(text: string, coords: seq<int>, shapeType: Json, groupId: Json, kwargs: Record)
    : (r: Result<Shape, Error>)
    requires kwargs.Keys !! NamedShapeArgs
    ensures r.Ok? <==> |coords| % 2 == 0 && (shapeType != JNull || |coords| > 0)
    ensures r.Err? ==> r.error.ValueError?
    ensures r.Ok? ==>
      && r.value.labelValue == Raw(text)
      && |r.value.points| * 2 == |coords|
      && (forall k :: 0 <= k < |r.value.points| ==>
            r.value.points[k] == Point(coords[2 * k], coords[2 * k + 1]))
      && r.value.groupId == groupId
      && r.value.flags == (if "flags" in kwargs then kwargs["flags"] else JObj(map[]))
      && r.value.extra == kwargs - {"flags"}
      && WellFormed(r.value)
    ensures r.Ok? && shapeType != JNull ==> r.value.shapeType == shapeType
    ensures r.Ok? && shapeType == JNull ==>
      r.value.shapeType ==
        if |r.value.points| == 1 then JStr("point")
        else if |r.value.points| == 2 then JStr("rectangle")
        else JStr("polygon")
  {
    if |coords| % 2 != 0 then Err(ValueError("cannot reshape points into pairs"))
    else
      var points := Pairs(coords);
      var m := |points|;
      if shapeType == JNull && m == 0 then Err(ValueError("no points"))
      else
        var st :=
          if shapeType != JNull then shapeType
          else if m == 1 then JStr("point")
          else if m == 2 then JStr("rectangle")
          else JStr("polygon");
        var shape := Shape(Raw(text), points, groupId, st, JObj(map[]), map[]);
        // shape.update(kwargs): a `flags` keyword replaces the default, the rest are new keys
        Ok(shape.(
          flags := if "flags" in kwargs then kwargs["flags"] else shape.flags,
          extra := kwargs - {"flags"}))
  }

  lemma GenShapeTypeByCount(text: string, coords: seq<int>)
    requires |coords| % 2 == 0
    ensures |coords| == 0 ==> GenShape(text, coords, JNull, JNull, map[]) == Err(ValueError("no points"))
    ensures |coords| == 2 ==> GenShape(text, coords, JNull, JNull, map[]).value.shapeType == JStr("point")
    ensures |coords| == 4 ==> GenShape(text, coords, JNull, JNull, map[]).value.shapeType == JStr("rectangle")
    ensures |coords| >= 6 ==> GenShape(text, coords, JNull, JNull, map[]).value.shapeType == JStr("polygon")
  {
  }

  function AllInts(items: seq<Json>): (r: Option<seq<int>>)
    ensures r.Some? ==> |r.value| == |items| && forall k :: 0 <= k < |items| ==> items[k] == JInt(r.value[k])
  {
    if items == [] then Some([])
    else match (items[0], AllInts(items[1..]))
      case (JInt(i), Some(rest)) => Some([i] + rest)
      case _ => None
  }

  function AllIntPairs(items: seq<Json>): (r: Option<seq<int>>)
    ensures r.Some? ==> |r.value| == 2 * |items|
    ensures r.Some? ==> forall k :: 0 <= k < |items| ==>
      items[k] == JArr([JInt(r.value[2 * k]), JInt(r.value[2 * k + 1])])
  {
    if items == [] then Some([])
    else
      var first := items[0];
      match AllIntPairs(items[1..])
      case Some(rest) =>
        if first.JArr? && |first.items| == 2 && first.items[0].JInt? && first.items[1].JInt? then
          Some([first.items[0].i, first.items[1].i] + rest)
        else None
      case None => None
  }

  /** A numpy array of ints: its shape, and its elements in row-major order. */
  datatype NdArray = NdArray(shape: seq<nat>, elems: seq<int>)

  /** The number of elements an array of this shape holds. */
  function Product(dims: seq<nat>): nat {
    if dims == [] then 1 else dims[0] * Product(dims[1..])
  }

  /**
   * `np.array(points)` on a nested list of ints. An int is a 0-d array; a list stacks its items
   * along a new first axis, which needs every item to have the same shape. A ragged nesting, or
   * a leaf that is not an int, gives None.
   */
  function ToArray(j: Json): (r: Option<NdArray>)
    decreases j, 1
  {
    match j
    case JInt(i) => Some(NdArray([], [i]))
    case JArr(items) => Stack(RowsOf(items))
    case _ => None
  }

  function RowsOf(items: seq<Json>): (rows: seq<Option<NdArray>>)
    ensures |rows| == |items| && forall k :: 0 <= k < |items| ==> rows[k] == ToArray(items[k])
    decreases JArr(items), 0
  {
    seq(|items|, k requires 0 <= k < |items| => ToArray(items[k]))
  }

  /** Rows numpy can stack: each one an array, all of one shape. */
  predicate Regular(rows: seq<Option<NdArray>>) {
    && (forall k :: 0 <= k < |rows| ==> rows[k].Some?)
    && (forall k :: 0 <= k < |rows| ==> rows[k].value.shape == rows[0].value.shape)
  }

  /** The elements of the rows, one row after the other. */
  function Elems(rows: seq<Option<NdArray>>): seq<int>
    requires forall k :: 0 <= k < |rows| ==> rows[k].Some?
  {
    if rows == [] then [] else rows[0].value.elems + Elems(rows[1..])
  }

  /** Stacking rows: the new axis has one entry per row; an empty list is a 1-d array of size 0. */
  function Stack(rows: seq<Option<NdArray>>): (r: Option<NdArray>)
    ensures r.Some? <==> Regular(rows)
    ensures r.Some? ==> r.value.shape == [|rows|] + (if rows == [] then [] else rows[0].value.shape)
  {
    if !Regular(rows) then None
    else if rows == [] then Some(NdArray([0], []))
    else Some(NdArray([|rows|] + rows[0].value.shape, Elems(rows)))
  }

  /** Rows of one shape hold that shape's size each. */
  lemma {:induction false} ElemsSize(rows: seq<Option<NdArray>>, shape: seq<nat>)
    requires forall k :: 0 <= k < |rows| ==> rows[k].Some? && rows[k].value.shape == shape
    requires forall k :: 0 <= k < |rows| ==> |rows[k].value.elems| == Product(shape)
    ensures |Elems(rows)| == |rows| * Product(shape)
  {
    if rows != [] {
      ElemsSize(rows[1..], shape);
    }
  }

  /** An array holds as many elements as its shape says. */
  lemma {:induction false} ToArraySize(j: Json)
    requires ToArray(j).Some?
    ensures |ToArray(j).value.elems| == Product(ToArray(j).value.shape)
  {
    match j
    case JInt(_) =>
    case JArr(items) =>
      var rows := RowsOf(items);
      if items != [] {
        var shape := rows[0].value.shape;
        forall k | 0 <= k < |rows| ensures |rows[k].value.elems| == Product(shape) {
          ToArraySize(items[k]);
        }
        ElemsSize(rows, shape);
      }
  }

  /**
   * `np.array(points).reshape(-1, 2).tolist()`, flattened again: the elements of the array in
   * row-major order. The reshape itself, which fails on an odd count, is left to GenShape.
   */
  function CoordsOf(j: Json): Result<seq<int>, Error> {
    match ToArray(j)
    case Some(a) => Ok(a.elems)
    case None => Err(ValueError("points are not a regular nesting of integers"))
  }

  /** A flat list of ints is taken as it is. */
  lemma {:induction false} CoordsOfFlat(items: seq<Json>)
    requires AllInts(items).Some?
    ensures CoordsOf(JArr(items)) == Ok(AllInts(items).value)
    decreases |items|
  {
    var rows := RowsOf(items);
    assert Regular(rows) by {
      forall k | 0 <= k < |rows| ensures rows[k] == Some(NdArray([], [AllInts(items).value[k]])) {
        assert items[k] == JInt(AllInts(items).value[k]);
      }
    }
    if items != [] {
      var c := AllInts(items).value;
      CoordsOfFlat(items[1..]);
      assert RowsOf(items[1..]) == rows[1..];
      assert Elems(rows[1..]) == AllInts(items[1..]).value;
      assert c == [c[0]] + AllInts(items[1..]).value;
      assert rows[0].value.elems == [c[0]];
    }
  }

  /** A list whose items are all ints is accepted. */
  lemma {:induction false} AllIntsOfInts(items: seq<Json>)
    requires forall k :: 0 <= k < |items| ==> items[k].JInt?
    ensures AllInts(items).Some?
  {
    if items != [] {
      AllIntsOfInts(items[1..]);
    }
  }

  /** A list of [x, y] pairs gives the pairs' coordinates in order. */
  lemma {:induction false} CoordsOfPairs(items: seq<Json>)
    requires AllIntPairs(items).Some?
    ensures CoordsOf(JArr(items)) == Ok(AllIntPairs(items).value)
    decreases |items|
  {
    var rows := RowsOf(items);
    var c := AllIntPairs(items).value;
    forall k | 0 <= k < |rows| ensures rows[k] == Some(NdArray([2], [c[2 * k], c[2 * k + 1]])) {
      PairArray(c[2 * k], c[2 * k + 1]);
    }
    if items != [] {
      CoordsOfPairs(items[1..]);
      assert RowsOf(items[1..]) == rows[1..];
      assert Elems(rows[1..]) == AllIntPairs(items[1..]).value;
      assert c == [c[0], c[1]] + AllIntPairs(items[1..]).value;
    }
  }

  lemma PairArray(x: int, y: int)
    ensures ToArray(JArr([JInt(x), JInt(y)])) == Some(NdArray([2], [x, y]))
  {
    var rows := RowsOf([JInt(x), JInt(y)]);
    assert rows == [Some(NdArray([], [x])), Some(NdArray([], [y]))];
    assert Regular(rows);
    assert ToArray(JArr([JInt(x), JInt(y)])) == Stack(rows);
    assert rows[1..][1..] == [];
    assert Elems(rows[1..]) == [y] + Elems(rows[1..][1..]) == [y];
    assert Elems(rows) == [x] + Elems(rows[1..]) == [x, y];
    assert [|rows|] + rows[0].value.shape == [2];
  }

  /** A ragged nesting, [[1, 2], [3]], is refused as numpy refuses it. */
  lemma CoordsOfRaggedExample()
    ensures CoordsOf(JArr([JArr([JInt(1), JInt(2)]), JArr([JInt(3)])])).Err?
  {
    PairArray(1, 2);
    var rows := RowsOf([JArr([JInt(1), JInt(2)]), JArr([JInt(3)])]);
    assert rows[1] == ToArray(JArr([JInt(3)]));
    assert RowsOf([JInt(3)]) == [Some(NdArray([], [3]))];
    assert rows[1].value.shape == [1];
  }

  /** Python's `str` of a label: a string is its own text, any other value is written as `repr` writes it. */
  function LabelText(j: Json): (r: string)
    ensures j.JStr? ==> r == j.s
    ensures j.JInt? ==> ParseInt(r) == Some(j.i)
    ensures !j.JStr? ==> r == Repr(j)
  {
    match j
    case JStr(s) => s
    case JInt(i) => ParseIntDecimal(i); Repr(j)
    case _ => Repr(j)
  }

  function Get(m: Record, k: string): Json {
    if k in m then m[k] else JNull
  }

  /**
   * LabelmeDict.gen_shape2 (and ToLabelmeJson.get_shape2) as written: gen_shape driven by one
   * keyword dict. The `label` default of `''` is never used, because the copied dict's `label`
   * key is deleted unconditionally, which raises KeyError when it is absent.
   */
  function GenShape2(kw: Record): (r: Result<Shape, Error>)
    ensures "points" !in kw ==> r == Err(KeyError("points"))
    ensures "points" in kw && "label" !in kw ==> r == Err(KeyError("label"))
    ensures r.Ok? ==> "label" in kw && r == GenShape2Defaulted(kw)
  {
    if "points" !in kw then Err(KeyError("points"))
    else if "label" !in kw then Err(KeyError("label"))
    else GenShape2Defaulted(kw)
  }

  /** gen_shape2 as its `label` default intends: a missing label becomes the empty text. */
  function GenShape2Defaulted(kw: Record): (r: Result<Shape, Error>)
    ensures "points" !in kw ==> r == Err(KeyError("points"))
    ensures r.Ok? ==>
      && "points" in kw
      && r.value.labelValue.Raw?
      && ("label" in kw ==> r.value.labelValue.text == LabelText(kw["label"]))
      && ("label" !in kw ==> r.value.labelValue.text == "")
      && r.value.groupId == Get(kw, "group_id")
      && r.value.flags == (if "flags" in kw then kw["flags"] else JObj(map[]))
      && r.value.extra == kw - NamedShapeArgs - {"flags"}
      && WellFormed(r.value)
    ensures r.Ok? && Get(kw, "shape_type") != JNull ==> r.value.shapeType == kw["shape_type"]
    ensures "points" in kw && ToArray(kw["points"]).None? ==> r.Err? && r.error.ValueError?
    ensures r.Ok? ==>
      && ToArray(kw["points"]).Some?
      && var c := ToArray(kw["points"]).value.elems;
      && |r.value.points| * 2 == |c|
      && forall k :: 0 <= k < |r.value.points| ==> r.value.points[k] == Point(c[2 * k], c[2 * k + 1])
  {
    if "points" !in kw then Err(KeyError("points"))
    else
      var coords :- CoordsOf(kw["points"]);
      var text := LabelText(if "label" in kw then kw["label"] else JStr(""));
      var kw' := kw - {"label", "points"};
      GenShape(text, coords, Get(kw', "shape_type"), Get(kw', "group_id"), kw' - {"shape_type", "dtype", "group_id"})
  }

  /** A single point without a label: rejected as written, a one-point shape labelled '' as intended. */
  lemma GenShape2MissingLabel()
    ensures GenShape2(map["points" := JArr([JInt(3), JInt(4)])]) == Err(KeyError("label"))
    ensures GenShape2Defaulted(map["points" := JArr([JInt(3), JInt(4)])]).Ok?
    ensures GenShape2Defaulted(map["points" := JArr([JInt(3), JInt(4)])]).value.labelValue == Raw("")
  {
    var kw := map["points" := JArr([JInt(3), JInt(4)])];
    assert [JInt(3), JInt(4)][1..] == [JInt(4)] && [JInt(4)][1..] == [];
    assert AllInts([]) == Some([]);
    assert [4] + [] == [4] && [3] + [4] == [3, 4];
    assert AllInts([JInt(4)]) == Some([4]);
    assert AllInts([JInt(3), JInt(4)]) == Some([3, 4]);
    CoordsOfFlat([JInt(3), JInt(4)]);
    assert kw - {"label", "points"} == map[];
  }

  /** A list label is not refused: `str([1])` makes the label text `[1]`. */
  lemma GenShape2ListLabel()
    ensures GenShape2(map["label" := JArr([JInt(1)]), "points" := JArr([JInt(3), JInt(4)])]).Ok?
    ensures GenShape2(map["label" := JArr([JInt(1)]), "points" := JArr([JInt(3), JInt(4)])]).value.labelValue == Raw("[1]")
  {
    var kw := map["label" := JArr([JInt(1)]), "points" := JArr([JInt(3), JInt(4)])];
    assert [JInt(3), JInt(4)][1..] == [JInt(4)] && [JInt(4)][1..] == [];
    assert AllInts([]) == Some([]);
    assert [4] + [] == [4] && [3] + [4] == [3, 4];
    assert AllInts([JInt(4)]) == Some([4]);
    assert AllInts([JInt(3), JInt(4)]) == Some([3, 4]);
    CoordsOfFlat([JInt(3), JInt(4)]);
    assert kw - {"label", "points"} == map[];
    ReprListExample();
  }

  /** A single row of four ints, [[x0, y0, x1, y1]], is reshaped into two points: a rectangle. */
  lemma GenShape2RowExample(x0: int, y0: int, x1: int, y1: int)
    ensures var r := GenShape2(map["label" := JStr("a"), "points" := JArr([JArr([JInt(x0), JInt(y0), JInt(x1), JInt(y1)])])]);
      r.Ok? && r.value.shapeType == JStr("rectangle") && r.value.points == [Point(x0, y0), Point(x1, y1)]
  {
    var row := [JInt(x0), JInt(y0), JInt(x1), JInt(y1)];
    AllIntsOfInts(row);
    assert AllInts(row).value == [x0, y0, x1, y1];
    CoordsOfFlat(row);
    StackSingle(JArr(row));
    GenShape2Rectangle("a", JArr([JArr(row)]), x0, y0, x1, y1);
  }

  /** A label and points that flatten to four coordinates give a rectangle of two points. */
  lemma GenShape2Rectangle(text: string, points: Json, x0: int, y0: int, x1: int, y1: int)
    requires CoordsOf(points) == Ok([x0, y0, x1, y1])
    ensures var r := GenShape2(map["label" := JStr(text), "points" := points]);
      r.Ok? && r.value.shapeType == JStr("rectangle") && r.value.points == [Point(x0, y0), Point(x1, y1)]
  {
    var kw := map["label" := JStr(text), "points" := points];
    assert kw - {"label", "points"} == map[];
    var r := GenShape2(kw);
    assert r.Ok?;
    assert |r.value.points| == 2 && r.value.points[0] == Point(x0, y0) && r.value.points[1] == Point(x1, y1);
  }

  /** An OpenCV contour, points of shape (n, 1, 2), gives its n points in order. */
  lemma CoordsOfContourExample(x0: int, y0: int, x1: int, y1: int, x2: int, y2: int)
    ensures CoordsOf(JArr([JArr([JArr([JInt(x0), JInt(y0)])]), JArr([JArr([JInt(x1), JInt(y1)])]), JArr([JArr([JInt(x2), JInt(y2)])])]))
      == Ok([x0, y0, x1, y1, x2, y2])
  {
    PairArray(x0, y0);
    PairArray(x1, y1);
    PairArray(x2, y2);
    StackSingle(JArr([JInt(x0), JInt(y0)]));
    StackSingle(JArr([JInt(x1), JInt(y1)]));
    StackSingle(JArr([JInt(x2), JInt(y2)]));
    var contour := [JArr([JArr([JInt(x0), JInt(y0)])]), JArr([JArr([JInt(x1), JInt(y1)])]), JArr([JArr([JInt(x2), JInt(y2)])])];
    StackTriple(contour[0], contour[1], contour[2]);
    assert [contour[0], contour[1], contour[2]] == contour;
    assert ToArray(JArr(contour)).value.elems == [x0, y0] + [x1, y1] + [x2, y2] == [x0, y0, x1, y1, x2, y2];
  }

  /** Wrapping an array in one more dimension of length 1 keeps its elements. */
  lemma StackSingle(j: Json)
    requires ToArray(j).Some?
    ensures ToArray(JArr([j])) == Some(NdArray([1] + ToArray(j).value.shape, ToArray(j).value.elems))
  {
    var rows := RowsOf([j]);
    assert rows == [ToArray(j)];
    assert Regular(rows);
    assert ToArray(JArr([j])) == Stack(rows);
    assert rows[1..] == [];
    assert Elems(rows) == ToArray(j).value.elems + Elems(rows[1..]) == ToArray(j).value.elems;
  }

  /** Three arrays of one shape stack into one whose elements are theirs in order. */
  lemma StackTriple(j0: Json, j1: Json, j2: Json)
    requires ToArray(j0).Some? && ToArray(j1).Some? && ToArray(j2).Some?
    requires ToArray(j1).value.shape == ToArray(j0).value.shape == ToArray(j2).value.shape
    ensures ToArray(JArr([j0, j1, j2])).Some?
    ensures ToArray(JArr([j0, j1, j2])).value.elems
      == ToArray(j0).value.elems + ToArray(j1).value.elems + ToArray(j2).value.elems
  {
    var rows := RowsOf([j0, j1, j2]);
    assert rows == [ToArray(j0), ToArray(j1), ToArray(j2)];
    assert Regular(rows);
    assert ToArray(JArr([j0, j1, j2])) == Stack(rows);
    assert rows[1..] == [ToArray(j1), ToArray(j2)] && rows[1..][1..] == [ToArray(j2)] && rows[1..][1..][1..] == [];
    assert Elems(rows[1..][1..]) == ToArray(j2).value.elems + Elems(rows[1..][1..][1..]);
    assert Elems(rows[1..]) == ToArray(j1).value.elems + Elems(rows[1..][1..]);
    assert Elems(rows) == ToArray(j0).value.elems + Elems(rows[1..]);
  }

  // ---------------------------------------------------------------------------------------
  // LabelmeDict.reduce

  function Reduced(d: Document): (r: Document)
    ensures DocJson(r) == DocJson(d)["imageData" := JNull]
  {
    d.(imageData := JNull)
  }

  lemma ReducedIdempotent(d: Document)
    ensures Reduced(Reduced(d)) == Reduced(d)
    ensures Reduced(d).shapes == d.shapes
  {
  }

  // ---------------------------------------------------------------------------------------
  // LabelmeDict.flip_points

  /**
   * The geometric part of flip_points, which this model leaves abstract: given the original
   * width, height, direction mod 4 and a shape's points, the new points of a rectangle
   * (two diagonal corners after warping and re-sorting) and of a four-point polygon.
   */
  datatype Warp = Warp(
    rect: (int, int, int, seq<Point>) -> seq<Point>,
    quad: (int, int, int, seq<Point>) -> seq<Point>)

  /** The shapes flip_points gives new points: rectangles and four-point polygons. */
  predicate Reshaped(s: Shape) {
    s.shapeType == JStr("rectangle") || (s.shapeType == JStr("polygon") && |s.points| == 4)
  }

  function FlipShape(s: Shape, w: int, h: int, dir4: int, warp: Warp): Shape {
    if s.shapeType == JStr("rectangle") then s.(points := warp.rect(w, h, dir4, s.points))
    else if s.shapeType == JStr("polygon") && |s.points| == 4 then s.(points := warp.quad(w, h, dir4, s.points))
    else s
  }

  function Flipped(d: Document, direction: int, warp: Warp): (r: Document)
    ensures direction % 2 == 1 ==> r.imageWidth == d.imageHeight && r.imageHeight == d.imageWidth
    ensures direction % 2 == 0 ==> r.imageWidth == d.imageWidth && r.imageHeight == d.imageHeight
    ensures r.version == d.version && r.flags == d.flags && r.imagePath == d.imagePath
    ensures r.imageData == d.imageData
    ensures |r.shapes| == |d.shapes|
    ensures forall k :: 0 <= k < |d.shapes| ==> r.shapes[k] == d.shapes[k].(points := r.shapes[k].points)
    ensures forall k :: 0 <= k < |d.shapes| && !Reshaped(d.shapes[k]) ==> r.shapes[k] == d.shapes[k]
    ensures forall k :: 0 <= k < |d.shapes| && d.shapes[k].shapeType == JStr("rectangle") ==>
      r.shapes[k].points == warp.rect(d.imageWidth, d.imageHeight, direction % 4, d.shapes[k].points)
    ensures forall k :: 0 <= k < |d.shapes| && Reshaped(d.shapes[k]) && d.shapes[k].shapeType != JStr("rectangle") ==>
      r.shapes[k].points == warp.quad(d.imageWidth, d.imageHeight, direction % 4, d.shapes[k].points)
  {
    var w, h := d.imageWidth, d.imageHeight;
    var dir4 := direction % 4;
    // `direction % 2` in the source; an odd direction is one whose residue mod 4 is 1 or 3
    var (w', h') := if dir4 == 1 || dir4 == 3 then (h, w) else (w, h);
    d.(imageWidth := w', imageHeight := h',
       shapes := seq(|d.shapes|, k requires 0 <= k < |d.shapes| => FlipShape(d.shapes[k], w, h, dir4, warp)))
  }

  /** Only the direction mod 4 matters, so -1 (counter-clockwise) is the same as 3. */
  lemma FlipDependsOnDirectionMod4(d: Document, a: int, b: int, warp: Warp)
    requires a % 4 == b % 4
    ensures Flipped(d, a, warp) == Flipped(d, b, warp)
  {
  }

  lemma FlipTwiceOddRestoresCanvas(d: Document, a: int, b: int, warp: Warp)
    requires a % 2 == 1 && b % 2 == 1
    ensures Flipped(Flipped(d, a, warp), b, warp).imageWidth == d.imageWidth
    ensures Flipped(Flipped(d, a, warp), b, warp).imageHeight == d.imageHeight
  {
  }

  // ---------------------------------------------------------------------------------------
  // LabelmeDict.update_labelattr

  /** DictTool.json_loads(label, 'label'): an attribute map, or `{'label': text}` for plain text. */
  function LabelAttrs(l: Label): Record {
    match l
    case Raw(t) => map["label" := JStr(t)]
    case Attrs(m) => m
  }

  /** The label's attributes after every non-standard shape key has been moved into them. */
  function Hoisted(s: Shape): Record {
    LabelAttrs(s.labelValue) + s.extra
  }

  /** Step 3 of update_labelattr: refresh `bbox` if the attributes have one, otherwise add `points`. */
  function WithGeometry(attrs: Record, pts: seq<Point>, points: bool, bbox: seq<Point> -> Json): Record {
    if !points then attrs
    else if "bbox" in attrs then attrs["bbox" := bbox(pts)]
    else attrs["points" := PointsJson(pts)]
  }

  function NormalizeShape(s: Shape, points: bool, bbox: seq<Point> -> Json): (r: Shape)
    // the shape is left with its standard keys only
    ensures r.extra == map[] && r.labelValue.Attrs?
    ensures r.points == s.points && r.groupId == s.groupId && r.shapeType == s.shapeType && r.flags == s.flags
    // every hoisted key keeps its value, overriding a label attribute of the same name
    ensures forall k :: k in s.extra && !(points && (k == "bbox" || k == "points")) ==>
      k in r.labelValue.attrs && r.labelValue.attrs[k] == s.extra[k]
    // label attributes no extra key overrides are kept
    ensures forall k :: k in LabelAttrs(s.labelValue) && k !in s.extra && !(points && (k == "bbox" || k == "points")) ==>
      k in r.labelValue.attrs && r.labelValue.attrs[k] == LabelAttrs(s.labelValue)[k]
    // no other attribute appears, except the geometry
    ensures forall k :: k in r.labelValue.attrs ==> k in LabelAttrs(s.labelValue) || k in s.extra || (points && k == "points")
    ensures !points ==> r.labelValue.attrs == LabelAttrs(s.labelValue) + s.extra
    ensures points && "bbox" in Hoisted(s) ==>
      r.labelValue.attrs == Hoisted(s)["bbox" := bbox(s.points)]
    ensures points && "bbox" !in Hoisted(s) ==>
      r.labelValue.attrs == Hoisted(s)["points" := PointsJson(s.points)]
  {
    s.(labelValue := Attrs(WithGeometry(Hoisted(s), s.points, points, bbox)), extra := map[])
  }

  /** A second update_labelattr changes nothing: nothing is left to hoist and the geometry is recomputed to the same value. */
  lemma NormalizeShapeIdempotent(s: Shape, points: bool, bbox: seq<Point> -> Json)
    ensures NormalizeShape(NormalizeShape(s, points, bbox), points, bbox) == NormalizeShape(s, points, bbox)
  {
    var r := NormalizeShape(s, points, bbox);
    assert Hoisted(r) == r.labelValue.attrs;
  }

  function NormalizeDoc(d: Document, points: bool, bbox: seq<Point> -> Json): (r: Document)
    ensures r == d.(shapes := r.shapes)
    ensures |r.shapes| == |d.shapes|
    ensures forall k :: 0 <= k < |d.shapes| ==> r.shapes[k] == NormalizeShape(d.shapes[k], points, bbox)
  {
    d.(shapes := seq(|d.shapes|, k requires 0 <= k < |d.shapes| => NormalizeShape(d.shapes[k], points, bbox)))
  }

  /** After update_labelattr every shape's dict has only the standard keys. */
  lemma NormalizedShapesHaveStdKeysOnly(d: Document, points: bool, bbox: seq<Point> -> Json)
    ensures forall k :: 0 <= k < |NormalizeDoc(d, points, bbox).shapes| ==>
      ShapeJson(NormalizeDoc(d, points, bbox).shapes[k]).fields.Keys == StdShapeKeys
  {
  }

  lemma NormalizeDocIdempotent(d: Document, points: bool, bbox: seq<Point> -> Json)
    ensures NormalizeDoc(NormalizeDoc(d, points, bbox), points, bbox) == NormalizeDoc(d, points, bbox)
  {
    var once := NormalizeDoc(d, points, bbox);
    var twice := NormalizeDoc(once, points, bbox);
    forall k | 0 <= k < |d.shapes|
      ensures twice.shapes[k] == once.shapes[k]
    {
      NormalizeShapeIdempotent(d.shapes[k], points, bbox);
    }
  }

  // ---------------------------------------------------------------------------------------
  // Quad2Labelme.get_data: one `x1,y1,...,x4,y4,text` line per shape

  /** `s.count(c)` */
  function CountChar(s: string, c: char): nat {
    if s == [] then 0 else (if s[0] == c then 1 else 0) + CountChar(s[1..], c)
  }

  /** `sep.join(parts)` */
  function Join(parts: seq<string>, sep: char): string
    requires |parts| > 0
  {
    if |parts| == 1 then parts[0] else parts[0] + [sep] + Join(parts[1..], sep)
  }

  /**
   * Python's `s.split(sep, maxsplit)`: at most `maxsplit` cuts, at the leftmost separators;
   * the last part keeps any separators left over. Read one character at a time.
   */
  function SplitMax(s: string, sep: char, maxsplit: nat): (parts: seq<string>)
    ensures 1 <= |parts| <= maxsplit + 1
  {
    if maxsplit == 0 || s == [] then [s]
    else if s[0] == sep then [[]] + SplitMax(s[1..], sep, maxsplit - 1)
    else
      var rest := SplitMax(s[1..], sep, maxsplit);
      [[s[0]] + rest[0]] + rest[1..]
  }

  /** `s.split(sep, maxsplit)` makes a cut at every separator, up to `maxsplit` of them. */
  lemma {:induction false} SplitMaxCount(s: string, sep: char, maxsplit: nat)
    ensures |SplitMax(s, sep, maxsplit)| == (if CountChar(s, sep) < maxsplit then CountChar(s, sep) else maxsplit) + 1
  {
    if maxsplit > 0 && s != [] {
      if s[0] == sep {
        SplitMaxCount(s[1..], sep, maxsplit - 1);
      } else {
        SplitMaxCount(s[1..], sep, maxsplit);
      }
    }
  }

  predicate SepFree(part: string, sep: char) {
    forall m :: 0 <= m < |part| ==> part[m] != sep
  }

  /** Every part but the last is free of the separator. */
  lemma {:induction false} SplitMaxSeparatorFree(s: string, sep: char, maxsplit: nat)
    ensures forall k :: 0 <= k < |SplitMax(s, sep, maxsplit)| - 1 ==> SepFree(SplitMax(s, sep, maxsplit)[k], sep)
  {
    if maxsplit > 0 && s != [] {
      var parts := SplitMax(s, sep, maxsplit);
      if s[0] == sep {
        var rest := SplitMax(s[1..], sep, maxsplit - 1);
        SplitMaxSeparatorFree(s[1..], sep, maxsplit - 1);
        assert forall k :: 1 <= k < |parts| ==> parts[k] == rest[k - 1];
      } else {
        var rest := SplitMax(s[1..], sep, maxsplit);
        SplitMaxSeparatorFree(s[1..], sep, maxsplit);
        assert forall k :: 1 <= k < |parts| ==> parts[k] == rest[k];
        if |parts| > 1 {
          assert SepFree(rest[0], sep);
          assert parts[0] == [s[0]] + rest[0];
        }
      }
    }
  }

  /** Prepending a character to the first part prepends it to the joined string. */
  lemma JoinConsFirst(c: char, first: string, rest: seq<string>, sep: char)
    ensures Join([[c] + first] + rest, sep) == [c] + Join([first] + rest, sep)
  {
    if rest != [] {
      assert ([[c] + first] + rest)[1..] == rest;
      assert ([first] + rest)[1..] == rest;
    }
  }

  /** Joining the parts back with the separator gives the original string. */
  lemma {:induction false} SplitMaxJoin(s: string, sep: char, maxsplit: nat)
    ensures Join(SplitMax(s, sep, maxsplit), sep) == s
  {
    if maxsplit > 0 && s != [] {
      if s[0] == sep {
        var rest := SplitMax(s[1..], sep, maxsplit - 1);
        SplitMaxJoin(s[1..], sep, maxsplit - 1);
        assert ([[]] + rest)[1..] == rest;
        assert s == [] + [sep] + s[1..];
      } else {
        var rest := SplitMax(s[1..], sep, maxsplit);
        SplitMaxJoin(s[1..], sep, maxsplit);
        assert rest == [rest[0]] + rest[1..];
        JoinConsFirst(s[0], rest[0], rest[1..], sep);
        assert s == [s[0]] + s[1..];
      }
    }
  }

  /**
   * When every cut is made, the last part is what follows the `maxsplit`-th separator: the
   * separator at index `i`, with `maxsplit - 1` separators before it.
   */
  lemma {:induction false} SplitMaxLast(s: string, sep: char, maxsplit: nat) returns (i: nat)
    requires 0 < maxsplit && |SplitMax(s, sep, maxsplit)| == maxsplit + 1
    ensures i < |s| && s[i] == sep && CountChar(s[..i], sep) == maxsplit - 1
    ensures SplitMax(s, sep, maxsplit)[maxsplit] == s[i + 1..]
  {
    var parts := SplitMax(s, sep, maxsplit);
    if s[0] == sep {
      var rest := SplitMax(s[1..], sep, maxsplit - 1);
      assert parts[maxsplit] == rest[maxsplit - 1];
      if maxsplit == 1 {
        i := 0;
      } else {
        var j := SplitMaxLast(s[1..], sep, maxsplit - 1);
        i := j + 1;
        assert s[..i][1..] == s[1..][..j];
        assert s[i + 1..] == s[1..][j + 1..];
      }
    } else {
      var rest := SplitMax(s[1..], sep, maxsplit);
      assert parts[maxsplit] == rest[maxsplit];
      var j := SplitMaxLast(s[1..], sep, maxsplit);
      i := j + 1;
      assert s[..i][1..] == s[1..][..j];
      assert s[i + 1..] == s[1..][j + 1..];
    }
  }

  /** Python's `str.isspace` on one character: the whitespace `int()` ignores around a number. */
  predicate IsSpace(c: char) {
    || c == ' ' || 9 <= c as int <= 13 || 28 <= c as int <= 31
    || c as int == 0x85 || c as int == 0xa0 || c as int == 0x1680
    || 0x2000 <= c as int <= 0x200a || c as int == 0x2028 || c as int == 0x2029
    || c as int == 0x202f || c as int == 0x205f || c as int == 0x3000
  }

  /** `s.lstrip()` */
  function StripLeft(s: string): string {
    if s != [] && IsSpace(s[0]) then StripLeft(s[1..]) else s
  }

  /** `s.rstrip()` */
  function StripRight(s: string): string {
    if s != [] && IsSpace(s[|s| - 1]) then StripRight(s[..|s| - 1]) else s
  }

  /** Stripping on the left removes a run of whitespace and keeps the rest, which does not start with whitespace. */
  lemma {:induction false} StripLeftSpec(s: string)
    ensures var t := StripLeft(s); |t| <= |s| && t == s[|s| - |t|..] && (t != [] ==> !IsSpace(t[0]))
    ensures var t := StripLeft(s); forall i :: 0 <= i < |s| - |t| ==> IsSpace(s[i])
  {
    if s != [] && IsSpace(s[0]) {
      StripLeftSpec(s[1..]);
      var t := StripLeft(s);
      forall i | 1 <= i < |s| - |t|
        ensures IsSpace(s[i])
      {
        assert s[i] == s[1..][i - 1];
      }
    }
  }

  /** Stripping on the right removes a run of whitespace and keeps the rest, which does not end with whitespace. */
  lemma {:induction false} StripRightSpec(s: string)
    ensures var t := StripRight(s); |t| <= |s| && t == s[..|t|] && (t != [] ==> !IsSpace(t[|t| - 1]))
    ensures var t := StripRight(s); forall i :: |t| <= i < |s| ==> IsSpace(s[i])
  {
    if s != [] && IsSpace(s[|s| - 1]) {
      StripRightSpec(s[..|s| - 1]);
      var t := StripRight(s);
      forall i | |t| <= i < |s| - 1
        ensures IsSpace(s[i])
      {
        assert s[i] == s[..|s| - 1][i];
      }
    }
  }

  predicate AllDigits(s: string) {
    forall k :: 0 <= k < |s| ==> IsDigit(s[k])
  }

  /** Python's `int(text)` on a base-10 literal: optional blanks, an optional sign, then digits. */
  function ParseInt(text: string): (r: Option<int>)
  {
    var t := StripRight(StripLeft(text));
    var neg := |t| > 0 && t[0] == '-';
    var digits := if |t| > 0 && (t[0] == '-' || t[0] == '+') then t[1..] else t;
    if |digits| > 0 && AllDigits(digits) then
      var v: int := DecimalValue(digits);
      Some(if neg then -v else v)
    else None
  }

  /** `int(str(n))` is `n`. */
  lemma StripUnpadded(s: string)
    requires s != [] && !IsSpace(s[0]) && !IsSpace(s[|s| - 1])
    ensures StripRight(StripLeft(s)) == s
  {
  }

  /** `int(str(n))` is `n`. */
  lemma ParseIntDecimal(n: int)
    ensures ParseInt(IntText(n)) == Some(n)
  {
    if n < 0 {
      var ds := DecimalString(-n);
      var s := "-" + ds;
      assert s[|s| - 1] == ds[|ds| - 1];
      StripUnpadded(s);
      assert s[1..] == ds;
    } else {
      var s := DecimalString(n);
      StripUnpadded(s);
    }
  }

  /** `[int(x) for x in fields]`: the first field that is not an integer raises ValueError. */
  function ParseInts(fields: seq<string>): (r: Result<seq<int>, Error>)
    ensures r.Ok? ==> |r.value| == |fields|
    ensures r.Err? ==> r.error.ValueError?
  {
    if fields == [] then Ok([])
    else
      match ParseInt(fields[0])
      case None => Err(ValueError("invalid literal for int()"))
      case Some(v) =>
        var rest :- ParseInts(fields[1..]);
        Ok([v] + rest)
  }

  /** The list is built exactly when every field parses, and then holds each field's value. */
  lemma {:induction false} ParseIntsSpec(fields: seq<string>)
    ensures ParseInts(fields).Ok? <==> forall k :: 0 <= k < |fields| ==> ParseInt(fields[k]).Some?
    ensures ParseInts(fields).Ok? ==>
      forall k :: 0 <= k < |fields| ==> ParseInt(fields[k]) == Some(ParseInts(fields).value[k])
  {
    if fields != [] {
      var tail := fields[1..];
      ParseIntsSpec(tail);
      assert forall k :: 1 <= k < |fields| ==> fields[k] == tail[k - 1];
      if ParseInt(fields[0]).Some? && ParseInts(tail).Ok? {
        var v, rest := ParseInt(fields[0]).value, ParseInts(tail).value;
        assert ParseInts(fields).value == [v] + rest;
      }
    }
  }

  /**
   * One line of Quad2Labelme.get_data: `None` for a line with fewer than nine comma-separated
   * fields, else the eight integers and the remaining text.
   */
  function QuadLine(line: string): Result<Option<(seq<int>, string)>, Error> {
    var vals := SplitMax(line, ',', 8);
    if |vals| < 9 then Ok(None)
    else
      var pts :- ParseInts(vals[..8]);
      Ok(Some((pts, vals[8])))
  }

  lemma QuadLineSpec(line: string)
    // a line with fewer than eight commas is skipped
    ensures CountChar(line, ',') < 8 <==> QuadLine(line) == Ok(None)
    // otherwise its first eight fields must be integers, or the line raises ValueError
    ensures QuadLine(line).Err? ==> QuadLine(line).error.ValueError?
    ensures QuadLine(line).Err? <==>
      CountChar(line, ',') >= 8 && exists k :: 0 <= k < 8 && ParseInt(SplitMax(line, ',', 8)[k]).None?
    // an accepted line yields the eight fields' integers and all the text after its eighth comma
    ensures QuadLine(line).Ok? && QuadLine(line).value.Some? ==>
      var (coords, text) := QuadLine(line).value.value;
      && |coords| == 8
      && (forall k :: 0 <= k < 8 ==> ParseInt(SplitMax(line, ',', 8)[k]) == Some(coords[k]))
      && exists i :: 0 <= i < |line| && line[i] == ',' && CountChar(line[..i], ',') == 7 && text == line[i + 1..]
  {
    var vals := SplitMax(line, ',', 8);
    SplitMaxCount(line, ',', 8);
    if |vals| == 9 {
      var head := vals[..8];
      ParseIntsSpec(head);
      assert forall k :: 0 <= k < 8 ==> head[k] == vals[k];
      var i := SplitMaxLast(line, ',', 8);
    }
  }

  lemma QuadLineShortExample()
    ensures QuadLine("1,2,3,4") == Ok(None)
  {
    QuadLineSpec("1,2,3,4");
  }

  /** The shape add_shape(label, pts) appends: eight integers give a four-point polygon. */
  function QuadShape(coords: seq<int>, text: string): (s: Shape)
    requires |coords| == 8
    ensures s.shapeType == JStr("polygon") && |s.points| == 4 && s.labelValue == Raw(text)
    ensures forall k :: 0 <= k < 4 ==> s.points[k] == Point(coords[2 * k], coords[2 * k + 1])
    ensures s.groupId == JNull && s.flags == JObj(map[]) && s.extra == map[]
    ensures GenShape(text, coords, JNull, JNull, map[]) == Ok(s)
  {
    GenShape(text, coords, JNull, JNull, map[]).value
  }

  /**
   * The shapes get_data appends for `lines`, in order, and the exception that stops it
   * part-way, if any (the shapes of the lines before it stay appended).
   */
  function QuadShapes(lines: seq<string>): (seq<Shape>, Option<Error>) {
    if lines == [] then ([], None)
    else
      match QuadLine(lines[0])
      case Err(e) => ([], Some(e))
      case Ok(None) => QuadShapes(lines[1..])
      case Ok(Some(parsed)) =>
        var rest := QuadShapes(lines[1..]);
        ([QuadShape(parsed.0, parsed.1)] + rest.0, rest.1)
  }

  /** QuadShapes unfolded at position `i` of a list of lines. */
  lemma QuadShapesAt(lines: seq<string>, i: nat)
    requires i < |lines|
    ensures QuadLine(lines[i]).Err? ==> QuadShapes(lines[i..]) == ([], Some(QuadLine(lines[i]).error))
    ensures QuadLine(lines[i]) == Ok(None) ==> QuadShapes(lines[i..]) == QuadShapes(lines[i + 1..])
    ensures QuadLine(lines[i]).Ok? && QuadLine(lines[i]).value.Some? ==>
      var (coords, text) := QuadLine(lines[i]).value.value;
      QuadShapes(lines[i..]) == ([QuadShape(coords, text)] + QuadShapes(lines[i + 1..]).0, QuadShapes(lines[i + 1..]).1)
  {
    assert lines[i..][0] == lines[i];
    assert lines[i..][1..] == lines[i + 1..];
  }

  function AcceptedLines(lines: seq<string>): nat {
    if lines == [] then 0 else (if CountChar(lines[0], ',') >= 8 then 1 else 0) + AcceptedLines(lines[1..])
  }

  lemma {:induction false} QuadShapesCount(lines: seq<string>)
    ensures QuadShapes(lines).1.None? ==> |QuadShapes(lines).0| == AcceptedLines(lines)
    ensures forall s :: s in QuadShapes(lines).0 ==> s.shapeType == JStr("polygon") && |s.points| == 4
  {
    if lines != [] {
      QuadLineSpec(lines[0]);
      QuadShapesCount(lines[1..]);
    }
  }
}
