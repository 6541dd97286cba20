/**
 * The labelme dictionaries the Python code edits in place: LabelmeDict.reduce, flip_points and
 * update_labelattr (with their default `inplace=True`), and the ToLabelmeJson / Quad2Labelme
 * converter whose `data` grows one shape at a time.
 */
module LabelmeDocs {
  import opened Wrappers
  import opened PyValues
  import opened Labelme

  /** One labelme annotation dict, updated in place. */
  class LabelmeDoc {
    var version: string
    var flags: Json
    var shapes: seq<Shape>
    var imagePath: string
    var imageData: Json
    var imageWidth: int
    var imageHeight: int

    /** The dict's current contents. */
    function Value(): Document
      reads this
    {
      Document(version, flags, shapes, imagePath, imageData, imageWidth, imageHeight)
    }

    constructor (d: Document)
      ensures Value() == d
    {
      version, flags, shapes := d.version, d.flags, d.shapes;
      imagePath, imageData := d.imagePath, d.imageData;
      imageWidth, imageHeight := d.imageWidth, d.imageHeight;
    }

    /** LabelmeDict.reduce: drops the embedded image. */
    method Reduce()
      modifies this
      ensures Value() == Reduced(old(Value()))
    {
      imageData := JNull;
    }

    /** LabelmeDict.flip_points: swaps the canvas for odd directions and re-points each shape. */
    method FlipPoints(direction: int, warp: Warp)
      modifies this
      ensures Value() == Flipped(old(Value()), direction, warp)
    {
      var w, h := imageWidth, imageHeight;
      var dir4 := direction % 4;
      if direction % 2 == 1 {
        imageWidth, imageHeight := imageHeight, imageWidth;
      }
      var i := 0;
      while i < |shapes|
        invariant 0 <= i <= |shapes| == |old(shapes)|
        invariant forall k :: 0 <= k < i ==> shapes[k] == FlipShape(old(shapes)[k], w, h, dir4, warp)
        invariant forall k :: i <= k < |shapes| ==> shapes[k] == old(shapes)[k]
        invariant version == old(version) && flags == old(flags) && imagePath == old(imagePath)
        invariant imageData == old(imageData)
        invariant Value() == Flipped(old(Value()), direction, warp).(shapes := shapes)
      {
        shapes := shapes[i := FlipShape(shapes[i], w, h, dir4, warp)];
        i := i + 1;
      }
    }

    /** LabelmeDict.update_labelattr: moves every shape's extra keys into its label attributes. */
    method UpdateLabelattr(points: bool, bbox: seq<Point> -> Json)
      modifies this
      ensures Value() == NormalizeDoc(old(Value()), points, bbox)
    {
      var i := 0;
      while i < |shapes|
        invariant 0 <= i <= |shapes| == |old(shapes)|
        invariant forall k :: 0 <= k < i ==> shapes[k] == NormalizeShape(old(shapes)[k], points, bbox)
        invariant forall k :: i <= k < |shapes| ==> shapes[k] == old(shapes)[k]
        invariant Value() == old(Value()).(shapes := shapes)
      {
        shapes := shapes[i := NormalizeShape(shapes[i], points, bbox)];
        i := i + 1;
      }
    }
  }

  /**
   * ToLabelmeJson specialised by Quad2Labelme: `data` starts as the get_data_base skeleton and
   * add_shape appends to its shape list. The image file name and size are parameters here.
   */
  class Quad2Labelme {
    var data: Document

    constructor (name: string, height: int, width: int)
      ensures data == DataBase(name, height, width)
    {
      data := DataBase(name, height, width);
    }

    /** ToLabelmeJson.add_shape: appends get_shape's result, or raises and leaves `data` alone. */
    method AddShape(text: string, coords: seq<int>, shapeType: Json, groupId: Json, kwargs: Record)
      returns (r: Result<(), Error>)
      requires kwargs.Keys !! NamedShapeArgs
      modifies this
      ensures var s := GenShape(text, coords, shapeType, groupId, kwargs);
        && (s.Ok? ==> r.Ok? && data == old(data).(shapes := old(data).shapes + [s.value]))
        && (s.Err? ==> r == Err(s.error) && data == old(data))
    {
      var s := GenShape(text, coords, shapeType, groupId, kwargs);
      if s.Err? {
        return Err(s.error);
      }
      data := data.(shapes := data.shapes + [s.value]);
      return Ok(());
    }

    /**
     * Quad2Labelme.get_data on the lines of the annotation file: one polygon per line with at
     * least nine fields. A ValueError from `int()` stops the loop with the earlier shapes kept.
     */
    method GetData(lines: seq<string>) returns (r: Result<(), Error>)
      modifies this
      ensures data == old(data).(shapes := old(data).shapes + QuadShapes(lines).0)
      ensures r.Ok? <==> QuadShapes(lines).1.None?
      ensures r.Err? ==> QuadShapes(lines).1 == Some(r.error)
    {
      var i := 0;
      while i < |lines|
        invariant 0 <= i <= |lines|
        invariant data.shapes + QuadShapes(lines[i..]).0 == old(data).shapes + QuadShapes(lines).0
        invariant QuadShapes(lines[i..]).1 == QuadShapes(lines).1
        invariant data == old(data).(shapes := data.shapes)
      {
        ghost var before := data.shapes;
        var parsed := QuadLine(lines[i]);
        QuadShapesAt(lines, i);
        if parsed.Err? {
          return Err(parsed.error);
        }
        if parsed.value.Some? {
          var (coords, text) := parsed.value.value;
          var added := AddShape(text, coords, JNull, JNull, map[]);
          assert data.shapes == before + [QuadShape(coords, text)];
          ghost var q, rest := QuadShape(coords, text), QuadShapes(lines[i + 1..]).0;
          assert QuadShapes(lines[i..]).0 == [q] + rest;
          AppendAssoc(before, [q], rest);
        }
        i := i + 1;
      }
      assert lines[i..] == [];
      return Ok(());
    }
  }
}
