/**
 * LabelmeDataset.to_coco_gt_dict as functions: pass 1 folds over the normalised documents,
 * building one (image record, annotation records) entry per document and the running maxima
 * of the explicit image and annotation ids; pass 2 folds over the entries, giving every
 * sentinel id (-1 or absent) the next counter value, stamping `image_id`, defaulting
 * `category_id` and dropping `category_name`.
 *
 * CocoGtData.gen_image, gen_annotation and gen_gt_dict are not part of this model: an image
 * record is taken to be {id, file_name, height, width}, gen_annotation to pass its keywords
 * through unchanged, and the result is the CocoGt triple.
 */
module Coco {
  import opened Wrappers
  import opened PyValues
  import opened Labelme

  // ---------------------------------------------------------------------------------------
  // Ids

  /**
   * `r.get('id', -1)` as `max` compares it: an absent id is -1, an integer is itself, a bool
   * counts as 0 or 1 (Python's bool is an int), and any other value raises TypeError.
   */
  function IdOf(r: Record): (v: Result<int, Error>)
    ensures "id" !in r ==> v == Ok(-1)
    ensures "id" in r && r["id"].JInt? ==> v == Ok(r["id"].i)
    ensures "id" in r && r["id"].JBool? ==> v == Ok(if r["id"].b then 1 else 0)
    ensures v.Err? <==> "id" in r && !r["id"].JInt? && !r["id"].JBool?
    ensures v.Ok? ==> v.value == IdNum(r)
  {
    if "id" !in r then Ok(-1)
    else
      match r["id"]
      case JInt(i) => Ok(i)
      case JBool(b) => Ok(if b then 1 else 0)
      case _ => Err(TypeError("id is not an integer"))
  }

  /** `r.get('id', -1) == -1`: the record still needs an id (`True` and `False` never equal -1). */
  predicate IsSentinel(r: Record) {
    "id" !in r || r["id"] == JInt(-1)
  }

  /** The number an id stands for: an integer, or a bool as 0 or 1; -1 for anything else. */
  function IdNum(r: Record): int {
    if "id" !in r then -1
    else
      match r["id"]
      case JInt(i) => i
      case JBool(b) => if b then 1 else 0
      case _ => -1
  }

  // ---------------------------------------------------------------------------------------
  // Pass 1: one entry per document

  /** CocoGtData.gen_image(id, file_name, height, width). */
  function GenImage(id: int, fileName: string, height: int, width: int): Record {
    map["id" := JInt(id), "file_name" := JStr(fileName), "height" := JInt(height), "width" := JInt(width)]
  }

  lemma RestampImage(id: int, id': int, fileName: string, height: int, width: int)
    ensures GenImage(id, fileName, height, width)["id" := JInt(id')] == GenImage(id', fileName, height, width)
  {
  }

  /** The image lookup's test `x.get('xltype') == 'image'`, applied to the shape's own dict. */
  predicate TaggedImage(s: Shape) {
    "xltype" in s.extra && s.extra["xltype"] == JStr("image")
  }

  /** The index of the first image-tagged shape, if any. */
  function FindImageShape(shapes: seq<Shape>): (r: Option<nat>)
    ensures r.Some? ==> r.value < |shapes|
  {
    if shapes == [] then None
    else if TaggedImage(shapes[0]) then Some(0)
    else
      match FindImageShape(shapes[1..])
      case None => None
      case Some(i) => Some(i + 1)
  }

  /** The lookup finds the first tagged shape, and finds nothing exactly when no shape is tagged. */
  lemma {:induction false} FindImageShapeSpec(shapes: seq<Shape>)
    ensures var r := FindImageShape(shapes);
      && (r.Some? ==> TaggedImage(shapes[r.value]) && forall k :: 0 <= k < r.value ==> !TaggedImage(shapes[k]))
      && (r.None? <==> forall k :: 0 <= k < |shapes| ==> !TaggedImage(shapes[k]))
  {
    if shapes != [] && !TaggedImage(shapes[0]) {
      FindImageShapeSpec(shapes[1..]);
      assert forall k :: 1 <= k < |shapes| ==> shapes[k] == shapes[1..][k - 1];
    }
  }

  /**
   * Step 1.1 for one document: the first image-tagged shape's label without its `xltype`,
   * or a synthesised record with the sentinel id -1.
   */
  function ImageOf(d: Document): Result<Record, Error> {
    match FindImageShape(d.shapes)
    case None => Ok(GenImage(-1, d.imagePath, d.imageHeight, d.imageWidth))
    case Some(k) =>
      var image := LabelAttrs(d.shapes[k].labelValue);
      if image == map[] then Err(ValueError("empty image label"))
      else if "xltype" !in image then Err(KeyError("xltype"))
      else Ok(image - {"xltype"})
  }

  /** The first image-tagged shape wins; an empty label raises ValueError, one without `xltype` KeyError. */
  lemma ImageOfSpec(d: Document)
    ensures FindImageShape(d.shapes).None? ==> ImageOf(d) == Ok(GenImage(-1, d.imagePath, d.imageHeight, d.imageWidth))
    ensures FindImageShape(d.shapes).Some? ==>
      var k := FindImageShape(d.shapes).value;
      var attrs := LabelAttrs(d.shapes[k].labelValue);
      && TaggedImage(d.shapes[k]) && (forall j :: 0 <= j < k ==> !TaggedImage(d.shapes[j]))
      && (attrs == map[] ==> ImageOf(d).Err? && ImageOf(d).error.ValueError?)
      && (attrs != map[] && "xltype" !in attrs ==> ImageOf(d) == Err(KeyError("xltype")))
      && (attrs != map[] && "xltype" in attrs ==> ImageOf(d) == Ok(attrs - {"xltype"}))
  {
    FindImageShapeSpec(d.shapes);
  }

  /** A normalised shape has no keys besides the standard ones, so the lookup never finds one. */
  lemma NoImageShapeAfterNormalize(d: Document, bbox: seq<Point> -> Json)
    ensures FindImageShape(NormalizeDoc(d, true, bbox).shapes).None?
    ensures ImageOf(NormalizeDoc(d, true, bbox)) == Ok(GenImage(-1, d.imagePath, d.imageHeight, d.imageWidth))
  {
    var n := NormalizeDoc(d, true, bbox);
    FindImageShapeSpec(n.shapes);
    forall k | 0 <= k < |n.shapes|
      ensures !TaggedImage(n.shapes[k])
    {
      assert n.shapes[k].extra == map[];
    }
  }

  /** Step 1.2 for one shape: accepted as an annotation, dropped (`image`, `seg`), or rejected. */
  predicate Acceptable(attrs: Record) {
    if "xltype" in attrs then attrs["xltype"] == JStr("image") || attrs["xltype"] == JStr("seg")
    else IdOf(attrs).Ok?
  }

  /** The labels that become annotation records: those without an `xltype`, in shape order. */
  function AnnLabels(shapes: seq<Shape>): seq<Record> {
    if shapes == [] then []
    else
      var attrs := LabelAttrs(shapes[|shapes| - 1].labelValue);
      AnnLabels(shapes[..|shapes| - 1]) + (if "xltype" in attrs then [] else [attrs])
  }

  /**
   * Step 1.2 for one document: the annotation records and the running annotation-id maximum,
   * starting from `annMax`.
   */
  function ShapeRecords(shapes: seq<Shape>, annMax: int): (r: Result<(seq<Record>, int), Error>)
    ensures r.Err? ==> r.error.ValueError? || r.error.TypeError?
  {
    if shapes == [] then Ok(([], annMax))
    else
      var init := shapes[..|shapes| - 1];
      var attrs := LabelAttrs(shapes[|shapes| - 1].labelValue);
      var prev :- ShapeRecords(init, annMax);
      if "xltype" !in attrs then
        var id :- IdOf(attrs);
        Ok((prev.0 + [attrs], Max(prev.1, id)))
      else if attrs["xltype"] == JStr("image") || attrs["xltype"] == JStr("seg") then
        Ok(prev)
      else
        Err(ValueError("unknown xltype"))
  }

  /** The records are built exactly when every shape is acceptable, and are the annotation labels. */
  lemma {:induction false} ShapeRecordsAccepts(shapes: seq<Shape>, annMax: int)
    ensures ShapeRecords(shapes, annMax).Ok? <==> forall k :: 0 <= k < |shapes| ==> Acceptable(LabelAttrs(shapes[k].labelValue))
    ensures ShapeRecords(shapes, annMax).Ok? ==> ShapeRecords(shapes, annMax).value.0 == AnnLabels(shapes)
  {
    if shapes != [] {
      var init := shapes[..|shapes| - 1];
      ShapeRecordsAccepts(init, annMax);
      assert forall k :: 0 <= k < |init| ==> init[k] == shapes[k];
    }
  }

  /**
   * The annotation counter starts at `annMax`, bounds every record's id, and is the maximum:
   * either it never moved or some record carries it.
   */
  lemma {:induction false} ShapeRecordsBounds(shapes: seq<Shape>, annMax: int)
    requires ShapeRecords(shapes, annMax).Ok?
    ensures var (recs, m) := ShapeRecords(shapes, annMax).value;
      && annMax <= m
      && (forall a :: a in recs ==> IdOf(a).Ok? && IdOf(a).value <= m)
      && (m == annMax || exists a :: a in recs && IdOf(a) == Ok(m))
  {
    if shapes != [] {
      ShapeRecordsBounds(shapes[..|shapes| - 1], annMax);
    }
  }

  /** One document's contribution to pass 1. */
  datatype Entry = Entry(image: Record, anns: seq<Record>)

  /** The result of pass 1: the entries and the image and annotation id maxima. */
  datatype Scan = Scan(entries: seq<Entry>, imgMax: int, annMax: int)

  /** A document pass 1 gets through. */
  predicate DocAcceptable(d: Document) {
    && ImageOf(d).Ok?
    && IdOf(ImageOf(d).value).Ok?
    && forall k :: 0 <= k < |d.shapes| ==> Acceptable(LabelAttrs(d.shapes[k].labelValue))
  }

  /** Pass 1 over already-normalised documents, in order; both maxima start at 0. */
  function Pass1(docs: seq<Document>): (r: Result<Scan, Error>)
    ensures r.Ok? ==> |r.value.entries| == |docs|
  {
    if docs == [] then Ok(Scan([], 0, 0))
    else
      var d := docs[|docs| - 1];
      var sc :- Pass1(docs[..|docs| - 1]);
      var image :- ImageOf(d);
      var imgId :- IdOf(image);
      var recs :- ShapeRecords(d.shapes, sc.annMax);
      Ok(Scan(sc.entries + [Entry(image, recs.0)], Max(sc.imgMax, imgId), recs.1))
  }

  /** Pass 1 on a non-empty list gets through exactly when it does on all but the last document and the last is acceptable. */
  lemma Pass1Step(docs: seq<Document>)
    requires docs != []
    ensures Pass1(docs).Ok? <==> Pass1(docs[..|docs| - 1]).Ok? && DocAcceptable(docs[|docs| - 1])
  {
    var init, d := docs[..|docs| - 1], docs[|docs| - 1];
    if Pass1(init).Ok? && ImageOf(d).Ok? && IdOf(ImageOf(d).value).Ok? {
      var annMax := Pass1(init).value.annMax;
      ShapeRecordsAccepts(d.shapes, annMax);
      assert Pass1(docs).Ok? == ShapeRecords(d.shapes, annMax).Ok?;
    }
  }

  /** A successful pass 1 appends the last document's entry to the scan of the others. */
  lemma Pass1Last(docs: seq<Document>)
    requires docs != [] && Pass1(docs).Ok?
    ensures var init, d := docs[..|docs| - 1], docs[|docs| - 1];
      && Pass1(init).Ok? && ImageOf(d).Ok? && IdOf(ImageOf(d).value).Ok?
      && ShapeRecords(d.shapes, Pass1(init).value.annMax).Ok?
      && var sc, image := Pass1(init).value, ImageOf(d).value;
      Pass1(docs).value == Scan(sc.entries + [Entry(image, AnnLabels(d.shapes))],
                                Max(sc.imgMax, IdOf(image).value), ShapeRecords(d.shapes, sc.annMax).value.1)
  {
    ShapeRecordsAccepts(docs[|docs| - 1].shapes, Pass1(docs[..|docs| - 1]).value.annMax);
  }

  /** Every document acceptable: all but the last are, and so is the last. */
  lemma AcceptableSplit(docs: seq<Document>, init: seq<Document>)
    requires docs != [] && init == docs[..|docs| - 1]
    ensures (forall k :: 0 <= k < |docs| ==> DocAcceptable(docs[k])) <==>
      (forall k :: 0 <= k < |init| ==> DocAcceptable(init[k])) && DocAcceptable(docs[|docs| - 1])
  {
    assert forall k :: 0 <= k < |init| ==> init[k] == docs[k];
  }

  /** Pass 1 raises exactly when some document has a bad image record or a bad shape. */
  lemma {:induction false} Pass1Accepts(docs: seq<Document>)
    ensures Pass1(docs).Ok? <==> forall k :: 0 <= k < |docs| ==> DocAcceptable(docs[k])
  {
    if docs != [] {
      Pass1Step(docs);
      Pass1Accepts(docs[..|docs| - 1]);
      AcceptableSplit(docs, docs[..|docs| - 1]);
    }
  }

  /** Entry k holds document k's image record and the labels of its annotation shapes. */
  lemma {:induction false} Pass1EntryAt(docs: seq<Document>, k: nat)
    requires Pass1(docs).Ok? && k < |docs|
    ensures ImageOf(docs[k]) == Ok(Pass1(docs).value.entries[k].image)
    ensures Pass1(docs).value.entries[k].anns == AnnLabels(docs[k].shapes)
  {
    var init, d := docs[..|docs| - 1], docs[|docs| - 1];
    Pass1Last(docs);
    var es0 := Pass1(init).value.entries;
    var last := Entry(ImageOf(d).value, AnnLabels(d.shapes));
    assert Pass1(docs).value.entries == es0 + [last];
    if k < |init| {
      Pass1EntryAt(init, k);
      assert init[k] == docs[k] && Pass1(docs).value.entries[k] == es0[k];
    }
  }

  lemma Pass1Entries(docs: seq<Document>)
    requires Pass1(docs).Ok?
    ensures forall k :: 0 <= k < |docs| ==>
      && ImageOf(docs[k]) == Ok(Pass1(docs).value.entries[k].image)
      && Pass1(docs).value.entries[k].anns == AnnLabels(docs[k].shapes)
  {
    forall k | 0 <= k < |docs|
      ensures ImageOf(docs[k]) == Ok(Pass1(docs).value.entries[k].image)
      ensures Pass1(docs).value.entries[k].anns == AnnLabels(docs[k].shapes)
    {
      Pass1EntryAt(docs, k);
    }
  }

  /** Both counters end at least at 0 and at least at every id pass 1 saw. */
  lemma {:induction false} Pass1Bounds(docs: seq<Document>)
    requires Pass1(docs).Ok?
    ensures var sc := Pass1(docs).value;
      && 0 <= sc.imgMax && 0 <= sc.annMax
      && (forall k :: 0 <= k < |docs| ==> IdOf(sc.entries[k].image).Ok? && IdOf(sc.entries[k].image).value <= sc.imgMax)
      && (forall k, a :: 0 <= k < |docs| && a in sc.entries[k].anns ==> IdOf(a).Ok? && IdOf(a).value <= sc.annMax)
  {
    if docs != [] {
      var init := docs[..|docs| - 1];
      Pass1Last(docs);
      Pass1Bounds(init);
      ShapeRecordsBounds(docs[|docs| - 1].shapes, Pass1(init).value.annMax);
    }
  }

  // ---------------------------------------------------------------------------------------
  // Pass 2: ids, image ids and categories

  /** `categories[0]['id']`, the category of an annotation that has none. */
  function DefaultCategoryId(cats: seq<Record>): (r: Result<Json, Error>)
    ensures r.Ok? <==> |cats| > 0 && "id" in cats[0]
    ensures r.Ok? ==> r.value == cats[0]["id"]
    ensures |cats| == 0 ==> r == Err(IndexError)
  {
    if |cats| == 0 then Err(IndexError)
    else if "id" !in cats[0] then Err(KeyError("id"))
    else Ok(cats[0]["id"])
  }

  /** The keys pass 2 writes or removes in an annotation record. */
  const StampedKeys: set<string> := {"id", "image_id", "category_id", "category_name"}

  /** Step 2.2 for one annotation record, with the annotation counter `c`. */
  function FinishAnn(sp: Record, imgId: int, c: int, cats: seq<Record>): (r: Result<(Record, int), Error>)
    ensures r.Err? <==> "category_id" !in sp && DefaultCategoryId(cats).Err?
  {
    var withImage := sp["image_id" := JInt(imgId)];
    var (numbered, c') :=
      if IsSentinel(sp) then (withImage["id" := JInt(c + 1)], c + 1) else (withImage, c);
    if "category_id" in numbered then
      Ok((numbered - {"category_name"}, c'))
    else
      var cid :- DefaultCategoryId(cats);
      Ok((numbered["category_id" := cid] - {"category_name"}, c'))
  }

  /** Pass 2 keeps an explicit annotation id and gives a sentinel the next counter value. */
  lemma FinishAnnId(sp: Record, imgId: int, c: int, cats: seq<Record>)
    requires FinishAnn(sp, imgId, c, cats).Ok?
    ensures var (a, c') := FinishAnn(sp, imgId, c, cats).value;
      && "id" in a
      && (IsSentinel(sp) ==> a["id"] == JInt(c + 1) && c' == c + 1)
      && (!IsSentinel(sp) ==> a["id"] == sp["id"] && c' == c)
  {
  }

  /**
   * `a` is `sp` as pass 2 emits it for image `imgId`: stamped with `imgId`, given the default
   * category when it has none, without `category_name`, and otherwise unchanged.
   */
  ghost predicate FinishedAs(a: Record, sp: Record, imgId: int, cats: seq<Record>) {
    && "image_id" in a && a["image_id"] == JInt(imgId)
    && "category_id" in a
    && ("category_id" in sp ==> a["category_id"] == sp["category_id"])
    && ("category_id" !in sp ==> DefaultCategoryId(cats) == Ok(a["category_id"]))
    && "category_name" !in a
    && (forall key :: key !in StampedKeys ==> (key in a <==> key in sp))
    && (forall key :: key !in StampedKeys && key in sp ==> a[key] == sp[key])
  }

  /** The record pass 2 emits for `sp` is `sp` finished for `imgId`. */
  lemma FinishAnnFields(sp: Record, imgId: int, c: int, cats: seq<Record>)
    requires FinishAnn(sp, imgId, c, cats).Ok?
    ensures FinishedAs(FinishAnn(sp, imgId, c, cats).value.0, sp, imgId, cats)
  {
  }

  /** A successful FinishAnns is the records before the last, then the last one. */
  lemma FinishAnnsLast(anns: seq<Record>, imgId: int, c: int, cats: seq<Record>)
    requires anns != [] && FinishAnns(anns, imgId, c, cats).Ok?
    ensures var init := anns[..|anns| - 1];
      && FinishAnns(init, imgId, c, cats).Ok?
      && var prev := FinishAnns(init, imgId, c, cats).value;
      && FinishAnn(anns[|anns| - 1], imgId, prev.1, cats).Ok?
      && var fin := FinishAnn(anns[|anns| - 1], imgId, prev.1, cats).value;
      FinishAnns(anns, imgId, c, cats).value == (prev.0 + [fin.0], fin.1)
  {
  }

  /** Step 2.2 for one document's annotation records, in order. */
  function FinishAnns(anns: seq<Record>, imgId: int, c: int, cats: seq<Record>): (r: Result<(seq<Record>, int), Error>)
    ensures r.Ok? ==> |r.value.0| == |anns|
  {
    if anns == [] then Ok(([], c))
    else
      var prev :- FinishAnns(anns[..|anns| - 1], imgId, c, cats);
      var last :- FinishAnn(anns[|anns| - 1], imgId, prev.1, cats);
      Ok((prev.0 + [last.0], last.1))
  }

  /** The images of the entries, in order. */
  function Images(entries: seq<Entry>): (r: seq<Record>)
    ensures |r| == |entries| && forall k :: 0 <= k < |entries| ==> r[k] == entries[k].image
  {
    seq(|entries|, k requires 0 <= k < |entries| => entries[k].image)
  }

  /** The annotation records of the entries, concatenated in order. */
  function AllAnns(entries: seq<Entry>): seq<Record> {
    if entries == [] then [] else AllAnns(entries[..|entries| - 1]) + entries[|entries| - 1].anns
  }

  /** The outcome of pass 2: images, annotations, and the final image and annotation counters. */
  datatype Stamped = Stamped(images: seq<Record>, anns: seq<Record>, imgC: int, annC: int)

  /** Pass 2 over the entries, from the counters `ic` and `ac` that pass 1 left. */
  function Pass2(entries: seq<Entry>, ic: int, ac: int, cats: seq<Record>): (r: Result<Stamped, Error>)
    ensures r.Ok? ==> |r.value.images| == |entries|
  {
    if entries == [] then Ok(Stamped([], [], ic, ac))
    else
      var prev :- Pass2(entries[..|entries| - 1], ic, ac, cats);
      var e := entries[|entries| - 1];
      var (image, ic') :=
        if IsSentinel(e.image) then (e.image["id" := JInt(prev.imgC + 1)], prev.imgC + 1)
        else (e.image, prev.imgC);
      // `sp['image_id'] = img_id`: the image counter, whatever the image's own id
      var fin :- FinishAnns(e.anns, ic', prev.annC, cats);
      Ok(Stamped(prev.images + [image], prev.anns + fin.0, ic', fin.1))
  }

  /** A successful pass 2 stamps the last entry after the others. */
  lemma Pass2Last(entries: seq<Entry>, ic: int, ac: int, cats: seq<Record>)
    requires entries != [] && Pass2(entries, ic, ac, cats).Ok?
    ensures var init, e := entries[..|entries| - 1], entries[|entries| - 1];
      && Pass2(init, ic, ac, cats).Ok?
      && var prev := Pass2(init, ic, ac, cats).value;
      var ic' := if IsSentinel(e.image) then prev.imgC + 1 else prev.imgC;
      var image := if IsSentinel(e.image) then e.image["id" := JInt(ic')] else e.image;
      && FinishAnns(e.anns, ic', prev.annC, cats).Ok?
      && var fin := FinishAnns(e.anns, ic', prev.annC, cats).value;
      Pass2(entries, ic, ac, cats).value == Stamped(prev.images + [image], prev.anns + fin.0, ic', fin.1)
  {
  }

  // ---------------------------------------------------------------------------------------
  // Renumbering: the closed form of the id counters

  /** How many records still need an id. */
  function Sentinels(rs: seq<Record>): nat {
    if rs == [] then 0 else Sentinels(rs[..|rs| - 1]) + (if IsSentinel(rs[|rs| - 1]) then 1 else 0)
  }

  /**
   * `out` is `inp` renumbered from counter `c0`: explicit ids are kept, and the record that is
   * the n-th sentinel (from 0) gets `c0 + n + 1`.
   */
  predicate Renumbered(inp: seq<Record>, out: seq<Record>, c0: int) {
    && |inp| == |out|
    && forall k {:trigger out[k]} :: 0 <= k < |inp| ==>
      "id" in out[k] && out[k]["id"] == (if IsSentinel(inp[k]) then JInt(c0 + Sentinels(inp[..k]) + 1) else inp[k]["id"])
  }

  lemma {:induction false} SentinelsAppend(a: seq<Record>, b: seq<Record>)
    ensures Sentinels(a + b) == Sentinels(a) + Sentinels(b)
    decreases |b|
  {
    if b == [] {
      assert a + b == a;
    } else {
      assert (a + b)[..|a + b| - 1] == a + b[..|b| - 1];
      assert (a + b)[|a + b| - 1] == b[|b| - 1];
      SentinelsAppend(a, b[..|b| - 1]);
    }
  }

  lemma {:induction false} SentinelsMonotone(rs: seq<Record>, i: nat, j: nat)
    requires i <= j <= |rs|
    ensures Sentinels(rs[..i]) <= Sentinels(rs[..j])
    ensures i < j && IsSentinel(rs[i]) ==> Sentinels(rs[..i]) < Sentinels(rs[..j])
    decreases j - i
  {
    if i < j {
      SentinelsMonotone(rs, i, j - 1);
      assert rs[..j][..j - 1] == rs[..j - 1];
      if i == j - 1 {
        assert rs[..j][j - 1] == rs[i];
      }
    }
  }

  lemma RenumberedEmpty(c0: int)
    ensures Renumbered([], [], c0)
  {
  }

  lemma RenumberedSnoc(init: seq<Record>, last: Record, prevOut: seq<Record>, out: Record, c0: int)
    requires Renumbered(init, prevOut, c0)
    requires "id" in out && out["id"] == (if IsSentinel(last) then JInt(c0 + Sentinels(init) + 1) else last["id"])
    ensures Renumbered(init + [last], prevOut + [out], c0)
    ensures Sentinels(init + [last]) == Sentinels(init) + if IsSentinel(last) then 1 else 0
  {
    RenumberedOne(last, out, c0 + Sentinels(init));
    RenumberedAppend(init, prevOut, [last], [out], c0);
    SentinelsAppend(init, [last]);
  }

  lemma RenumberedOne(r: Record, out: Record, c0: int)
    requires "id" in out && out["id"] == (if IsSentinel(r) then JInt(c0 + 1) else r["id"])
    ensures Renumbered([r], [out], c0)
    ensures Sentinels([r]) == if IsSentinel(r) then 1 else 0
  {
    assert [r][..0] == [];
  }

  lemma RenumberedAppend(a: seq<Record>, x: seq<Record>, b: seq<Record>, y: seq<Record>, c0: int)
    requires Renumbered(a, x, c0) && Renumbered(b, y, c0 + Sentinels(a))
    ensures Renumbered(a + b, x + y, c0)
  {
    forall k | |a| <= k < |a + b|
      ensures Sentinels((a + b)[..k]) == Sentinels(a) + Sentinels(b[..k - |a|])
    {
      assert (a + b)[..k] == a + b[..k - |a|];
      SentinelsAppend(a, b[..k - |a|]);
    }
    forall k | 0 <= k < |a|
      ensures (a + b)[..k] == a[..k]
    {
    }
  }

  /** The annotation ids pass 2 gives one document's records follow the closed form. */
  lemma {:induction false} FinishAnnsRenumber(anns: seq<Record>, imgId: int, c: int, cats: seq<Record>)
    requires FinishAnns(anns, imgId, c, cats).Ok?
    ensures Renumbered(anns, FinishAnns(anns, imgId, c, cats).value.0, c)
    ensures FinishAnns(anns, imgId, c, cats).value.1 == c + Sentinels(anns)
  {
    if anns != [] {
      var init := anns[..|anns| - 1];
      var last := anns[|anns| - 1];
      FinishAnnsLast(anns, imgId, c, cats);
      FinishAnnsRenumber(init, imgId, c, cats);
      var prev := FinishAnns(init, imgId, c, cats).value;
      var fin := FinishAnn(last, imgId, prev.1, cats).value;
      assert "id" in fin.0 && fin.0["id"] == (if IsSentinel(last) then JInt(c + Sentinels(init) + 1) else last["id"])
        && fin.1 == prev.1 + (if IsSentinel(last) then 1 else 0) by {
        FinishAnnId(last, imgId, prev.1, cats);
      }
      assert anns == init + [last];
      RenumberedSnoc(init, last, prev.0, fin.0, c);
    }
  }

  /** Every record pass 2 emits for a document is that document's record, finished for `imgId`. */
  lemma {:induction false} FinishAnnsFields(anns: seq<Record>, imgId: int, c: int, cats: seq<Record>)
    requires FinishAnns(anns, imgId, c, cats).Ok?
    ensures var out := FinishAnns(anns, imgId, c, cats).value.0;
      forall k :: 0 <= k < |anns| ==> FinishedAs(out[k], anns[k], imgId, cats)
  {
    if anns != [] {
      var init, last := anns[..|anns| - 1], anns[|anns| - 1];
      FinishAnnsLast(anns, imgId, c, cats);
      FinishAnnsFields(init, imgId, c, cats);
      var prev := FinishAnns(init, imgId, c, cats).value;
      FinishAnnFields(last, imgId, prev.1, cats);
      var out := FinishAnns(anns, imgId, c, cats).value.0;
      assert out == prev.0 + [FinishAnn(last, imgId, prev.1, cats).value.0];
      forall k | 0 <= k < |init|
        ensures out[k] == prev.0[k] && anns[k] == init[k]
      {
      }
    }
  }

  /** Every record pass 2 emits for a document carries that document's image id. */
  lemma FinishAnnsImageId(anns: seq<Record>, imgId: int, c: int, cats: seq<Record>)
    requires FinishAnns(anns, imgId, c, cats).Ok?
    ensures forall a :: a in FinishAnns(anns, imgId, c, cats).value.0 ==> "image_id" in a && a["image_id"] == JInt(imgId)
  {
    var out := FinishAnns(anns, imgId, c, cats).value.0;
    FinishAnnsFields(anns, imgId, c, cats);
    forall a | a in out
      ensures "image_id" in a && a["image_id"] == JInt(imgId)
    {
      var k :| 0 <= k < |out| && out[k] == a;
    }
  }

  /** Pass 2 fails only for a record without a category when the category table has no usable first id. */
  lemma {:induction false} FinishAnnsError(anns: seq<Record>, imgId: int, c: int, cats: seq<Record>)
    ensures FinishAnns(anns, imgId, c, cats).Err? <==>
      (exists k :: 0 <= k < |anns| && "category_id" !in anns[k]) && DefaultCategoryId(cats).Err?
  {
    if anns != [] {
      var init := anns[..|anns| - 1];
      FinishAnnsError(init, imgId, c, cats);
      if exists k :: 0 <= k < |init| && "category_id" !in init[k] {
        var k :| 0 <= k < |init| && "category_id" !in init[k];
        assert anns[k] == init[k];
      }
      if "category_id" !in anns[|anns| - 1] {
        assert exists k :: 0 <= k < |anns| && "category_id" !in anns[k];
      }
    }
  }

  /** Image ids over the whole of pass 2 follow the closed form. */
  lemma {:induction false} Pass2RenumberImages(entries: seq<Entry>, ic: int, ac: int, cats: seq<Record>)
    requires Pass2(entries, ic, ac, cats).Ok?
    ensures Renumbered(Images(entries), Pass2(entries, ic, ac, cats).value.images, ic)
    ensures Pass2(entries, ic, ac, cats).value.imgC == ic + Sentinels(Images(entries))
  {
    if entries != [] {
      var init := entries[..|entries| - 1];
      var e := entries[|entries| - 1];
      Pass2Last(entries, ic, ac, cats);
      Pass2RenumberImages(init, ic, ac, cats);
      var prev := Pass2(init, ic, ac, cats).value;
      var st := Pass2(entries, ic, ac, cats).value;
      var image := st.images[|entries| - 1];
      assert Images(entries) == Images(init) + [e.image];
      assert st.images == prev.images + [image];
      RenumberedSnoc(Images(init), e.image, prev.images, image, ic);
    }
  }

  /** Annotation ids over the whole of pass 2 follow the closed form. */
  lemma {:induction false} Pass2RenumberAnns(entries: seq<Entry>, ic: int, ac: int, cats: seq<Record>)
    requires Pass2(entries, ic, ac, cats).Ok?
    ensures Renumbered(AllAnns(entries), Pass2(entries, ic, ac, cats).value.anns, ac)
    ensures Pass2(entries, ic, ac, cats).value.annC == ac + Sentinels(AllAnns(entries))
  {
    if entries != [] {
      var init := entries[..|entries| - 1];
      var e := entries[|entries| - 1];
      Pass2RenumberAnns(init, ic, ac, cats);
      var prev := Pass2(init, ic, ac, cats).value;
      var st := Pass2(entries, ic, ac, cats).value;
      var fin := FinishAnns(e.anns, st.imgC, prev.annC, cats).value;
      assert st.anns == prev.anns + fin.0;
      FinishAnnsRenumber(e.anns, st.imgC, prev.annC, cats);
      RenumberedAppend(AllAnns(init), prev.anns, e.anns, fin.0, ac);
      SentinelsAppend(AllAnns(init), e.anns);
    }
  }

  /**
   * Renumbering from a counter no explicit id exceeds keeps ids apart: fresh ids exceed every
   * explicit id, and if the explicit ids are distinct, all ids are.
   */
  lemma RenumberedDistinct(inp: seq<Record>, out: seq<Record>, c0: int)
    requires Renumbered(inp, out, c0)
    requires forall k :: 0 <= k < |inp| && !IsSentinel(inp[k]) ==> IdNum(inp[k]) <= c0
    requires forall k, l :: 0 <= k < l < |inp| && !IsSentinel(inp[k]) && !IsSentinel(inp[l]) ==>
      inp[k]["id"] != inp[l]["id"]
    ensures forall k :: 0 <= k < |inp| && IsSentinel(inp[k]) ==> out[k]["id"].JInt? && out[k]["id"].i > c0
    ensures forall k, l :: 0 <= k < l < |out| ==> out[k]["id"] != out[l]["id"]
  {
    forall k, l | 0 <= k < l < |out|
      ensures out[k]["id"] != out[l]["id"]
    {
      if IsSentinel(inp[k]) && IsSentinel(inp[l]) {
        SentinelsMonotone(inp, k, l);
      }
    }
  }

  /** With every image a sentinel, the image counter advances once per entry. */
  lemma {:induction false} Pass2ImageCount(entries: seq<Entry>, ic: int, ac: int, cats: seq<Record>)
    requires Pass2(entries, ic, ac, cats).Ok?
    requires forall k :: 0 <= k < |entries| ==> IsSentinel(entries[k].image)
    ensures Pass2(entries, ic, ac, cats).value.imgC == ic + |entries|
  {
    if entries != [] {
      var init := entries[..|entries| - 1];
      Pass2Last(entries, ic, ac, cats);
      assert forall k :: 0 <= k < |init| ==> init[k] == entries[k];
      Pass2ImageCount(init, ic, ac, cats);
    }
  }

  /** With every image a sentinel, image k gets id `ic + k + 1`. */
  lemma {:induction false} Pass2ImageAt(entries: seq<Entry>, ic: int, ac: int, cats: seq<Record>, k: nat)
    requires Pass2(entries, ic, ac, cats).Ok? && k < |entries|
    requires forall j :: 0 <= j < |entries| ==> IsSentinel(entries[j].image)
    ensures Pass2(entries, ic, ac, cats).value.images[k] == entries[k].image["id" := JInt(ic + k + 1)]
  {
    var init := entries[..|entries| - 1];
    Pass2Last(entries, ic, ac, cats);
    var prev := Pass2(init, ic, ac, cats).value;
    assert forall j :: 0 <= j < |init| ==> init[j] == entries[j];
    Pass2ImageCount(init, ic, ac, cats);
    if k < |init| {
      Pass2ImageAt(init, ic, ac, cats, k);
      assert Pass2(entries, ic, ac, cats).value.images[k] == prev.images[k];
    }
  }

  /** With every image a sentinel, annotations are stamped with an image id in `(ic, ic + |entries|]`. */
  lemma {:induction false} Pass2AnnImageIds(entries: seq<Entry>, ic: int, ac: int, cats: seq<Record>)
    requires Pass2(entries, ic, ac, cats).Ok?
    requires forall k :: 0 <= k < |entries| ==> IsSentinel(entries[k].image)
    ensures forall a: Record :: a in Pass2(entries, ic, ac, cats).value.anns ==>
      "image_id" in a && a["image_id"].JInt? && ic < a["image_id"].i <= ic + |entries|
  {
    if entries != [] {
      var init := entries[..|entries| - 1];
      var e := entries[|entries| - 1];
      Pass2Last(entries, ic, ac, cats);
      assert forall k :: 0 <= k < |init| ==> init[k] == entries[k];
      Pass2AnnImageIds(init, ic, ac, cats);
      Pass2ImageCount(init, ic, ac, cats);
      var prev := Pass2(init, ic, ac, cats).value;
      var fin := FinishAnns(e.anns, prev.imgC + 1, prev.annC, cats).value;
      FinishAnnsImageId(e.anns, prev.imgC + 1, prev.annC, cats);
      assert Pass2(entries, ic, ac, cats).value.anns == prev.anns + fin.0;
    }
  }

  /** Pass 2 over entries whose images are all synthesised: images numbered in order, annotations stamped within range. */
  lemma Pass2ImageIds(entries: seq<Entry>, ic: int, ac: int, cats: seq<Record>)
    requires Pass2(entries, ic, ac, cats).Ok?
    requires forall k :: 0 <= k < |entries| ==> IsSentinel(entries[k].image)
    ensures var st := Pass2(entries, ic, ac, cats).value;
      && st.imgC == ic + |entries|
      && (forall k :: 0 <= k < |entries| ==> st.images[k] == entries[k].image["id" := JInt(ic + k + 1)])
      && (forall a: Record :: a in st.anns ==> "image_id" in a && a["image_id"].JInt? && ic < a["image_id"].i <= ic + |entries|)
  {
    Pass2ImageCount(entries, ic, ac, cats);
    Pass2AnnImageIds(entries, ic, ac, cats);
    forall k | 0 <= k < |entries|
      ensures Pass2(entries, ic, ac, cats).value.images[k] == entries[k].image["id" := JInt(ic + k + 1)]
    {
      Pass2ImageAt(entries, ic, ac, cats, k);
    }
  }

  /** When every record of `rs` needs an id, each of them takes one from the counter. */
  lemma {:induction false} SentinelsAll(rs: seq<Record>)
    requires forall k :: 0 <= k < |rs| ==> IsSentinel(rs[k])
    ensures Sentinels(rs) == |rs|
  {
    if rs != [] {
      SentinelsAll(rs[..|rs| - 1]);
    }
  }

  /** Pass 2 emits one annotation per input record. */
  lemma {:induction false} Pass2AnnCount(entries: seq<Entry>, ic: int, ac: int, cats: seq<Record>)
    requires Pass2(entries, ic, ac, cats).Ok?
    ensures |Pass2(entries, ic, ac, cats).value.anns| == |AllAnns(entries)|
  {
    if entries != [] {
      Pass2Last(entries, ic, ac, cats);
      Pass2AnnCount(entries[..|entries| - 1], ic, ac, cats);
    }
  }

  /** Pass 2's annotations are those of the entries before the last, then the last entry's, finished. */
  lemma Pass2AnnsSnoc(entries: seq<Entry>, ic: int, ac: int, cats: seq<Record>)
    requires entries != [] && Pass2(entries, ic, ac, cats).Ok?
    ensures var init, e := entries[..|entries| - 1], entries[|entries| - 1];
      && Pass2(init, ic, ac, cats).Ok?
      && var prev := Pass2(init, ic, ac, cats).value;
      var st := Pass2(entries, ic, ac, cats).value;
      && FinishAnns(e.anns, st.imgC, prev.annC, cats).Ok?
      && st.anns == prev.anns + FinishAnns(e.anns, st.imgC, prev.annC, cats).value.0
  {
    Pass2Last(entries, ic, ac, cats);
  }

  /** The records of the last entry come out of pass 2 last, finished with the final image counter. */
  lemma Pass2AnnLast(entries: seq<Entry>, ic: int, ac: int, cats: seq<Record>, j: nat)
    requires Pass2(entries, ic, ac, cats).Ok? && entries != [] && j < |entries[|entries| - 1].anns|
    ensures var init := entries[..|entries| - 1];
      && |AllAnns(init)| + j < |Pass2(entries, ic, ac, cats).value.anns|
      && FinishedAs(Pass2(entries, ic, ac, cats).value.anns[|AllAnns(init)| + j], entries[|entries| - 1].anns[j],
                    ic + Sentinels(Images(entries)), cats)
  {
    var n := |entries| - 1;
    var init, e := entries[..n], entries[n];
    Pass2AnnsSnoc(entries, ic, ac, cats);
    Pass2AnnCount(init, ic, ac, cats);
    Pass2RenumberImages(entries, ic, ac, cats);
    var prev := Pass2(init, ic, ac, cats).value;
    var st := Pass2(entries, ic, ac, cats).value;
    var fin := FinishAnns(e.anns, st.imgC, prev.annC, cats).value.0;
    assert st.anns[|AllAnns(init)| + j] == fin[j];
    assert FinishedAs(fin[j], e.anns[j], st.imgC, cats) by {
      FinishAnnsFields(e.anns, st.imgC, prev.annC, cats);
    }
  }

  /**
   * Record j of entry k sits at position |AllAnns(entries[..k])| + j of `out`, finished with
   * image id `ic` plus the number of images among entries 0..k that needed an id.
   */
  ghost predicate FinishedAt(entries: seq<Entry>, out: seq<Record>, ic: int, cats: seq<Record>, k: nat, j: nat)
    requires k < |entries| && j < |entries[k].anns|
  {
    && |AllAnns(entries[..k])| + j < |out|
    && FinishedAs(out[|AllAnns(entries[..k])| + j], entries[k].anns[j], ic + Sentinels(Images(entries[..k + 1])), cats)
  }

  /** As FinishedAt, when every image needed an id: entry k's records carry image id `ic + k + 1`. */
  ghost predicate NumberedAt(entries: seq<Entry>, out: seq<Record>, ic: int, cats: seq<Record>, k: nat, j: nat)
    requires k < |entries| && j < |entries[k].anns|
  {
    && |AllAnns(entries[..k])| + j < |out|
    && FinishedAs(out[|AllAnns(entries[..k])| + j], entries[k].anns[j], ic + k + 1, cats)
  }

  /** Record j of entry k comes out of pass 2 in place, finished with entry k's image id. */
  lemma {:induction false} Pass2AnnAt(entries: seq<Entry>, ic: int, ac: int, cats: seq<Record>, k: nat, j: nat)
    requires Pass2(entries, ic, ac, cats).Ok? && k < |entries| && j < |entries[k].anns|
    ensures FinishedAt(entries, Pass2(entries, ic, ac, cats).value.anns, ic, cats, k, j)
    decreases |entries|
  {
    var n := |entries| - 1;
    var init := entries[..n];
    if k == n {
      Pass2AnnLast(entries, ic, ac, cats, j);
      assert entries[..k] == init && entries[..k + 1] == entries;
    } else {
      Pass2AnnAt(init, ic, ac, cats, k, j);
      FinishedAtExtend(entries, ic, ac, cats, k, j);
    }
  }

  /** A record pass 2 has finished stays where it is when a further entry is stamped. */
  lemma FinishedAtExtend(entries: seq<Entry>, ic: int, ac: int, cats: seq<Record>, k: nat, j: nat)
    requires Pass2(entries, ic, ac, cats).Ok? && k < |entries| - 1 && j < |entries[k].anns|
    requires var init := entries[..|entries| - 1];
      Pass2(init, ic, ac, cats).Ok? && FinishedAt(init, Pass2(init, ic, ac, cats).value.anns, ic, cats, k, j)
    ensures FinishedAt(entries, Pass2(entries, ic, ac, cats).value.anns, ic, cats, k, j)
  {
    var init := entries[..|entries| - 1];
    Pass2AnnsSnoc(entries, ic, ac, cats);
    var prev := Pass2(init, ic, ac, cats).value.anns;
    var anns := Pass2(entries, ic, ac, cats).value.anns;
    assert anns[..|prev|] == prev;
    FinishedAtSame(init, prev, entries, anns, ic, cats, k, j);
  }

  /** A finished record stays finished when more entries and more records follow. */
  lemma FinishedAtSame(e1: seq<Entry>, out1: seq<Record>, e2: seq<Entry>, out2: seq<Record>, ic: int, cats: seq<Record>, k: nat, j: nat)
    requires k < |e1| <= |e2| && e2[..|e1|] == e1 && j < |e1[k].anns|
    requires |out1| <= |out2| && out2[..|out1|] == out1
    requires FinishedAt(e1, out1, ic, cats, k, j)
    ensures FinishedAt(e2, out2, ic, cats, k, j)
  {
    assert e2[..k] == e1[..k] && e2[..k + 1] == e1[..k + 1] && e2[k] == e1[k];
    var pos := |AllAnns(e1[..k])| + j;
    assert out2[pos] == out1[pos];
  }

  /** Pass 2 emits each document's records in place, each finished with that document's image id. */
  lemma Pass2AnnFields(entries: seq<Entry>, ic: int, ac: int, cats: seq<Record>)
    requires Pass2(entries, ic, ac, cats).Ok?
    ensures |Pass2(entries, ic, ac, cats).value.anns| == |AllAnns(entries)|
    ensures forall k, j :: 0 <= k < |entries| && 0 <= j < |entries[k].anns| ==>
      FinishedAt(entries, Pass2(entries, ic, ac, cats).value.anns, ic, cats, k, j)
  {
    Pass2AnnCount(entries, ic, ac, cats);
    forall k, j | 0 <= k < |entries| && 0 <= j < |entries[k].anns|
      ensures FinishedAt(entries, Pass2(entries, ic, ac, cats).value.anns, ic, cats, k, j)
    {
      Pass2AnnAt(entries, ic, ac, cats, k, j);
    }
  }

  // ---------------------------------------------------------------------------------------
  // The whole conversion

  /** The COCO ground-truth dict: images, annotations and categories. */
  datatype CocoGt = CocoGt(images: seq<Record>, annotations: seq<Record>, categories: seq<Record>)

  /** The single category used when neither the caller nor the side-channel data provide one. */
  const DefaultCategories: seq<Record> :=
    [map["id" := JInt(0), "name" := JStr("text"), "supercategory" := JStr("")]]

  /** `categories`, or the side-channel `extdata['categories']`, or the default single category. */
  function ChooseCategories(categories: seq<Record>, ext: Option<seq<Record>>): (r: seq<Record>)
    ensures categories != [] ==> r == categories
    ensures categories == [] && ext.Some? ==> r == ext.value
    ensures categories == [] && ext.None? ==> r == DefaultCategories
  {
    if categories != [] then categories
    else if ext.Some? then ext.value
    else DefaultCategories
  }

  /** update_labelattr(points=True) on every document, as step 1.0 does one at a time. */
  function NormalizeAll(docs: seq<Document>, bbox: seq<Point> -> Json): (r: seq<Document>)
    ensures |r| == |docs| && forall k :: 0 <= k < |docs| ==> r[k] == NormalizeDoc(docs[k], true, bbox)
  {
    seq(|docs|, k requires 0 <= k < |docs| => NormalizeDoc(docs[k], true, bbox))
  }

  /** LabelmeDataset.to_coco_gt_dict on the dataset's documents, in order. */
  function Convert(docs: seq<Document>, categories: seq<Record>, ext: Option<seq<Record>>, bbox: seq<Point> -> Json)
    : Result<CocoGt, Error>
  {
    var cats := ChooseCategories(categories, ext);
    var scan :- Pass1(NormalizeAll(docs, bbox));
    var st :- Pass2(scan.entries, scan.imgMax, scan.annMax, cats);
    Ok(CocoGt(st.images, st.anns, cats))
  }

  /** After normalisation every document's image record is synthesised with the sentinel id. */
  lemma SynthesisedImages(docs: seq<Document>, bbox: seq<Point> -> Json)
    requires Pass1(NormalizeAll(docs, bbox)).Ok?
    ensures var entries := Pass1(NormalizeAll(docs, bbox)).value.entries;
      forall k :: 0 <= k < |docs| ==>
        entries[k].image == GenImage(-1, docs[k].imagePath, docs[k].imageHeight, docs[k].imageWidth)
  {
    var normalized := NormalizeAll(docs, bbox);
    Pass1Entries(normalized);
    forall k | 0 <= k < |docs|
      ensures ImageOf(normalized[k]) == Ok(GenImage(-1, docs[k].imagePath, docs[k].imageHeight, docs[k].imageWidth))
    {
      NoImageShapeAfterNormalize(docs[k], bbox);
    }
  }

  /**
   * Every document of a conversion gets a synthesised image, numbered 1, 2, ... in order, and
   * every annotation points at one of them.
   */
  lemma ConvertImages(docs: seq<Document>, categories: seq<Record>, ext: Option<seq<Record>>, bbox: seq<Point> -> Json)
    requires Convert(docs, categories, ext, bbox).Ok?
    ensures var gt := Convert(docs, categories, ext, bbox).value;
      && |gt.images| == |docs|
      && (forall k :: 0 <= k < |docs| ==>
            gt.images[k] == GenImage(k + 1, docs[k].imagePath, docs[k].imageHeight, docs[k].imageWidth))
      && (forall a: Record :: a in gt.annotations ==>
            "image_id" in a && a["image_id"].JInt? && 1 <= a["image_id"].i <= |docs|)
  {
    var normalized := NormalizeAll(docs, bbox);
    var scan := Pass1(normalized).value;
    SynthesisedImages(docs, bbox);
    Pass1ImageMax(normalized, bbox, docs);
    var cats := ChooseCategories(categories, ext);
    SynthesisedNumbered(scan.entries, docs, scan.annMax, cats);
    var st := Pass2(scan.entries, 0, scan.annMax, cats).value;
    assert Convert(docs, categories, ext, bbox).value == CocoGt(st.images, st.anns, cats);
    assert |scan.entries| == |normalized| == |docs|;
  }

  /**
   * Annotation j of document k, its j-th plain shape label after normalisation, comes out at
   * position |AllAnns(entries[..k])| + j: stamped with `image_id` k + 1, given the default
   * category when it has none, without `category_name`, and otherwise unchanged.
   */
  lemma ConvertAnnotations(docs: seq<Document>, categories: seq<Record>, ext: Option<seq<Record>>, bbox: seq<Point> -> Json)
    requires Convert(docs, categories, ext, bbox).Ok?
    ensures var gt := Convert(docs, categories, ext, bbox).value;
      var entries := Pass1(NormalizeAll(docs, bbox)).value.entries;
      && |entries| == |docs|
      && (forall k :: 0 <= k < |docs| ==> entries[k].anns == AnnLabels(NormalizeDoc(docs[k], true, bbox).shapes))
      && |gt.annotations| == |AllAnns(entries)|
      && forall k, j :: 0 <= k < |docs| && 0 <= j < |entries[k].anns| ==>
        NumberedAt(entries, gt.annotations, 0, gt.categories, k, j)
  {
    var normalized := NormalizeAll(docs, bbox);
    var scan := Pass1(normalized).value;
    var cats := ChooseCategories(categories, ext);
    assert |scan.entries| == |docs| &&
      forall k :: 0 <= k < |docs| ==> scan.entries[k].anns == AnnLabels(normalized[k].shapes) by {
      Pass1Entries(normalized);
    }
    assert forall i :: 0 <= i < |scan.entries| ==> IsSentinel(scan.entries[i].image) by {
      SynthesisedImages(docs, bbox);
    }
    assert scan.imgMax == 0 by {
      Pass1ImageMax(normalized, bbox, docs);
    }
    var st := Pass2(scan.entries, 0, scan.annMax, cats).value;
    assert Convert(docs, categories, ext, bbox).value == CocoGt(st.images, st.anns, cats);
    Pass2AnnCount(scan.entries, 0, scan.annMax, cats);
    SynthesisedAnns(scan.entries, 0, scan.annMax, cats);
  }

  /** With every image synthesised, the records of entry k are finished with image id `ic + k + 1`. */
  lemma SynthesisedAnns(entries: seq<Entry>, ic: int, ac: int, cats: seq<Record>)
    requires Pass2(entries, ic, ac, cats).Ok?
    requires forall i :: 0 <= i < |entries| ==> IsSentinel(entries[i].image)
    ensures forall k, j :: 0 <= k < |entries| && 0 <= j < |entries[k].anns| ==>
      NumberedAt(entries, Pass2(entries, ic, ac, cats).value.anns, ic, cats, k, j)
  {
    forall k, j | 0 <= k < |entries| && 0 <= j < |entries[k].anns|
      ensures NumberedAt(entries, Pass2(entries, ic, ac, cats).value.anns, ic, cats, k, j)
    {
      SynthesisedAnnAt(entries, ic, ac, cats, k, j);
    }
  }

  /** With every image synthesised, record j of entry k is finished with image id `ic + k + 1`. */
  lemma SynthesisedAnnAt(entries: seq<Entry>, ic: int, ac: int, cats: seq<Record>, k: nat, j: nat)
    requires Pass2(entries, ic, ac, cats).Ok? && k < |entries| && j < |entries[k].anns|
    requires forall i :: 0 <= i < |entries| ==> IsSentinel(entries[i].image)
    ensures NumberedAt(entries, Pass2(entries, ic, ac, cats).value.anns, ic, cats, k, j)
  {
    Pass2AnnAt(entries, ic, ac, cats, k, j);
    var imgs := Images(entries[..k + 1]);
    assert forall i :: 0 <= i < |imgs| ==> IsSentinel(imgs[i]) by {
      forall i | 0 <= i < |imgs|
        ensures IsSentinel(imgs[i])
      {
        assert imgs[i] == entries[i].image;
      }
    }
    SentinelsAll(imgs);
  }

  /** Pass 2 from image counter 0 numbers synthesised images 1, 2, ... and stamps annotations within that range. */
  lemma SynthesisedNumbered(entries: seq<Entry>, docs: seq<Document>, ac: int, cats: seq<Record>)
    requires |entries| == |docs| && Pass2(entries, 0, ac, cats).Ok?
    requires forall k :: 0 <= k < |docs| ==>
      entries[k].image == GenImage(-1, docs[k].imagePath, docs[k].imageHeight, docs[k].imageWidth)
    ensures var st := Pass2(entries, 0, ac, cats).value;
      && (forall k :: 0 <= k < |docs| ==>
            st.images[k] == GenImage(k + 1, docs[k].imagePath, docs[k].imageHeight, docs[k].imageWidth))
      && (forall a: Record :: a in st.anns ==> "image_id" in a && a["image_id"].JInt? && 1 <= a["image_id"].i <= |docs|)
  {
    Pass2ImageIds(entries, 0, ac, cats);
    forall k | 0 <= k < |docs|
      ensures Pass2(entries, 0, ac, cats).value.images[k] == GenImage(k + 1, docs[k].imagePath, docs[k].imageHeight, docs[k].imageWidth)
    {
      RestampImage(-1, k + 1, docs[k].imagePath, docs[k].imageHeight, docs[k].imageWidth);
    }
  }

  /** With every image synthesised, the image-id maximum of pass 1 stays at 0. */
  lemma {:induction false} Pass1ImageMax(normalized: seq<Document>, bbox: seq<Point> -> Json, docs: seq<Document>)
    requires normalized == NormalizeAll(docs, bbox)
    requires Pass1(normalized).Ok?
    ensures Pass1(normalized).value.imgMax == 0
    decreases |docs|
  {
    if docs != [] {
      var init := docs[..|docs| - 1];
      assert normalized[..|normalized| - 1] == NormalizeAll(init, bbox);
      Pass1ImageMax(normalized[..|normalized| - 1], bbox, init);
      NoImageShapeAfterNormalize(docs[|docs| - 1], bbox);
    }
  }

  /**
   * Annotation ids: explicit ids are kept, every assigned id exceeds every explicit id, and
   * when the explicit ids are distinct, so are all of them.
   */
  lemma ConvertAnnotationIds(docs: seq<Document>, categories: seq<Record>, ext: Option<seq<Record>>, bbox: seq<Point> -> Json)
    requires Convert(docs, categories, ext, bbox).Ok?
    ensures var gt := Convert(docs, categories, ext, bbox).value;
      var inp := AllAnns(Pass1(NormalizeAll(docs, bbox)).value.entries);
      && |gt.annotations| == |inp|
      && (forall k :: 0 <= k < |inp| ==> "id" in gt.annotations[k])
      && (forall k :: 0 <= k < |inp| && !IsSentinel(inp[k]) ==> gt.annotations[k]["id"] == inp[k]["id"])
      && (forall k, l :: 0 <= k < |inp| && IsSentinel(inp[k]) && 0 <= l < |inp| && !IsSentinel(inp[l]) ==>
            gt.annotations[k]["id"].JInt? && gt.annotations[k]["id"].i > IdNum(inp[l]))
      && ((forall k, l :: 0 <= k < l < |inp| && !IsSentinel(inp[k]) && !IsSentinel(inp[l]) ==> inp[k]["id"] != inp[l]["id"])
          ==> forall k, l :: 0 <= k < l < |gt.annotations| ==> gt.annotations[k]["id"] != gt.annotations[l]["id"])
  {
    var scan := Pass1(NormalizeAll(docs, bbox)).value;
    var cats := ChooseCategories(categories, ext);
    Pass1Bounds(NormalizeAll(docs, bbox));
    Pass2AnnotationIds(scan.entries, scan.imgMax, scan.annMax, cats);
    var st := Pass2(scan.entries, scan.imgMax, scan.annMax, cats).value;
    assert Convert(docs, categories, ext, bbox).value == CocoGt(st.images, st.anns, cats);
  }

  /** Pass 2 keeps explicit annotation ids and numbers the rest above every one of them. */
  lemma Pass2AnnotationIds(entries: seq<Entry>, ic: int, ac: int, cats: seq<Record>)
    requires Pass2(entries, ic, ac, cats).Ok?
    requires forall k, a :: 0 <= k < |entries| && a in entries[k].anns ==> IdOf(a).Ok? && IdOf(a).value <= ac
    ensures var out, inp := Pass2(entries, ic, ac, cats).value.anns, AllAnns(entries);
      && |out| == |inp|
      && (forall k :: 0 <= k < |out| ==> "id" in out[k])
      && (forall k :: 0 <= k < |inp| && !IsSentinel(inp[k]) ==> out[k]["id"] == inp[k]["id"])
      && (forall k, l :: 0 <= k < |inp| && IsSentinel(inp[k]) && 0 <= l < |inp| && !IsSentinel(inp[l]) ==>
            out[k]["id"].JInt? && out[k]["id"].i > IdNum(inp[l]))
      && ((forall k, l :: 0 <= k < l < |inp| && !IsSentinel(inp[k]) && !IsSentinel(inp[l]) ==> inp[k]["id"] != inp[l]["id"])
          ==> forall k, l :: 0 <= k < l < |out| ==> out[k]["id"] != out[l]["id"])
  {
    var inp := AllAnns(entries);
    var out := Pass2(entries, ic, ac, cats).value.anns;
    Pass2RenumberAnns(entries, ic, ac, cats);
    AllAnnsBounded(entries, ac);
    RenumberedFresh(inp, out, ac);
    if forall k, l :: 0 <= k < l < |inp| && !IsSentinel(inp[k]) && !IsSentinel(inp[l]) ==> inp[k]["id"] != inp[l]["id"] {
      RenumberedDistinct(inp, out, ac);
    }
  }

  lemma RenumberedFresh(inp: seq<Record>, out: seq<Record>, c0: int)
    requires Renumbered(inp, out, c0)
    ensures forall k :: 0 <= k < |inp| && IsSentinel(inp[k]) ==> out[k]["id"].JInt? && out[k]["id"].i > c0
  {
  }

  /** Every explicit annotation id pass 1 saw is an integer no greater than its maximum. */
  lemma {:induction false} AllAnnsBounded(entries: seq<Entry>, m: int)
    requires forall k, a :: 0 <= k < |entries| && a in entries[k].anns ==> IdOf(a).Ok? && IdOf(a).value <= m
    ensures forall k :: 0 <= k < |AllAnns(entries)| ==>
      IdOf(AllAnns(entries)[k]).Ok? && IdOf(AllAnns(entries)[k]).value <= m
    ensures forall k :: 0 <= k < |AllAnns(entries)| ==> IdNum(AllAnns(entries)[k]) <= m
  {
    if entries != [] {
      var init := entries[..|entries| - 1];
      var last := entries[|entries| - 1];
      assert forall k :: 0 <= k < |init| ==> init[k] == entries[k];
      AllAnnsBounded(init, m);
      var all := AllAnns(entries);
      assert all == AllAnns(init) + last.anns;
      forall k | 0 <= k < |all|
        ensures IdNum(all[k]) <= m
        ensures IdOf(all[k]).Ok? && IdOf(all[k]).value <= m
      {
        if k >= |AllAnns(init)| {
          var a := all[k];
          assert a == last.anns[k - |AllAnns(init)|];
          assert a in entries[|entries| - 1].anns;
          assert IdOf(a).Ok? && IdOf(a).value <= m;
        } else {
          assert all[k] == AllAnns(init)[k];
        }
      }
    }
  }

  /** Every emitted annotation has a category and no `category_name`. */
  lemma {:induction false} Pass2Categories(entries: seq<Entry>, ic: int, ac: int, cats: seq<Record>)
    requires Pass2(entries, ic, ac, cats).Ok?
    ensures forall a :: a in Pass2(entries, ic, ac, cats).value.anns ==>
      "category_id" in a && "category_name" !in a
  {
    if entries != [] {
      var init := entries[..|entries| - 1];
      Pass2Categories(init, ic, ac, cats);
      var prev := Pass2(init, ic, ac, cats).value;
      var e := entries[|entries| - 1];
      var icNow := Pass2(entries, ic, ac, cats).value.imgC;
      FinishAnnsFields(e.anns, icNow, prev.annC, cats);
      var fin := FinishAnns(e.anns, icNow, prev.annC, cats).value.0;
      forall a | a in fin
        ensures "category_id" in a && "category_name" !in a
      {
        var k :| 0 <= k < |fin| && fin[k] == a;
      }
    }
  }

  /** A document whose only shape carries `xltype: "bogus"` stops the conversion with ValueError. */
  lemma BogusXltype(d: Document, bbox: seq<Point> -> Json)
    requires |d.shapes| == 1 && d.shapes[0].labelValue.Raw?
    requires d.shapes[0].extra == map["xltype" := JStr("bogus")]
    ensures Convert([d], [], None, bbox).Err?
    ensures Convert([d], [], None, bbox).error.ValueError?
  {
    var n := NormalizeDoc(d, true, bbox);
    var attrs := LabelAttrs(n.shapes[0].labelValue);
    assert "xltype" in attrs && attrs["xltype"] == JStr("bogus");
    assert !Acceptable(attrs);
    NoImageShapeAfterNormalize(d, bbox);
    assert n.shapes[..0] == [];
    assert ShapeRecords(n.shapes, 0) == Err(ValueError("unknown xltype"));
    var normalized := NormalizeAll([d], bbox);
    assert normalized[..0] == [];
    assert normalized[0] == n;
    assert Pass1(normalized) == Err(ValueError("unknown xltype"));
  }
}
