/**
 * LabelmeDataset: the relpath -> labelme dict table of a dataset, normalised in place and
 * converted to a COCO ground-truth dict by to_coco_gt_dict's two loops. Each loop is proved to
 * compute the fold that the Coco module specifies.
 */
module LabelmeDatasets {
  import opened Wrappers
  import opened PyValues
  import opened Labelme
  import opened Coco

  // ---------------------------------------------------------------------------------------
  // A failure part-way through a prefix fold is the failure of the whole fold

  lemma {:induction false} ShapeRecordsErrSticks(shapes: seq<Shape>, j: nat, annMax: int)
    requires j <= |shapes| && ShapeRecords(shapes[..j], annMax).Err?
    ensures ShapeRecords(shapes, annMax) == ShapeRecords(shapes[..j], annMax)
    decreases |shapes|
  {
    if j < |shapes| {
      var init := shapes[..|shapes| - 1];
      assert init[..j] == shapes[..j];
      ShapeRecordsErrSticks(init, j, annMax);
    } else {
      assert shapes[..j] == shapes;
    }
  }

  lemma {:induction false} Pass1ErrSticks(docs: seq<Document>, j: nat)
    requires j <= |docs| && Pass1(docs[..j]).Err?
    ensures Pass1(docs) == Pass1(docs[..j])
    decreases |docs|
  {
    if j < |docs| {
      var init := docs[..|docs| - 1];
      assert init[..j] == docs[..j];
      Pass1ErrSticks(init, j);
    } else {
      assert docs[..j] == docs;
    }
  }

  lemma {:induction false} FinishAnnsErrSticks(anns: seq<Record>, j: nat, imgId: int, c: int, cats: seq<Record>)
    requires j <= |anns| && FinishAnns(anns[..j], imgId, c, cats).Err?
    ensures FinishAnns(anns, imgId, c, cats) == FinishAnns(anns[..j], imgId, c, cats)
    decreases |anns|
  {
    if j < |anns| {
      var init := anns[..|anns| - 1];
      assert init[..j] == anns[..j];
      FinishAnnsErrSticks(init, j, imgId, c, cats);
    } else {
      assert anns[..j] == anns;
    }
  }

  lemma {:induction false} Pass2ErrSticks(entries: seq<Entry>, j: nat, ic: int, ac: int, cats: seq<Record>)
    requires j <= |entries| && Pass2(entries[..j], ic, ac, cats).Err?
    ensures Pass2(entries, ic, ac, cats) == Pass2(entries[..j], ic, ac, cats)
    decreases |entries|
  {
    if j < |entries| {
      var init := entries[..|entries| - 1];
      assert init[..j] == entries[..j];
      Pass2ErrSticks(init, j, ic, ac, cats);
    } else {
      assert entries[..j] == entries;
    }
  }

  // ---------------------------------------------------------------------------------------
  // The loops of one document

  /** If shape `j` is the first tagged one, the lookup returns `j`. */
  lemma {:induction false} FirstTagged(shapes: seq<Shape>, j: nat)
    requires j < |shapes| && TaggedImage(shapes[j])
    requires forall k :: 0 <= k < j ==> !TaggedImage(shapes[k])
    ensures FindImageShape(shapes) == Some(j)
  {
    if j > 0 {
      FirstTagged(shapes[1..], j - 1);
    }
  }

  /** Step 1.1.1: the loop over the image-tagged shapes, left at the first one. */
  method FindImage(shapes: seq<Shape>) returns (found: Option<nat>)
    ensures found == FindImageShape(shapes)
  {
    var j := 0;
    while j < |shapes|
      invariant 0 <= j <= |shapes|
      invariant forall k :: 0 <= k < j ==> !TaggedImage(shapes[k])
    {
      if TaggedImage(shapes[j]) {
        FirstTagged(shapes, j);
        return Some(j);
      }
      j := j + 1;
    }
    FindImageShapeSpec(shapes);
    return None;
  }

  /** Step 1.1: the document's image record, from its first image-tagged shape or synthesised. */
  method ImageRecord(d: Document) returns (r: Result<Record, Error>)
    ensures r == ImageOf(d)
  {
    var found := FindImage(d.shapes);
    if found.None? {
      return Ok(GenImage(-1, d.imagePath, d.imageHeight, d.imageWidth));
    }
    var image := LabelAttrs(d.shapes[found.value].labelValue);
    if image == map[] {
      return Err(ValueError("empty image label"));
    }
    if "xltype" !in image {
      return Err(KeyError("xltype"));
    }
    return Ok(image - {"xltype"});
  }

  /** Step 1.2: the loop over the shapes, collecting annotation labels and the id maximum. */
  method CollectAnnotations(shapes: seq<Shape>, annMax: int) returns (r: Result<(seq<Record>, int), Error>)
    ensures r == ShapeRecords(shapes, annMax)
  {
    var recs: seq<Record> := [];
    var m := annMax;
    var j := 0;
    while j < |shapes|
      invariant 0 <= j <= |shapes|
      invariant ShapeRecords(shapes[..j], annMax) == Ok((recs, m))
    {
      assert shapes[..j + 1][..j] == shapes[..j];
      var attrs := LabelAttrs(shapes[j].labelValue);
      if "xltype" !in attrs {
        var id := IdOf(attrs);
        if id.Err? {
          ShapeRecordsErrSticks(shapes, j + 1, annMax);
          return Err(id.error);
        }
        recs, m := recs + [attrs], Max(m, id.value);
      } else if attrs["xltype"] != JStr("image") && attrs["xltype"] != JStr("seg") {
        ShapeRecordsErrSticks(shapes, j + 1, annMax);
        return Err(ValueError("unknown xltype"));
      }
      j := j + 1;
    }
    assert shapes[..j] == shapes;
    return Ok((recs, m));
  }

  /** Step 2.2: the loop over one document's annotation records. */
  method StampAnnotations(anns: seq<Record>, imgId: int, c: int, cats: seq<Record>)
    returns (r: Result<(seq<Record>, int), Error>)
    ensures r == FinishAnns(anns, imgId, c, cats)
  {
    var out: seq<Record> := [];
    var counter := c;
    var j := 0;
    while j < |anns|
      invariant 0 <= j <= |anns|
      invariant FinishAnns(anns[..j], imgId, c, cats) == Ok((out, counter))
    {
      assert anns[..j + 1][..j] == anns[..j];
      var fin := FinishAnn(anns[j], imgId, counter, cats);
      if fin.Err? {
        FinishAnnsErrSticks(anns, j + 1, imgId, c, cats);
        return Err(fin.error);
      }
      out, counter := out + [fin.value.0], fin.value.1;
      j := j + 1;
    }
    assert anns[..j] == anns;
    return Ok((out, counter));
  }

  /** Step 1 for one normalised document: its image record, its id, its annotation labels. */
  method ScanDoc(ghost done: seq<Document>, d: Document, sc: Scan) returns (r: Result<Scan, Error>)
    requires Pass1(done) == Ok(sc)
    ensures r == Pass1(done + [d])
  {
    ghost var docs := done + [d];
    assert docs[..|docs| - 1] == done && docs[|docs| - 1] == d;
    var image := ImageRecord(d);
    if image.Err? {
      return Err(image.error);
    }
    var id := IdOf(image.value);
    if id.Err? {
      return Err(id.error);
    }
    var recs := CollectAnnotations(d.shapes, sc.annMax);
    if recs.Err? {
      return Err(recs.error);
    }
    return Ok(Scan(sc.entries + [Entry(image.value, recs.value.0)], Max(sc.imgMax, id.value), recs.value.1));
  }

  /** The first `n` documents normalised, the rest as they were. */
  predicate NormalizedPrefix(before: seq<Document>, after: seq<Document>, n: nat, bbox: seq<Point> -> Json) {
    && n <= |before| == |after|
    && (forall k :: 0 <= k < n ==> after[k] == NormalizeDoc(before[k], true, bbox))
    && (forall k :: n <= k < |before| ==> after[k] == before[k])
  }

  /**
   * How many documents pass 1 over `ds` takes in: all of them when it succeeds, else those up
   * to and including the first one it fails on.
   */
  function Reached(ds: seq<Document>): (n: nat)
    ensures n <= |ds|
    ensures Pass1(ds).Ok? ==> n == |ds|
    ensures Pass1(ds).Err? ==> 0 < n && Pass1(ds[..n - 1]).Ok? && Pass1(ds[..n]).Err?
  {
    if ds == [] then 0
    else
      var init := ds[..|ds| - 1];
      if Pass1(init).Err? then
        assert init[..|init|] == init;
        Pass1ErrSticks(ds, |init|);
        var n := Reached(init);
        assert ds[..n] == init[..n] && ds[..n - 1] == init[..n - 1];
        n
      else
        assert ds[..|ds|] == ds;
        |ds|
  }

  /** Pass 1 first fails on document i exactly when it takes in i + 1 documents. */
  lemma {:induction false} ReachedAt(ds: seq<Document>, i: nat)
    requires i < |ds| && Pass1(ds[..i]).Ok? && Pass1(ds[..i + 1]).Err?
    ensures Reached(ds) == i + 1
    decreases |ds|
  {
    var init := ds[..|ds| - 1];
    if |ds| > i + 1 {
      assert init[..i + 1] == ds[..i + 1] && init[..i] == ds[..i];
      Pass1ErrSticks(init, i + 1);
      ReachedAt(init, i);
    } else {
      assert init == ds[..i];
    }
  }

  /** Pass 1 stopping at document i leaves documents 0..i normalised, which is what it takes in. */
  lemma StoppedAt(before: seq<Document>, after: seq<Document>, normalized: seq<Document>, i: nat, bbox: seq<Point> -> Json)
    requires normalized == NormalizeAll(before, bbox) && i < |normalized|
    requires NormalizedPrefix(before, after, i + 1, bbox)
    requires Pass1(normalized[..i]).Ok? && Pass1(normalized[..i + 1]).Err?
    ensures Pass1(normalized) == Pass1(normalized[..i + 1])
    ensures NormalizedPrefix(before, after, Reached(normalized), bbox)
    ensures PartlyNormalized(before, after, bbox)
  {
    Pass1ErrSticks(normalized, i + 1);
    ReachedAt(normalized, i);
  }

  /** Some prefix of the documents normalised, the rest as they were. */
  ghost predicate PartlyNormalized(before: seq<Document>, after: seq<Document>, bbox: seq<Point> -> Json) {
    exists n: nat :: NormalizedPrefix(before, after, n, bbox)
  }

  /**
   * The dataset's `rp2data` dict, in insertion order, as its keys (`relpaths`) and its labelme
   * dicts (`docs`), and the `categories` entry of its side-channel data, when there is one.
   */
  class LabelmeDataset {
    var relpaths: seq<string>
    var docs: seq<Document>
    var extCategories: Option<seq<Record>>

    /** Each key has its dict. */
    ghost predicate Valid()
      reads this
    {
      |relpaths| == |docs|
    }

    constructor (rp2data: seq<(string, Document)>, extCategories: Option<seq<Record>>)
      ensures Valid() && this.extCategories == extCategories
      ensures |docs| == |rp2data|
      ensures forall k :: 0 <= k < |rp2data| ==> relpaths[k] == rp2data[k].0 && docs[k] == rp2data[k].1
    {
      relpaths := seq(|rp2data|, k requires 0 <= k < |rp2data| => rp2data[k].0);
      docs := seq(|rp2data|, k requires 0 <= k < |rp2data| => rp2data[k].1);
      this.extCategories := extCategories;
    }

    /** LabelmeDataset.update_labelattrs: update_labelattr on every dict, in place. */
    method UpdateLabelattrs(points: bool, bbox: seq<Point> -> Json)
      requires Valid()
      modifies this
      ensures Valid() && relpaths == old(relpaths) && extCategories == old(extCategories)
      ensures |docs| == |old(docs)|
      ensures forall k :: 0 <= k < |docs| ==> docs[k] == NormalizeDoc(old(docs)[k], points, bbox)
    {
      var i := 0;
      while i < |docs|
        invariant 0 <= i <= |docs| == |old(docs)|
        invariant relpaths == old(relpaths) && extCategories == old(extCategories)
        invariant forall k :: 0 <= k < i ==> docs[k] == NormalizeDoc(old(docs)[k], points, bbox)
        invariant forall k :: i <= k < |docs| ==> docs[k] == old(docs)[k]
      {
        docs := docs[i := NormalizeDoc(docs[i], points, bbox)];
        i := i + 1;
      }
    }

    /**
     * Pass 1 of to_coco_gt_dict: each dict is normalised in place (update_labelattr with
     * points=True) as the loop reaches it, then scanned.
     */
    method ScanDocs(bbox: seq<Point> -> Json) returns (r: Result<Scan, Error>)
      requires Valid()
      modifies this
      ensures r == Pass1(NormalizeAll(old(docs), bbox))
      ensures Valid() && relpaths == old(relpaths) && extCategories == old(extCategories)
      ensures r.Ok? ==> docs == NormalizeAll(old(docs), bbox)
      ensures r.Err? ==> NormalizedPrefix(old(docs), docs, Reached(NormalizeAll(old(docs), bbox)), bbox)
      ensures PartlyNormalized(old(docs), docs, bbox)
    {
      ghost var normalized := NormalizeAll(docs, bbox);
      var sc := Scan([], 0, 0);
      var i := 0;
      while i < |docs|
        invariant 0 <= i <= |docs| == |old(docs)|
        invariant relpaths == old(relpaths) && extCategories == old(extCategories)
        invariant NormalizedPrefix(old(docs), docs, i, bbox)
        invariant Pass1(normalized[..i]) == Ok(sc)
      {
        var d := NormalizeDoc(docs[i], true, bbox);
        docs := docs[i := d];
        assert NormalizedPrefix(old(docs), docs, i + 1, bbox);
        assert normalized[..i + 1] == normalized[..i] + [d];
        var next := ScanDoc(normalized[..i], d, sc);
        if next.Err? {
          StoppedAt(old(docs), docs, normalized, i, bbox);
          return next;
        }
        sc := next.value;
        i := i + 1;
      }
      assert normalized[..i] == normalized;
      assert docs == normalized;
      return Ok(sc);
    }

    /** LabelmeDataset.to_coco_gt_dict: the category choice, pass 1, then pass 2. */
    method ToCocoGtDict(categories: seq<Record>, bbox: seq<Point> -> Json) returns (r: Result<CocoGt, Error>)
      requires Valid()
      modifies this
      ensures r == Convert(old(docs), categories, old(extCategories), bbox)
      ensures Valid() && relpaths == old(relpaths) && extCategories == old(extCategories)
      ensures Pass1(NormalizeAll(old(docs), bbox)).Ok? ==> docs == NormalizeAll(old(docs), bbox)
      ensures Pass1(NormalizeAll(old(docs), bbox)).Err? ==>
        NormalizedPrefix(old(docs), docs, Reached(NormalizeAll(old(docs), bbox)), bbox)
      ensures PartlyNormalized(old(docs), docs, bbox)
    {
      var cats := ChooseCategories(categories, extCategories);
      var scan := ScanDocs(bbox);
      if scan.Err? {
        return Err(scan.error);
      }
      var st := NumberEntries(scan.value.entries, scan.value.imgMax, scan.value.annMax, cats);
      if st.Err? {
        return Err(st.error);
      }
      return Ok(CocoGt(st.value.images, st.value.anns, cats));
    }
  }

  /** Pass 2 of to_coco_gt_dict: numbers the sentinel images and stamps every annotation. */
  method NumberEntries(data: seq<Entry>, imgId: int, annId: int, cats: seq<Record>) returns (r: Result<Stamped, Error>)
    ensures r == Pass2(data, imgId, annId, cats)
  {
    var images: seq<Record> := [];
    var annotations: seq<Record> := [];
    var imgC, annC := imgId, annId;
    var e := 0;
    while e < |data|
      invariant 0 <= e <= |data|
      invariant Pass2(data[..e], imgId, annId, cats) == Ok(Stamped(images, annotations, imgC, annC))
    {
      assert data[..e + 1][..e] == data[..e];
      var image := data[e].image;
      if IsSentinel(image) {
        imgC := imgC + 1;
        image := image["id" := JInt(imgC)];
      }
      images := images + [image];
      var stamped := StampAnnotations(data[e].anns, imgC, annC, cats);
      if stamped.Err? {
        Pass2ErrSticks(data, e + 1, imgId, annId, cats);
        return Err(stamped.error);
      }
      annotations := annotations + stamped.value.0;
      annC := stamped.value.1;
      e := e + 1;
    }
    assert data[..e] == data;
    return Ok(Stamped(images, annotations, imgC, annC));
  }
}
