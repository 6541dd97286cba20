# pyxllib labelme and pupil helpers, in Dafny

This project models two parts of pyxllib.

The first part is the Labelme annotation model of `pyxllib/data/labelme.py`:
- a Labelme document (`version`, `flags`, `shapes`, `imagePath`, `imageData`, `imageHeight`, `imageWidth`) and its shapes;
- shape construction (`gen_shape`, `gen_shape2`, `get_shape`, `get_shape2`, `add_shape`);
- the schema test `is_labelme_json_data`;
- the document edits `reduce`, `flip_points` and `update_labelattr`;
- the `Quad2Labelme` text converter;
- the `LabelmeDataset` operations `update_labelattrs` and `to_coco_gt_dict`, which turns a dataset into a COCO ground-truth dict.

The second part is a set of helpers from `pyxllib/algo/pupil.py`:
- natural sorting (`natural_sort_key`, `natural_sort`);
- the rank lookup of `make_index_function`;
- the `Groups` table and `Groups.groupby`;
- `intersection_split`;
- the greedy pair matcher `matchpairs`;
- `get_number_width`.

The modules are:

| module | file | what it holds |
|---|---|---|
| `Wrappers` | `wrappers.dfy` | `Option` and `Result` |
| `PyValues` | `pyvalues.dfy` | JSON values, Python exception kinds, decimal digits |
| `Labelme` | `labelme.dfy` | shapes and documents as values, and the pure forms of the operations |
| `LabelmeDocs` | `labelme_docs.dfy` | the dicts the source edits in place: `LabelmeDoc` and `Quad2Labelme` |
| `Coco` | `coco.dfy` | `to_coco_gt_dict` as two folds, and what they guarantee |
| `LabelmeDatasets` | `labelme_dataset.dfy` | class `LabelmeDataset`, whose loops are proved to compute those folds |
| `Sorting` | `sorting.dfy` | Python's stable `sorted` and its list `<` |
| `NaturalSort` | `natural_sort.dfy` | `re.split` on digit runs, the natural key, and `natural_sort` |
| `Pupil` | `pupil.dfy` | `make_index_function`, `Groups`, `intersection_split`, `get_number_width` |
| `MatchPairs` | `matchpairs.dfy` | `matchpairs` |

Where the source mutates state, the model is imperative:
- `LabelmeDoc`, `Quad2Labelme` and `LabelmeDataset` are classes whose methods update their fields.
- The loops of `to_coco_gt_dict`, `groupby` and `matchpairs` are `while` loops with invariants.
- Each of these methods is proved against a specification function or predicate, and the properties of those are proved as lemmas.

Where the code and its evident intent disagree, the model follows the code. In `to_coco_gt_dict`, the `xltype == 'image'` branch at `pyxllib/data/labelme.py:538-546` means the image record to come from a shape whose `xltype` is `image`. The lookup, however, reads `xltype` from the shape's own dict. By then `update_labelattr(points=True)` has moved every such key into the label, so the lookup never matches. Every image is therefore synthesised with the sentinel id -1 and numbered 1, 2, ... in document order. `Coco.NoImageShapeAfterNormalize` and `Coco.ConvertImages` state this.

## Model

| member | source | states |
|---|---|---|
| Labelme.IsLabelmeJsonData | pyxllib/data/labelme.py:131-137 | true exactly when all seven top-level Labelme keys are present |
| Labelme.DocumentsAreLabelmeData | pyxllib/data/labelme.py:131-137 | every document's dict passes the test; removing any one of the seven keys makes it fail |
| Labelme.DataBase | pyxllib/data/labelme.py:187-205 | the skeleton has no shapes, a null `imageData`, empty flags, and the given name, height and width |
| Labelme.Pairs | pyxllib/data/labelme.py:352 | `reshape(-1, 2)`: point k is (coords[2k], coords[2k+1]); half as many points as coordinates |
| Labelme.GenShape | pyxllib/data/labelme.py:343-371 | succeeds exactly when the coordinate count is even and there is a point or an explicit type, else ValueError; keeps the label, points, group id and flags; puts every other keyword in the shape's extra keys; an explicit type is kept |
| Labelme.GenShapeTypeByCount | pyxllib/data/labelme.py:354-363 | no points raises ValueError; 1 point gives `point`, 2 give `rectangle`, 3 or more give `polygon` |
| Labelme.LabelText | pyxllib/data/labelme.py:367 | `str(label)` never fails: a string is its own text, an int's text parses back to the int, and any other value (None, a bool, a list, a dict) is written as `repr` writes it |
| Labelme.GenShape2ListLabel | pyxllib/data/labelme.py:367-381 | `gen_shape2(label=[1], points=[3, 4])` succeeds, with the label text `[1]` |
| PyRepr.SortedKeys | pyxllib/data/labelme.py:367 | the keys of a dict, each once and no others, in strictly increasing code-point order |
| PyRepr.StrRepr | pyxllib/data/labelme.py:367 | `repr` of a string starts and ends with the same quote, which is `"` exactly when the text holds `'` and no `"` |
| PyRepr.UnescapeEscaped | pyxllib/data/labelme.py:367 | reading back the escapes written for either quote gives the text again |
| PyRepr.StrReprRoundTrip | pyxllib/data/labelme.py:367 | the text between the quotes of `repr(s)` unescapes to `s`, so different strings are written differently |
| PyRepr.Repr | pyxllib/data/labelme.py:367 | `str` of a non-string value is never empty; a string inside it is written as `StrRepr` writes it; a list is bracketed and a dict braced |
| PyRepr.ReprSingleton | pyxllib/data/labelme.py:367 | a one-item list is its item's text between brackets |
| PyRepr.ReprTwoFields | pyxllib/data/labelme.py:367 | a dict of two keys is written `{k1: v1, k2: v2}`, the smaller key first |
| PyRepr.ReprListExample | pyxllib/data/labelme.py:367 | `str([1])` is `[1]` |
| PyRepr.ReprDictExample | pyxllib/data/labelme.py:367 | `{'b': y, 'a': x}` is written `{'a': x, 'b': y}`: keys in sorted order (see Left out) |
| PyRepr.ReprQuoteExample | pyxllib/data/labelme.py:367 | `str(["it's"])` quotes the item with double quotes |
| Labelme.GenShape2 | pyxllib/data/labelme.py:373-381 | as written: no `points` raises KeyError('points'); no `label` raises KeyError('label'); otherwise the result is that of the defaulted form |
| Labelme.Stack | pyxllib/data/labelme.py:352 | `np.array` stacks a list exactly when its items are arrays of one shape, and the result's shape is the item count followed by that shape |
| Labelme.ToArraySize | pyxllib/data/labelme.py:352 | an array built from nested lists holds as many elements as its shape's product |
| Labelme.CoordsOfFlat | pyxllib/data/labelme.py:352 | a flat list of ints gives its ints unchanged |
| Labelme.CoordsOfPairs | pyxllib/data/labelme.py:352 | a list of [x, y] pairs gives the pairs' coordinates in order |
| Labelme.StackSingle | pyxllib/data/labelme.py:352 | wrapping an array in a one-item list adds an axis of length 1 and keeps the elements |
| Labelme.StackTriple | pyxllib/data/labelme.py:352 | three arrays of one shape stack into one holding their elements in order |
| Labelme.CoordsOfRaggedExample | pyxllib/data/labelme.py:352 | a ragged nesting `[[1, 2], [3]]` is refused, as numpy refuses it |
| Labelme.CoordsOfContourExample | pyxllib/data/labelme.py:352 | an OpenCV contour of shape (n, 1, 2) gives its n points' coordinates in order |
| Labelme.GenShape2Defaulted | pyxllib/data/labelme.py:373-381 | as intended: a missing label becomes ''; the label text, group id, flags and other keywords are carried into the shape; points that numpy cannot make a regular array of raise ValueError; point k is elements 2k and 2k+1 of the flattened array |
| Labelme.GenShape2Rectangle | pyxllib/data/labelme.py:352-381 | points of any nesting that flatten to four ints give a `rectangle` of two points |
| Labelme.GenShape2RowExample | pyxllib/data/labelme.py:352-381 | a single row `[[x0, y0, x1, y1]]` gives the rectangle (x0, y0), (x1, y1) |
| Labelme.GenShape2MissingLabel | pyxllib/data/labelme.py:373-381 | `gen_shape2(points=[3,4])` raises KeyError as written, and gives a one-point shape labelled '' as intended |
| Labelme.Reduced | pyxllib/data/labelme.py:383-389 | the result's dict is the input's with `imageData` set to None |
| Labelme.ReducedIdempotent | pyxllib/data/labelme.py:383-389 | reducing twice is reducing once, and the shapes are untouched |
| Labelme.Flipped | pyxllib/data/labelme.py:391-422 | an odd direction swaps width and height, an even one keeps them; the other fields are kept; rectangles and four-point polygons get warped points, and all other shapes are unchanged |
| Labelme.FlipDependsOnDirectionMod4 | pyxllib/data/labelme.py:391-422 | directions equal mod 4 give the same document, so -1 acts as 3 |
| Labelme.FlipTwiceOddRestoresCanvas | pyxllib/data/labelme.py:402-410 | two odd flips restore the original width and height |
| Labelme.NormalizeShape | pyxllib/data/labelme.py:424-453 | the label becomes an attribute map holding every extra key, and no extra key is left; label attributes that no extra key overrides are kept; no other key appears; with `points`, `bbox` is refreshed if present, otherwise `points` is added |
| Labelme.NormalizeShapeIdempotent | pyxllib/data/labelme.py:424-453 | updating a shape's label attributes twice is doing it once |
| Labelme.NormalizeDoc | pyxllib/data/labelme.py:424-453 | only the shapes change, each normalised in place in order |
| Labelme.NormalizedShapesHaveStdKeysOnly | pyxllib/data/labelme.py:424-453 | after the update no shape keeps a non-standard key |
| Labelme.NormalizeDocIdempotent | pyxllib/data/labelme.py:424-453 | updating a document twice is doing it once |
| Labelme.SplitMax | pyxllib/data/labelme.py:300 | `split(',', 8)` gives between 1 and maxsplit+1 parts |
| Labelme.SplitMaxCount | pyxllib/data/labelme.py:300 | one cut per separator, up to maxsplit cuts |
| Labelme.SplitMaxJoin | pyxllib/data/labelme.py:300 | joining the parts with the separator gives back the line |
| Labelme.SplitMaxSeparatorFree | pyxllib/data/labelme.py:300 | every part but the last is free of the separator |
| Labelme.SplitMaxLast | pyxllib/data/labelme.py:300 | with all cuts made, the last part is the text after the maxsplit-th separator |
| Labelme.StripLeftSpec | pyxllib/data/labelme.py:302 | `int()`'s left strip keeps a suffix that does not start with whitespace, and everything it removes is whitespace as `str.isspace` defines it |
| Labelme.StripRightSpec | pyxllib/data/labelme.py:302 | `int()`'s right strip keeps a prefix that does not end with whitespace, and everything it removes is whitespace as `str.isspace` defines it |
| Labelme.ParseIntDecimal | pyxllib/data/labelme.py:302 | `int(str(n)) == n` for every integer n, negatives included |
| Labelme.ParseInts | pyxllib/data/labelme.py:302 | one value per field, or ValueError |
| Labelme.ParseIntsSpec | pyxllib/data/labelme.py:302 | the list is built exactly when every field parses, and holds each field's value |
| Labelme.QuadLineSpec | pyxllib/data/labelme.py:300-303 | a line with fewer than 8 commas is skipped; ValueError exactly when the line has 8 commas and one of the first 8 fields is not an int; otherwise the 8 coordinates are the values of the first 8 fields, in order, and the label is the text after the 8th comma |
| Labelme.QuadLineShortExample | pyxllib/data/labelme.py:301 | "1,2,3,4" is skipped |
| Labelme.QuadShape | pyxllib/data/labelme.py:303-306 | eight ints give a four-point polygon with the label, which is exactly gen_shape's result |
| Labelme.QuadShapesAt | pyxllib/data/labelme.py:296-306 | per line: an error stops the loop, a short line adds nothing, a good line adds its polygon |
| Labelme.QuadShapesCount | pyxllib/data/labelme.py:296-306 | without an error, one shape per accepted line; every shape is a four-point polygon |
| LabelmeDocs.LabelmeDoc.constructor | pyxllib/data/labelme.py:309-313 | the dict holds the given document |
| LabelmeDocs.LabelmeDoc.Reduce | pyxllib/data/labelme.py:383-389 | in place: the new dict is `Reduced` of the old |
| LabelmeDocs.LabelmeDoc.FlipPoints | pyxllib/data/labelme.py:391-422 | in place, shape by shape: the new dict is `Flipped` of the old |
| LabelmeDocs.LabelmeDoc.UpdateLabelattr | pyxllib/data/labelme.py:424-453 | in place, shape by shape: the new dict is `NormalizeDoc` of the old |
| LabelmeDocs.Quad2Labelme.constructor | pyxllib/data/labelme.py:187-205 | `data` starts as the get_data_base skeleton |
| LabelmeDocs.Quad2Labelme.AddShape | pyxllib/data/labelme.py:246-247 | appends gen_shape's shape, or returns its error with `data` unchanged |
| LabelmeDocs.Quad2Labelme.GetData | pyxllib/data/labelme.py:296-306 | appends the shapes of the lines in order; an error stops the loop with the earlier shapes kept and is returned |
| Coco.IdOf | pyxllib/data/labelme.py:552-562 | `get('id', -1)` fed to `max`: an absent id is -1, an integer id is itself, a bool counts as 1 or 0; exactly the other ids (None, text, lists, dicts) raise |
| Coco.FindImageShapeSpec | pyxllib/data/labelme.py:540-546 | the lookup returns the first image-tagged shape, and nothing exactly when no shape is tagged |
| Coco.ImageOfSpec | pyxllib/data/labelme.py:538-551 | the first tagged shape gives the image record; an empty label raises ValueError, a label without `xltype` KeyError; with no tagged shape a record with id -1 is synthesised |
| Coco.NoImageShapeAfterNormalize | pyxllib/data/labelme.py:532-551 | after update_labelattr(points=True) no shape is tagged, so the image is always synthesised |
| Coco.ShapeRecordsAccepts | pyxllib/data/labelme.py:555-571 | the annotation list is built exactly when every shape's label is acceptable, and is the labels without `xltype`, in order |
| Coco.ShapeRecordsBounds | pyxllib/data/labelme.py:555-563 | the annotation maximum only grows, bounds every record's id, and is carried by some record unless it never moved |
| Coco.Pass1Accepts | pyxllib/data/labelme.py:529-572 | pass 1 raises exactly when some document has a bad image record or a bad shape |
| Coco.Pass1EntryAt | pyxllib/data/labelme.py:529-572 | entry k holds document k's image record and its annotation labels |
| Coco.Pass1Bounds | pyxllib/data/labelme.py:529-572 | both maxima start at 0 and bound every id pass 1 saw |
| Coco.DefaultCategoryId | pyxllib/data/labelme.py:590-591 | `categories[0]['id']`: IndexError for no categories, an error when the first has no id |
| Coco.FinishAnnId | pyxllib/data/labelme.py:586-588 | an explicit annotation id is kept; a sentinel gets the next counter value |
| Coco.FinishAnnFields | pyxllib/data/labelme.py:584-594 | the record is stamped with the image id, given the default category when it has none, loses `category_name`, and is otherwise unchanged |
| Coco.FinishAnnsFields | pyxllib/data/labelme.py:584-594 | the same holds for every record of a document, position by position |
| Coco.FinishAnnsRenumber | pyxllib/data/labelme.py:584-594 | a document's annotations are renumbered from the counter: the n-th sentinel gets counter + n + 1 |
| Coco.FinishAnnsImageId | pyxllib/data/labelme.py:584-585 | every annotation of a document carries the image id in force when it is reached |
| Coco.FinishAnnsError | pyxllib/data/labelme.py:590-591 | pass 2 fails exactly when some record lacks a category and the table has no usable first id |
| Coco.Pass2RenumberImages | pyxllib/data/labelme.py:575-581 | image ids over pass 2 follow the renumbering closed form, from pass 1's image maximum |
| Coco.Pass2RenumberAnns | pyxllib/data/labelme.py:575-594 | annotation ids over pass 2 follow the renumbering closed form, from pass 1's annotation maximum |
| Coco.RenumberedDistinct | pyxllib/data/labelme.py:562-588 | numbering from a counter at or above every explicit id gives fresh ids above them all; distinct explicit ids stay distinct |
| Coco.Pass2ImageIds | pyxllib/data/labelme.py:575-594 | with every image synthesised, image k gets id ic+k+1, and annotations point into that range |
| Coco.Pass2AnnAt | pyxllib/data/labelme.py:575-594 | record j of entry k comes out at position (records of entries 0..k-1) + j, finished with the image id in force for entry k |
| Coco.Pass2AnnFields | pyxllib/data/labelme.py:575-594 | pass 2 emits one record per input record, each in place and finished with its own entry's image id |
| Coco.SynthesisedAnns | pyxllib/data/labelme.py:575-594 | with every image synthesised, the records of entry k carry image id ic+k+1 |
| Coco.ChooseCategories | pyxllib/data/labelme.py:521-526 | the given categories, else the side-channel ones, else the single default category |
| Coco.NormalizeAll | pyxllib/data/labelme.py:530-532 | every document updated with points=True |
| Coco.ConvertImages | pyxllib/data/labelme.py:501-598 | one image per document, numbered 1..n in order, and every annotation's `image_id` lies in 1..n |
| Coco.ConvertAnnotations | pyxllib/data/labelme.py:501-598 | annotation j of document k is its j-th label after normalisation, placed after those of the earlier documents, stamped with `image_id` k+1, given the default category when it has none, without `category_name`, and otherwise unchanged |
| Coco.ConvertAnnotationIds | pyxllib/data/labelme.py:501-598 | explicit annotation ids are kept; assigned ids exceed every explicit id; distinct explicit ids make all ids distinct |
| Coco.Pass2Categories | pyxllib/data/labelme.py:590-592 | every emitted annotation has a `category_id` and no `category_name` |
| Coco.BogusXltype | pyxllib/data/labelme.py:564-571 | a shape with an unknown `xltype` stops the conversion with ValueError |
| LabelmeDatasets.FindImage | pyxllib/data/labelme.py:540-546 | the loop finds the first image-tagged shape, as `FindImageShape` specifies |
| LabelmeDatasets.ImageRecord | pyxllib/data/labelme.py:538-551 | computes `ImageOf` |
| LabelmeDatasets.CollectAnnotations | pyxllib/data/labelme.py:555-571 | the shape loop computes `ShapeRecords` |
| LabelmeDatasets.StampAnnotations | pyxllib/data/labelme.py:584-594 | the annotation loop computes `FinishAnns` |
| LabelmeDatasets.ScanDoc | pyxllib/data/labelme.py:530-572 | one step of pass 1 extends the fold by one document |
| LabelmeDatasets.NumberEntries | pyxllib/data/labelme.py:575-594 | the pass 2 loop computes `Pass2` |
| LabelmeDatasets.LabelmeDataset.constructor | pyxllib/data/labelme.py:455-471 | the table holds the given relpaths and dicts in order, with the side-channel categories |
| LabelmeDatasets.LabelmeDataset.UpdateLabelattrs | pyxllib/data/labelme.py:478-484 | every dict is updated in place, and the keys are unchanged |
| LabelmeDatasets.Reached | pyxllib/data/labelme.py:529-572 | pass 1 takes in every document when it succeeds, else exactly the documents up to and including the first one it fails on |
| LabelmeDatasets.LabelmeDataset.ScanDocs | pyxllib/data/labelme.py:529-572 | pass 1, normalising each dict in place when reached; the result is `Pass1` of the normalised documents; on success every dict is normalised, on failure exactly the dicts up to and including the failing one are, and the rest are untouched |
| LabelmeDatasets.LabelmeDataset.ToCocoGtDict | pyxllib/data/labelme.py:501-598 | the result is `Convert` of the original documents; when pass 1 succeeds every dict ends up normalised, when it fails exactly the dicts up to and including the failing one are, and the rest are untouched |
| Sorting.SortPermutes | pyxllib/algo/pupil.py:30-44 | `sorted` returns a permutation of its input |
| Sorting.SortSorts | pyxllib/algo/pupil.py:30-44 | under a strict order, no later element comes before an earlier one |
| Sorting.LexStrictOrder | pyxllib/algo/pupil.py:15-27 | Python's list `<` over a strict element order is a strict order |
| NaturalSort.SplitDigits | pyxllib/algo/pupil.py:15-27 | `re.split('([0-9]+)')` gives an odd number of parts, starting with an empty text run before a leading digit |
| NaturalSort.SplitDigitsConcat | pyxllib/algo/pupil.py:15-27 | the parts join back to the string |
| NaturalSort.SplitDigitsAlternates | pyxllib/algo/pupil.py:15-27 | text runs at even positions and non-empty maximal digit runs at odd positions |
| NaturalSort.NaturalKeyShape | pyxllib/algo/pupil.py:15-27 | the key alternates lower-cased text and integers, integers exactly at the odd positions |
| NaturalSort.NaturalKeysAligned | pyxllib/algo/pupil.py:15-27 | two keys hold integers at the same positions, so comparing them never mixes int and str |
| NaturalSort.KeyLessStrict | pyxllib/algo/pupil.py:30-44 | both comparisons of natural_sort are strict orders |
| NaturalSort.TextKeyLessStrict | pyxllib/algo/pupil.py:27-44 | comparing items of any type by the keys of their `str` is a strict order |
| NaturalSort.DigitsKeySpec | pyxllib/algo/pupil.py:36-42 | the `only_use_digits` key is the natural key's integers alone |
| NaturalSort.NaturalSortedSpec | pyxllib/algo/pupil.py:27-44 | for items of any type, natural_sort returns the items themselves, permuted, so that no later item's key of `str(item)` (the natural key, or the digits-only key) is below an earlier one's |
| NaturalSort.SplitDigitsText | pyxllib/algo/pupil.py:15-27 | a digit-free prefix joins the first text run |
| NaturalSort.SplitDigitsRun | pyxllib/algo/pupil.py:15-27 | a maximal digit run becomes an empty text run and the run, then the rest's split |
| NaturalSort.DottedOrder | pyxllib/algo/pupil.py:15-27 | "0.m.n" strings sort by the numbers m and n, not by their digits |
| NaturalSort.DottedExtension | pyxllib/algo/pupil.py:15-27 | "0.m.n" comes before "0.m.n.k" |
| NaturalSort.KeyPrefixExample | pyxllib/algo/pupil.py:15-27 | the key of '0.0.43' is below that of '0.0.43.1' |
| NaturalSort.KeyNumberExample | pyxllib/algo/pupil.py:15-27 | the key of '0.0.2' is below that of '0.0.12' |
| NaturalSort.NaturalSortExample | pyxllib/algo/pupil.py:30-44 | natural_sort(['0.1.12', '0.0.10', '0.0.23']) is ['0.0.10', '0.0.23', '0.1.12'] |
| NaturalSort.NumeralKey | pyxllib/algo/pupil.py:15-27 | the key of a decimal numeral is an empty text run, the number, and an empty text run |
| NaturalSort.NumeralOrder | pyxllib/algo/pupil.py:15-27 | numerals compare by value, not by their digits |
| NaturalSort.NaturalSortIntsExample | pyxllib/algo/pupil.py:27-44 | natural_sort([100, 9, 10]) sorts the ints through `str` and returns [9, 10, 100] |
| Pupil.MakeIndexFunction | pyxllib/algo/pupil.py:47-72 | the not-found value is `nan`, or `len(li)` when none is given |
| Pupil.IndexTableSpec | pyxllib/algo/pupil.py:47-72 | the table holds exactly the items of `li`, each at its last position plus `start` |
| Pupil.LookupPresent | pyxllib/algo/pupil.py:47-72 | an item of `li` maps to its last position plus `start`, whatever the default |
| Pupil.LookupMissing | pyxllib/algo/pupil.py:47-72 | a missing item gets the call's default, else `nan`, else `len(li)` |
| Pupil.MissingRanksLast | pyxllib/algo/pupil.py:47-72 | with the defaults, every missing item ranks after every listed one |
| Pupil.Groups.constructor | pyxllib/algo/pupil.py:115-133 | a dict is kept as it is, and each group's count is its size |
| Pupil.Numbered | pyxllib/algo/pupil.py:125-132 | a list becomes groups keyed 1..n, group k holding item k-1 |
| Pupil.FirstKeysSnoc | pyxllib/algo/pupil.py:141-157 | one more item appends its key to the key order when the key is not listed yet, and leaves the order as it is otherwise |
| Pupil.GroupBy | pyxllib/algo/pupil.py:141-157 | the groups are exactly the keys of the items, in order of each key's first item; group k holds, in order, `ykey(x)` (or `x`) for each x with key k; the sizes add up to the item count |
| Pupil.MembersAbsent | pyxllib/algo/pupil.py:141-157 | a key no item has would get an empty group |
| Pupil.Enumerate | pyxllib/algo/pupil.py:179-189 | iterating a set yields each key exactly once |
| Pupil.SortedItemsSpec | pyxllib/algo/pupil.py:179-189 | sorting the items of distinct keys lists each key once, with its value, in natural key order |
| Pupil.SortedItems | pyxllib/algo/pupil.py:179-189 | the dict's items for the keys, each once, in natural key order |
| Pupil.SplitSide | pyxllib/algo/pupil.py:179-189 | a set, list or tuple splits into the two key sets; a dict into the two sorted item lists; anything else raises ValueError |
| Pupil.IntersectionSplit | pyxllib/algo/pupil.py:160-193 | TypeError if an argument is not iterable; ValueError exactly when one is an unsupported iterable; otherwise each argument is split into the shared keys and its own keys: both first halves hold exactly the shared keys, and each argument's two halves are disjoint and together hold all its keys |
| Pupil.SplitKeys | pyxllib/algo/pupil.py:179-193 | for sets, lists, tuples and dicts alike, the two halves of each argument partition its keys, and the first halves of both are the shared keys |
| Pupil.NumberWidth | pyxllib/algo/pupil.py:259-273 | AssertionError exactly when n <= 0, else a width of at least 1 |
| Pupil.NumberWidthBounds | pyxllib/algo/pupil.py:259-273 | the width w satisfies 10^(w-1) <= n < 10^w |
| Pupil.NumberWidthDigits | pyxllib/algo/pupil.py:259-273 | the width is the length of n's decimal spelling |
| Pupil.NumberWidthExamples | pyxllib/algo/pupil.py:259-273 | 0 raises; 9, 10 and 97 have widths 1, 2 and 2 |
| MatchPairs.BeforeStrict | pyxllib/algo/pupil.py:241 | the sort key (-score, i, j) is a strict order |
| MatchPairs.BeforeTotal | pyxllib/algo/pupil.py:241 | candidates at different positions are always ordered |
| MatchPairs.AllPairs | pyxllib/algo/pupil.py:233-239 | the candidates are exactly the pairs scoring at least `least`, in row-major order |
| MatchPairs.Choose | pyxllib/algo/pupil.py:244-255 | the loop takes the greedy matching of the candidates and emits it in the requested shape, best score first |
| MatchPairs.MatchPairsOf | pyxllib/algo/pupil.py:196-256 | candidates are scored on the keyed items; the result is their greedy matching, as positions or as the original items; at most min(len(xs), len(ys)) pairs, each scoring at least `least`, in non-increasing score order; with `index`, each pair's positions and its score `cmp(key(xs[i]), key(ys[j]))`, and no position used twice |
| MatchPairs.Keyed | pyxllib/algo/pupil.py:226-230 | `key` applied to each item, or the items themselves |
| MatchPairs.GreedyDisjoint | pyxllib/algo/pupil.py:244-255 | no two chosen pairs share an x or a y |
| MatchPairs.GreedyOrdered | pyxllib/algo/pupil.py:241-255 | the pairs come out best score first, ties by position |
| MatchPairs.GreedyBound | pyxllib/algo/pupil.py:244-255 | at most min(len(xs), len(ys)) pairs |
| MatchPairs.GreedyUnique | pyxllib/algo/pupil.py:241-255 | the greedy matching is unique, so the specification fixes the result |

## Left out

- File and directory I/O is not part of this model: reading and writing JSON files, `BasicLabelDataset`, image probing for sizes, and `reduce_labelme_jsonfile`.
- Image names and sizes are parameters. This covers `ToLabelmeJson.__init__`, `Quad2Labelme`'s file reading (the lines are a parameter) and `LabelmeDataset.__init__`'s directory scan and empty-document generation (`gen_data`).
- The geometry of `flip_points` (`get_warp_mat`, `warp_points`, `resort_quad_points`) is the abstract parameter `Warp`. The bounding box of `update_labelattr` (`ltrb2xywh`, `rect_bounds`) is the abstract parameter `bbox`.
- Coordinates are integers. Floats and numpy dtypes (`dtype=`, `np.float` points) are not modelled. Points whose leaves are not ints (floats, bools, strings) give ValueError in the model, where numpy would convert some of them.
- `int()` is modelled for surrounding whitespace as `str.isspace` defines it, an optional sign and ASCII digits. Underscores and non-ASCII digits are not modelled. `str.lower` and natural keys are modelled for ASCII.
- Labelme.LabelText: a dict label's keys are written in sorted order, where Python writes them in insertion order, because a map keeps no insertion order. Non-ASCII characters that Python's `repr` escapes (unprintable ones) are kept as they are.
- Coco.IdOf: float ids are not modelled. When `max` leaves a counter equal to `True`, Python goes on with the bool where the model goes on with the integer 1.
- Labels are modelled as text or as attribute maps. The JSON text round trip of `json_loads`/`json_dumps` is not modelled.
- `CocoGtData.gen_image`, `gen_annotation` and `gen_gt_dict` are not part of this model. An image record is taken to be {id, file_name, height, width}, and annotations pass through.
- `LabelmeDataset.reduces` is left out. It iterates the dict as if it held pairs, so it cannot run on a non-empty dataset.
- `to_excel`, `plot`, `ValuesStat`, `Groups.stat` and `Groups.__repr__` are left out. They are reporting code.
- `rp2data` is modelled as aligned lists of relpaths and documents in insertion order.
- Sorting.SortSorts: the stability of `sorted` (equal keys keep their input order) is not stated as a lemma. `Insert` places equal elements after each other.
- MatchPairs.MatchPairsOf: scores are reals, so NaN and float rounding are not modelled. `key` maps items to items of the same type.
- MatchPairs.MatchPairsOf: its doctests are not replayed, because the method cannot be evaluated inside a lemma. The guarantees are stated for all inputs instead.
- Pupil.IntersectionSplit: elements are strings, so unhashable elements are not modelled. The order in which a set is iterated is left open (`Enumerate`); only the sorted dict items have a fixed order.
- Pupil.NumberWidth: it models the exact digit count. The source's `math.log10` on floats can be off by one for large n near a power of ten.
- Pupil.LookupPresent: the doctests of `make_index_function` use Chinese strings and are not replayed. The property they show is stated for all inputs.

## Findings

| source | as written | input that shows it | evidently intended | confidence | as-written member | corrected member |
|---|---|---|---|---|---|---|
| pyxllib/data/labelme.py:373-381 | `label` defaults to '' but `del kw['label']` runs unconditionally | `gen_shape2(points=[3, 4])` raises KeyError('label') | a missing label gives a shape labelled '' | not executed | Labelme.GenShape2MissingLabel | Labelme.GenShape2Defaulted |
