# Otolith annotation geometry, modelled in Dafny

This project models the geometric core of the otolith identification program. That program finds otolith sections on a photographed tray, groups them into rows and cuts each one out. The model covers:

- **BoundingBox**: one annotated region. It is normalised on creation and on update (x1 < x2, y1 < y2), and it rejects a zero width or height. It can be moved, resized about its centre, and converted to and from a dictionary.
- **BoundingBoxManager**: the editable list of raw `(x1, y1, x2, y2)` tuples. It supports append, remove-first-hit and edit-by-index.
- **AutoDetector post-processing**: the confidence/class filter over the detector's rows, Intersection over Union with its `1e-6` guard, and the in-place pass that pops the smaller of any two boxes whose IoU exceeds 0.6.
- **The prediction script's deduplication**: the score/label filters, and a second pass that measures overlap as a percentage of the smaller box and uses a limit of 60.
- **RowDetector**: the greedy top-to-bottom grouping of boxes into rows. The least-squares line fit is a parameter.
- **ImageCropper, without pixels**: row order, box order, lookup by id, clamping into the image, skipping empty regions, and the `row_XX_box_YY.png` names. The result is a list of crop descriptors.

Each source file is one module:

| file | module |
|---|---|
| `bounding_box.dfy` | `BoundingBoxes` |
| `bounding_box_manager.dfy` | `BoxManager` |
| `auto_detector.dfy` | `AutoDetection` |
| `predict.dfy` | `OverlapDedup` |
| `row_detector.dfy` | `RowDetection` |
| `image_cropper.dfy` | `ImageCropping` |

Three modules are shared:

- `Geometry` holds rectangles, areas, intersections, containment and Python's `int()`.
- `Sequences` holds Python's stable keyed sort, filtering comprehensions, `list.remove`, and the popped-subsequence bookkeeping.
- `Wrappers` holds `Option`, `Result` and `Outcome`.

Coordinates are `real`. Python's `int()` is truncation toward zero: floor for non-negative values.

Objects whose fields the source assigns in place are classes: `BoundingBox`, `BoundingBoxManager` and `RowDetector`. The loops of the source are methods with loop invariants. Each loop method is proved against predicates on its result or against a function that gives the whole result. Examples:

- `FindBoxesForLine` returns `KeepIf(boxes, Claimable(...))`.
- `CropAndSave` returns `Crops(...)`.
- `PopOverlapping` returns `Scan(input, 0, 1)`, a recursive function that follows the nested scan of `_remove_overlapping_boxes` index by index, and `DedupByOverlap` returns `DedupScan(input, 0, 1)`, which does the same for the prediction script.
- `DetectRows` returns `RowsFrom(managerBoxes, {}, lstsq)`, where each `Round` is one pass of the `while remaining_boxes` loop.

The properties the source promises are proved about those functions.

## Model

| member | source | states |
|---|---|---|
| Geometry.Area | Otolits_identyfication_program/bounding_box.py:34-36 | `(x2-x1)*(y2-y1)` is non-negative for corners in order and positive for a normalised box |
| Geometry.IntersectionArea | Otolits_identyfication_program/auto_detector.py:64-69 | `max(0, xi2 - xi1) * max(0, yi2 - yi1)` is non-negative, and positive exactly when both clamped spans are |
| Geometry.IntersectionSymmetric | Otolits_identyfication_program/auto_detector.py:64-69 | the clamped intersection area is the same whichever box comes first |
| Geometry.IntersectionWithinArea | Otolits_identyfication_program/auto_detector.py:64-70 | the intersection never exceeds the area of a box with corners in order |
| Geometry.DisjointNoIntersection | Otolits_identyfication_program/YOLO/predict.py:16-18 | boxes separated along x or y, touching included, have zero intersection because width and height are clamped at 0 |
| Geometry.InsideIntersection | Otolits_identyfication_program/YOLO/predict.py:10-25 | a box inside another intersects it with its whole area, and that area is the smaller one |
| Geometry.ContainsMonotone | Otolits_identyfication_program/bounding_box.py:25-28 | a point contained at tolerance t is contained at every t' >= t |
| Geometry.CornersContained | Otolits_identyfication_program/bounding_box.py:25-28 | the test is inclusive: all four corners are contained at tolerance 0 |
| Geometry.Translate | Otolits_identyfication_program/bounding_box.py:50-55 | shifting by (dx, dy) keeps width and height |
| Geometry.TranslateInverse | Otolits_identyfication_program/bounding_box.py:50-55 | a move by (dx, dy) followed by a move by (-dx, -dy) restores all four coordinates |
| Geometry.Trunc | Otolits_identyfication_program/auto_detector.py:59 | `int()` truncates toward zero: floor for x >= 0, ceiling for x < 0 |
| BoundingBoxes.Normalize | Otolits_identyfication_program/bounding_box.py:7-11 | error exactly when x1 == x2 or y1 == y2; otherwise x1 < x2, y1 < y2, and {x1,x2}, {y1,y2} are the input pairs |
| BoundingBoxes.NormalizeOrderFree | Otolits_identyfication_program/bounding_box.py:10-11 | swapping the two x's or the two y's gives the same box |
| BoundingBoxes.ResizedGeometry | Otolits_identyfication_program/bounding_box.py:57-66 | resize keeps the centre, and the width becomes c - a and the height d - b |
| BoundingBoxes.ResizedNormalized | Otolits_identyfication_program/bounding_box.py:57-66 | the resized box is normalised exactly when c - a > 0 and d - b > 0 (resize checks nothing) |
| BoundingBoxes.BoundingBox.constructor | Otolits_identyfication_program/bounding_box.py:10-13 | stores normalised coordinates, the label and the id |
| BoundingBoxes.BoundingBox.Create | Otolits_identyfication_program/bounding_box.py:5-13 | `__init__`: error exactly on zero width or height; otherwise a fresh valid box holding the normalised input, the label and the id |
| BoundingBoxes.BoundingBox.Update | Otolits_identyfication_program/bounding_box.py:18-23 | fails exactly on zero width or height, and then leaves all four fields unchanged; on success stores the normalised input |
| BoundingBoxes.BoundingBox.Contains | Otolits_identyfication_program/bounding_box.py:25-28 | every point of the box, edges included, is contained at any tolerance >= 0 |
| BoundingBoxes.BoundingBox.GetCoordinates | Otolits_identyfication_program/bounding_box.py:30-32 | the tuple is in normalised order exactly when the fields are |
| BoundingBoxes.BoundingBox.Area | Otolits_identyfication_program/bounding_box.py:34-36 | area equals width times height, and is positive for every valid box |
| BoundingBoxes.BoundingBox.Width | Otolits_identyfication_program/bounding_box.py:38-40 | the width of a valid box is positive |
| BoundingBoxes.BoundingBox.Height | Otolits_identyfication_program/bounding_box.py:42-44 | the height of a valid box is positive |
| BoundingBoxes.BoundingBox.AspectRatio | Otolits_identyfication_program/bounding_box.py:46-48 | ratio times height equals width; positive for a valid box; a zero height is excluded as in the source |
| BoundingBoxes.BoundingBox.Move | Otolits_identyfication_program/bounding_box.py:50-55 | coordinates become the translated ones; width, height, validity and label are kept |
| BoundingBoxes.BoundingBox.Resize | Otolits_identyfication_program/bounding_box.py:57-66 | coordinates become `Resized(...)`: same centre, width c - a, height d - b |
| BoundingBoxes.BoundingBox.ToDict | Otolits_identyfication_program/bounding_box.py:68-77 | the dictionary holds the id, the four coordinates and the label |
| BoundingBoxes.BoundingBox.FromDict | Otolits_identyfication_program/bounding_box.py:79-82 | goes through the constructor's check and normalisation, keeps the label, and takes the new id |
| BoundingBoxes.DictRoundTrip | Otolits_identyfication_program/bounding_box.py:68-82 | `from_dict(to_dict(b))` is a fresh box with b's coordinates and label and a new id |
| BoxManager.BoundingBoxManager.constructor | Otolits_identyfication_program/bounding_box_manager.py:2-3 | the list starts empty |
| BoxManager.BoundingBoxManager.AddBox | Otolits_identyfication_program/bounding_box_manager.py:5-7 | exactly one tuple is appended at the end; earlier entries are unchanged |
| BoxManager.BoundingBoxManager.RemoveBox | Otolits_identyfication_program/bounding_box_manager.py:9-15 | removes exactly the first box, in list order, that holds the point (edges included), keeping the others in order; with no hit the list is unchanged |
| BoxManager.BoundingBoxManager.EditBox | Otolits_identyfication_program/bounding_box_manager.py:17-20 | with 0 <= index < len, only that slot is replaced; any other index changes nothing; the length is kept |
| BoxManager.BoundingBoxManager.GetBoxes | Otolits_identyfication_program/bounding_box_manager.py:22-24 | the stored list, entry for entry |
| BoxManager.SelfTest | Otolits_identyfication_program/bounding_box_manager.py:29-46 | the file's own self-test, replayed on a fresh manager, leaves exactly the one edited box (70, 70, 120, 120) |
| Sequences.SortBy | Otolits_identyfication_program/row_detector.py:29 | the sort is a permutation of its input |
| Sequences.SortBySorted | Otolits_identyfication_program/image_cropper.py:44-49 | the sort puts elements in non-decreasing order of the key |
| Sequences.SortByStable | Otolits_identyfication_program/image_cropper.py:44-49 | the sort is stable: for every key value, the elements with that key keep their relative order |
| Sequences.KeepIfMembers | Otolits_identyfication_program/YOLO/predict.py:50-53 | a filtering comprehension keeps exactly the entries that satisfy its condition |
| Sequences.KeepIfAppend | Otolits_identyfication_program/row_detector.py:92-105 | filtering works entry by entry: filtering a concatenation concatenates the filtered parts |
| Sequences.RemoveFirst | Otolits_identyfication_program/bounding_box_manager.py:14 | `list.remove(v)` on a list that holds v: the length drops by one and the multiset loses exactly one v (a missing v is excluded, as Python raises `ValueError` there) |
| Sequences.RemoveFirstAt | Otolits_identyfication_program/bounding_box_manager.py:11-14 | when no earlier entry equals the one at k, `remove` deletes position k |
| Sequences.RemoveAllCounts | Otolits_identyfication_program/row_detector.py:45-47 | removing the claimed boxes one by one, when they are a sub-multiset, removes exactly their entries: the length drops by their number and the multisets add back up |
| Sequences.Pop | Otolits_identyfication_program/auto_detector.py:50-52 | `list.pop(p)` shortens the list by one, keeps the entries before p and shifts the later ones down |
| AutoDetection.FilterDetections | Otolits_identyfication_program/auto_detector.py:35-40 | at most one box per detector row; `FilterDetectionsSound` and `FilterDetectionsAppend` say which |
| AutoDetection.FilterDetectionsSound | Otolits_identyfication_program/auto_detector.py:35-40 | every kept box is `box[:4]` of an entry with confidence > 0.2 and class 1 |
| AutoDetection.FilterDetectionsAppend | Otolits_identyfication_program/auto_detector.py:35-40 | the filter works entry by entry and keeps input order: the filter of a + b is the filter of a followed by the filter of b |
| AutoDetection.CalculateIou | Otolits_identyfication_program/auto_detector.py:61-73 | IoU is 0 when the boxes do not intersect; a zero divisor is excluded, as Python raises there |
| AutoDetection.IouRange | Otolits_identyfication_program/auto_detector.py:62-73 | for boxes with corners in order the divisor exceeds the intersection, so 0 <= IoU < 1 |
| AutoDetection.IouSymmetric | Otolits_identyfication_program/auto_detector.py:62-73 | IoU and its divisor do not depend on argument order |
| AutoDetection.TruncAll | Otolits_identyfication_program/auto_detector.py:59 | each output tuple is the `int()` of the box at the same position |
| AutoDetection.ScanSound | Otolits_identyfication_program/auto_detector.py:44-57 | from any point of the scan on, `Scan` leaves a subsequence of the input in input order, with no overlapping pair, and every box it drops overlapped a box that was at least as large (strictly larger when the dropped one came later) |
| AutoDetection.ScanFromStart | Otolits_identyfication_program/auto_detector.py:42-58 | the same facts for the whole scan from (0, 1) |
| AutoDetection.ScanChainExample | Otolits_identyfication_program/auto_detector.py:44-57 | for (0,0,10,1), (2,0,11,1), (4,0,12,1), where the first two and the last two overlap but the outer two do not, the scan keeps the outer two: popping the middle box saves the last |
| AutoDetection.PopOverlapping | Otolits_identyfication_program/auto_detector.py:42-58 | the result is exactly `Scan(input, 0, 1)`, the nested scan that stays at i after popping j and restarts at i after popping i; it is the input with entries popped, order kept; no two survivors have IoU > 0.6; every popped box overlapped its keeper and was not larger, and box i goes on equal area |
| AutoDetection.TruncSurvivors | Otolits_identyfication_program/auto_detector.py:59 | the `int()` tuples of the survivors number at most the input boxes, and each is the `int()` of some input box |
| AutoDetection.RemoveOverlappingBoxes | Otolits_identyfication_program/auto_detector.py:42-59 | returns exactly the `int()` tuples of `Scan(input, 0, 1)`, in order: at most one per input box, each the `int()` of an input box, pairwise not overlapping, every removal justified and logged |
| AutoDetection.Detect | Otolits_identyfication_program/auto_detector.py:17-33 | no model or no image gives []; otherwise exactly `TruncAll(Scan(FilterDetections(raw), 0, 1))`: at most one output per detector row, each the `int()` of a row that passed the filter |
| OverlapDedup.OverlapPercentage | Otolits_identyfication_program/YOLO/predict.py:1-30 | 100 x intersection / smaller area, which is 0 when the boxes do not intersect; a zero smaller area is excluded |
| OverlapDedup.OverlapSymmetric | Otolits_identyfication_program/YOLO/predict.py:1-30 | the percentage does not depend on argument order |
| OverlapDedup.OverlapDisjoint | Otolits_identyfication_program/YOLO/predict.py:16-18 | disjoint or edge-touching boxes overlap by 0 |
| OverlapDedup.OverlapInside | Otolits_identyfication_program/YOLO/predict.py:10-28 | a box inside the other, in either order, overlaps by exactly 100 |
| OverlapDedup.OverlapRange | Otolits_identyfication_program/YOLO/predict.py:1-30 | for boxes of positive area the percentage lies in [0, 100] |
| OverlapDedup.FilterOtoliths | Otolits_identyfication_program/YOLO/predict.py:50-53 | the two comprehensions keep no more rows than they are given; `FilterOtolithsMembers` says which |
| OverlapDedup.FilterOtolithsMembers | Otolits_identyfication_program/YOLO/predict.py:50-53 | a row survives the two filters exactly when its score > 0.2 and its label is 1 |
| OverlapDedup.FilterAgreesWithDetector | Otolits_identyfication_program/YOLO/predict.py:50-53 | the script's two filters keep the same boxes, in the same order, as AutoDetector's `_filter_detections` |
| OverlapDedup.DedupSound | Otolits_identyfication_program/YOLO/predict.py:54-76 | from any point of the scan on, `DedupScan` leaves a subsequence of the input in input order, no row covering more than 60% of a later one, and every row it drops was over the limit with a row that was larger (at least as large when the dropped one came later) |
| OverlapDedup.DedupFromStart | Otolits_identyfication_program/YOLO/predict.py:54-76 | the same facts for the whole scan from (0, 1) |
| OverlapDedup.DedupByOverlap | Otolits_identyfication_program/YOLO/predict.py:54-76 | the result is exactly `DedupScan(input, 0, 1)`, the scan that pops i or the first over-limit j and then rescans from i; it is the input with rows popped, order kept; no row covers more than 60% of a later one; each pop is justified: i only when strictly smaller, otherwise j, so ties keep the earlier row |
| OverlapDedup.SelectOtoliths | Otolits_identyfication_program/YOLO/predict.py:49-76 | the final rows are exactly `DedupScan(FilterOtoliths(raw), 0, 1)`: a subsequence of the filtered rows in their order, all passing score and label, no pair over 60%, and every filtered row that is missing was dropped for a logged, justified reason |
| RowDetection.DistanceToLine | Otolits_identyfication_program/row_detector.py:96-100 | the vertical distance from a box centre to the line is non-negative, so a threshold of 0 or less claims nothing (see `Claimable`) |
| RowDetection.FitLineToBoxes | Otolits_identyfication_program/row_detector.py:73-85 | the row keeps the boxes it was fitted to, and a single box gives a horizontal line |
| RowDetection.SingleFitClaimsBox | Otolits_identyfication_program/row_detector.py:75-77 | the single-box line runs through the box's centre, so the box is claimed exactly when its id is unused |
| RowDetection.Claimable | Otolits_identyfication_program/row_detector.py:92-102 | the test never claims a box whose id is already used, and claims nothing when the threshold is 0 or less |
| RowDetection.RoundShrinks | Otolits_identyfication_program/row_detector.py:27-53 | every round takes at least one box off the unassigned list, so the loop ends |
| RowDetection.RowsFromStep | Otolits_identyfication_program/row_detector.py:27-53 | one round, spelled out: sort by y1, fit the candidate run, claim; with a claim the row is the fitted line and the claimed boxes leave, otherwise the top box alone forms the horizontal row through its centre and leaves |
| RowDetection.RoundShape | Otolits_identyfication_program/row_detector.py:27-53 | a round's row is a non-empty run of boxes sorted by y1 whose centres lie within 30 of the first, drawn from the boxes, and what is left is drawn from them too |
| RowDetection.RowsFromShape | Otolits_identyfication_program/row_detector.py:20-54 | every row of the rounds is such a run, there are no more rows than boxes, and there is a row exactly when there is a box |
| RowDetection.DetectedShape | Otolits_identyfication_program/row_detector.py:20-54 | the same facts for the rows `DetectRows` returns |
| RowDetection.RowDetector.constructor | Otolits_identyfication_program/row_detector.py:15-18 | no rows and no used ids |
| RowDetection.RunEnd | Otolits_identyfication_program/row_detector.py:64-69 | the loop over boxes[1:] stops at the first box whose centre is not within the threshold of the first centre, or at the end |
| RowDetection.RowDetector.SelectCandidateBoxes | Otolits_identyfication_program/row_detector.py:56-71 | returns `CandidateRun(boxes, threshold)`: empty input gives []; otherwise a non-empty prefix starting at boxes[0], all within the threshold of the first centre, stopping at the first box that is not |
| RowDetection.RowDetector.FindBoxesForLine | Otolits_identyfication_program/row_detector.py:87-105 | exactly the boxes, in input order, whose id is unused and whose centre lies closer than the threshold to the line |
| RowDetection.RowDetector.ClaimRowBoxes | Otolits_identyfication_program/row_detector.py:45-47 | the unassigned list becomes `RemoveAll(remaining, rowBoxes)`, one occurrence per claimed box, and exactly the claimed ids join usedBoxes |
| RowDetection.RowDetector.DetectRound | Otolits_identyfication_program/row_detector.py:28-53 | one pass of the loop body is exactly `Round`, takes at least one box off the list, unfolds `RowsFrom` by one row, and and leaves the used ids together with the ids still unassigned as they were |
| RowDetection.RowDetector.DetectRows | Otolits_identyfication_program/row_detector.py:20-54 | the rows are exactly `RowsFrom(managerBoxes, {}, lstsq)`, the rounds one after the other, and it ends with every manager box's id in usedBoxes; `DetectedShape` gives the shape of those rows |
| RowDetection.ExampleLineIsLeastSquares | Otolits_identyfication_program/row_detector.py:79-83 | y = 55/3 solves the normal equations for the centres (10, 10), (30, 10) and (20, 35), so it is the line `np.linalg.lstsq` fits to them |
| RowDetection.RepeatedBoxAsWritten | Otolits_identyfication_program/row_detector.py:38-51 | as written, for any fit that returns that least-squares line, the boxes (0,0,20,20), (20,0,40,20) and (10,5,30,65) give two rows, and the tall box sits in both |
| RowDetection.RoundClaimedParts | Otolits_identyfication_program/row_detector.py:41-47 | corrected round: its row holds exactly the boxes that leave the unassigned list, and at least one leaves |
| RowDetection.RowsClaimedPartition | Otolits_identyfication_program/row_detector.py:20-54 | corrected rows split the boxes: together they hold every box exactly once |
| ImageCropping.MinTop | Otolits_identyfication_program/image_cropper.py:45 | `min(b.y1 for b in row.boxes)` is some box's y1 and at most every box's y1 |
| ImageCropping.RowKey | Otolits_identyfication_program/image_cropper.py:44-45 | a near-horizontal row is keyed by its intercept; a sloped row with boxes by its least y1, which is some box's y1 |
| ImageCropping.RowOrder | Otolits_identyfication_program/image_cropper.py:44-45 | the rows are permuted into non-decreasing `RowKey` order |
| ImageCropping.BoxOrder | Otolits_identyfication_program/image_cropper.py:49 | a row's boxes are permuted into non-decreasing horizontal-centre order |
| ImageCropping.FindById | Otolits_identyfication_program/image_cropper.py:53-55 | None exactly when no box has the id; otherwise the first box with that id |
| ImageCropping.Clamp | Otolits_identyfication_program/image_cropper.py:59-62 | the result lies in [0, limit]; it is the floor inside the range, 0 below it and limit above it |
| ImageCropping.ClampMonotone | Otolits_identyfication_program/image_cropper.py:59-62 | clamping keeps the order of two coordinates |
| ImageCropping.ClampBox | Otolits_identyfication_program/image_cropper.py:58-62 | every clamped coordinate lies inside [0, w] x [0, h] |
| ImageCropping.Decimal | Otolits_identyfication_program/image_cropper.py:77 | `str(n)` is a non-empty digit string with 1 digit below 10 and at most 2 below 100 |
| ImageCropping.ParseDecimalInverse | Otolits_identyfication_program/image_cropper.py:77 | the decimal digits of n read back as n |
| ImageCropping.Pad2 | Otolits_identyfication_program/image_cropper.py:77 | `{n:02d}` is a digit string of length at least 2, exactly 2 below 100 |
| ImageCropping.Pad2Value | Otolits_identyfication_program/image_cropper.py:77 | the zero padding loses nothing: the digits read back as n |
| ImageCropping.FileName | Otolits_identyfication_program/image_cropper.py:77 | the name has 17 characters when both positions are below 100 |
| ImageCropping.FileNameInjective | Otolits_identyfication_program/image_cropper.py:77 | different (row, box) positions never share a file name |
| ImageCropping.CropFor | Otolits_identyfication_program/image_cropper.py:51-88 | a descriptor exists exactly when the id is found and the clamped region is non-empty; it carries the row and box positions, their file name, and the clamped coordinates of the first box with that id, inside the image |
| ImageCropping.Crops | Otolits_identyfication_program/image_cropper.py:22-92 | no image gives no crops; the `Crops*` lemmas below state the rest |
| ImageCropping.CropsExact | Otolits_identyfication_program/image_cropper.py:47-88 | every result is the descriptor of the box at its own (row, box) position, and every surviving box's descriptor is among the results |
| ImageCropping.CropsInOrder | Otolits_identyfication_program/image_cropper.py:47-88 | results appear in lexicographic (row position, box position) order |
| ImageCropping.CropsDistinctNames | Otolits_identyfication_program/image_cropper.py:77-81 | no two results share a file name |
| ImageCropping.CropsFollowLayout | Otolits_identyfication_program/image_cropper.py:44-49 | a later result never has a smaller row key, and within a row never a smaller horizontal centre |
| ImageCropping.CropsCount | Otolits_identyfication_program/image_cropper.py:47-88 | there are at most as many results as boxes across all rows |
| ImageCropping.CropBox | Otolits_identyfication_program/image_cropper.py:53-67 | the body of the inner loop, as a method, returns the descriptor `CropFor` gives for that box, or nothing |
| ImageCropping.CropRow | Otolits_identyfication_program/image_cropper.py:49-88 | the inner loop appends the row's descriptors, in box order, to the results so far |
| ImageCropping.CropAndSave | Otolits_identyfication_program/image_cropper.py:22-92 | no image gives []; otherwise the results are `Crops(...)`, in (row, box) order, with distinct file names, and at most one per box |

## Left out

- Pixels and files: the model emits descriptors only. The array slice, `.copy()`, the `cropped.size == 0` check, `cv2.imwrite`, the try/except, `os.makedirs` and the output directory of the cropper are not modelled. The same goes for `print`.
- The detector model, image loading and model loading (`YOLO(...)`, `self.model(image)`, `cv2.imread`) are not modelled. Their output is a parameter: a sequence of `Detection` rows, and two booleans for "model loaded" and "image given" in `Detect`.
- The prediction script's loop over image files, its drawing and its saving are not modelled. Only its filters and its deduplication loop are.
- `np.linalg.lstsq` is foreign numeric code. `FitLineToBoxes` takes it as an arbitrary function of the centre lists, so nothing is claimed about least-squares optimality.
- `draw_rows` is rendering only and is not modelled.
- `uuid4` is not modelled. Callers pass the fresh id in, so freshness of ids is not stated.
- Floating point is not modelled. Every coordinate is a `real`, `1e-6` is an exact constant, and no rounding happens.
- The `__str__` method of `BoundingBox` is not modelled; it only formats text.
- Python object identity is not modelled. `BoundingBox` is a plain class without `__eq__`, so `remaining_boxes.remove(box)` in `detect_rows` finds the first entry that IS the claimed object. Here boxes are values compared by their fields. Every box carries a unique id, so two distinct boxes never compare equal and value equality picks the same entry as identity would.
- BoxManager.BoundingBoxManager.GetBoxes: returns the list's value; Python hands out the list object itself, so a caller changing that list afterwards is not modelled.
- AutoDetection.CalculateIou: requires a non-zero divisor, which is where Python raises `ZeroDivisionError`.
- AutoDetection.PopOverlapping: requires every box to have its corners in order. The divisor is then positive, which detector boxes always satisfy.
- AutoDetection.RemoveOverlappingBoxes: has the same precondition as AutoDetection.PopOverlapping, for the same reason.
- AutoDetection.Detect: requires the boxes of the detector rows that pass the filter to have their corners in order, for the same reason.
- OverlapDedup.DedupByOverlap: requires every box to have positive width and height. The source only fails when the smaller area is 0.
- OverlapDedup.SelectOtoliths: requires the same of the rows that pass both filters, for the same reason.
- RowDetection.RowDetector.DetectRows: the shape of the rows (each a y1-sorted run of manager boxes within 30 of its first centre, no more rows than boxes, a row exactly when a box) is proved about `RowsFrom` by `DetectedShape`, which applies to the rows `DetectRows` returns, rather than repeated in the method's own contract. A row stores the candidate list given to the fit, as in the source (row_detector.py:44 and 85), not the boxes removed; see Findings.
- ImageCropping.CropAndSave: requires every sloped row to have at least one box, because Python's `min` over an empty row raises there.
- Two overlap passes differ on ties, and the model keeps both behaviours: `calculate_iou` adds `1e-6` to the divisor (auto_detector.py:73); `_remove_overlapping_boxes` pops box i on equal area (auto_detector.py:49-53), while the prediction script pops the later box j (YOLO/predict.py:71-74).

## Findings

| source | as written | input that shows it | evidently intended | confidence | as-written member | corrected member |
|---|---|---|---|---|---|---|
| Otolits_identyfication_program/row_detector.py:38-47 | the row appended is `line`, whose boxes are the candidates the line was fitted to, while the boxes removed and marked used are `row_boxes` | boxes (0,0,20,20), (20,0,40,20) and (10,5,30,65): all three are candidates, their least-squares line is y = 55/3, it claims only the first two, and the tall box becomes a second row, so it lies in two rows and is cropped twice | each row holds the boxes it claimed, so the rows split the boxes and each box is cropped once | not executed; the least-squares line is checked by its normal equations (`ExampleLineIsLeastSquares`) | RowDetection.RepeatedBoxAsWritten | RowDetection.RowsClaimedPartition |

`DetectRows` itself keeps the behaviour as written; `RowsClaimed` and `RoundClaimed` give the corrected rounds.
