/**
  ImageCropper.crop_and_save without the pixels: it orders the detected rows
  from top to bottom and the boxes of each row from left to right, looks up
  each box's full-resolution coordinates by id, clamps them into the image,
  drops boxes that clamp to nothing, and names each crop
  row_XX_box_YY.png after its two positions.
 */
module ImageCropping {
  import opened Wrappers
  import opened Geometry
  import opened Sequences
  import opened BoundingBoxes
  import opened RowDetection

  /** A row whose |slope| is below this is ordered by its intercept. */
  const HorizontalSlope: real := 0.01

  /** original_image.shape[:2]; the pixel array itself is not modelled. */
  datatype Shape = Shape(height: nat, width: nat)

  /** A CropResult without its image field. */
  datatype CropResult = CropResult(boxIndex: nat, rowIndex: nat, originalCoords: IntRect, filename: string)

  // ---------------------------------------------------------------- ordering

  /** min(b.y1 for b in boxes). */
  function MinTop(boxes: seq<Box>): (m: real)
    requires boxes != []
    ensures exists k :: 0 <= k < |boxes| && m == boxes[k].y1
    ensures forall k :: 0 <= k < |boxes| ==> m <= boxes[k].y1
  {
    if |boxes| == 1 then boxes[0].y1
    else
      var rest := MinTop(boxes[1..]);
      assert forall k :: 1 <= k < |boxes| ==> boxes[k] == boxes[1..][k - 1];
      if rest < boxes[0].y1 then rest else boxes[0].y1
  }

  /** Python's min raises on a sloped row without boxes; the row sort needs this of every row. */
  predicate HasRowKey(row: RowLine) {
    Abs(row.slope) < HorizontalSlope || row.boxes != []
  }

  /**
    The key of the row sort: the intercept of a near-horizontal line, and
    otherwise the top edge of the row's highest box. The value for a sloped
    row without boxes is never used (see HasRowKey).
   */
  function RowKey(row: RowLine): (k: real)
    ensures Abs(row.slope) < HorizontalSlope ==> k == row.intercept
    ensures Abs(row.slope) >= HorizontalSlope && row.boxes != [] ==>
      (exists i :: 0 <= i < |row.boxes| && k == row.boxes[i].y1) && forall i :: 0 <= i < |row.boxes| ==> k <= row.boxes[i].y1
  {
    if Abs(row.slope) < HorizontalSlope then row.intercept
    else if row.boxes == [] then 0.0
    else MinTop(row.boxes)
  }

  /** sorted(rows, key=RowKey). */
  function RowOrder(rows: seq<RowLine>): (r: seq<RowLine>)
    ensures |r| == |rows| && multiset(r) == multiset(rows)
    ensures SortedBy(r, RowKey)
  {
    SortBySorted(rows, RowKey);
    SortBy(rows, RowKey)
  }

  /** sorted(row.boxes, key=lambda b: (b.x1 + b.x2) / 2). */
  function BoxOrder(row: RowLine): (r: seq<Box>)
    ensures |r| == |row.boxes| && multiset(r) == multiset(row.boxes)
    ensures SortedBy(r, XCenter)
  {
    SortBySorted(row.boxes, XCenter);
    SortBy(row.boxes, XCenter)
  }

  // ------------------------------------------------------ lookup and clamping

  /** k is the position of the first box whose id is id. */
  ghost predicate FirstWithId(boxes: seq<Box>, id: BoxId, k: int) {
    0 <= k < |boxes| && boxes[k].id == id && forall j :: 0 <= j < k ==> boxes[j].id != id
  }

  /** next((b for b in boxes if b.id == id), None). */
  function FindById(boxes: seq<Box>, id: BoxId): (r: Option<Box>)
    ensures r.None? <==> forall k :: 0 <= k < |boxes| ==> boxes[k].id != id
    ensures r.Some? ==> exists k :: FirstWithId(boxes, id, k) && boxes[k] == r.value
  {
    if boxes == [] then None
    else if boxes[0].id == id then
      assert FirstWithId(boxes, id, 0);
      Some(boxes[0])
    else
      var r := FindById(boxes[1..], id);
      assert forall k :: 1 <= k < |boxes| ==> boxes[k] == boxes[1..][k - 1];
      if r.Some? then
        assert exists k :: FirstWithId(boxes, id, k) && boxes[k] == r.value by {
          var k :| FirstWithId(boxes[1..], id, k) && boxes[1..][k] == r.value;
          assert FirstWithId(boxes, id, k + 1);
        }
        r
      else r
  }

  /** int(max(0, min(limit, v))): v clamped into [0, limit], then truncated. */
  function Clamp(v: real, limit: nat): (c: int)
    ensures 0 <= c <= limit
    ensures 0.0 <= v <= limit as real ==> c == v.Floor
    ensures v <= 0.0 ==> c == 0
    ensures v >= limit as real ==> c == limit
  {
    Trunc(Max(0.0, Min(limit as real, v)))
  }

  /** Clamping keeps the order of two coordinates. */
  lemma ClampMonotone(u: real, v: real, limit: nat)
    requires u <= v
    ensures Clamp(u, limit) <= Clamp(v, limit)
  {
    if 0.0 <= u && v <= limit as real {
      assert u.Floor <= v.Floor;
    }
  }

  /** The four clamped coordinates of a box in an image of the given shape. */
  function ClampBox(b: Box, shape: Shape): (c: IntRect)
    ensures 0 <= c.x1 <= shape.width && 0 <= c.x2 <= shape.width
    ensures 0 <= c.y1 <= shape.height && 0 <= c.y2 <= shape.height
  {
    IntRect(Clamp(b.x1, shape.width), Clamp(b.y1, shape.height), Clamp(b.x2, shape.width), Clamp(b.y2, shape.height))
  }

  /** A non-empty region lying inside the image. */
  predicate InsideImage(c: IntRect, shape: Shape) {
    0 <= c.x1 < c.x2 <= shape.width && 0 <= c.y1 < c.y2 <= shape.height
  }

  // ------------------------------------------------------------------ naming

  predicate IsDigit(c: char) {
    '0' <= c <= '9'
  }

  predicate AllDigits(s: string) {
    forall k :: 0 <= k < |s| ==> IsDigit(s[k])
  }

  function DigitChar(d: nat): (c: char)
    requires d < 10
    ensures IsDigit(c) && c as int - '0' as int == d
  {
    "0123456789"[d]
  }

  /** str(n) for a non-negative integer. */
  function Decimal(n: nat): (s: string)
    ensures 1 <= |s| && AllDigits(s)
    ensures n < 10 ==> |s| == 1
    ensures n < 100 ==> |s| <= 2
  {
    if n < 10 then [DigitChar(n)] else Decimal(n / 10) + [DigitChar(n % 10)]
  }

  /** The value of a string of decimal digits, read most significant first. */
  ghost function ParseDecimal(s: string): nat
    requires AllDigits(s)
  {
    if s == [] then 0 else ParseDecimal(s[..|s| - 1]) * 10 + (s[|s| - 1] as int - '0' as int)
  }

  lemma {:induction false} ParseDecimalInverse(n: nat)
    ensures ParseDecimal(Decimal(n)) == n
  {
    var s := Decimal(n);
    if n >= 10 {
      ParseDecimalInverse(n / 10);
      assert s[..|s| - 1] == Decimal(n / 10);
    }
  }

  lemma {:induction false} ParseLeadingZero(s: string)
    requires AllDigits(s)
    ensures ParseDecimal("0" + s) == ParseDecimal(s)
  {
    if s != [] {
      ParseLeadingZero(s[..|s| - 1]);
      assert ("0" + s)[..|"0" + s| - 1] == "0" + s[..|s| - 1];
    }
  }

  /** f"{n:02d}": the decimal digits of n, with a leading zero below 10. */
  function Pad2(n: nat): (s: string)
    ensures 2 <= |s| && AllDigits(s)
    ensures n < 100 ==> |s| == 2
  {
    if n < 10 then "0" + Decimal(n) else Decimal(n)
  }

  /** The padding loses nothing: the digits read back as n. */
  lemma Pad2Value(n: nat)
    ensures ParseDecimal(Pad2(n)) == n
  {
    ParseDecimalInverse(n);
    if n < 10 {
      ParseLeadingZero(Decimal(n));
    }
  }

  function NameOf(a: string, b: string): string {
    "row_" + a + "_box_" + b + ".png"
  }

  /** f"row_{r:02d}_box_{b:02d}.png". */
  function FileName(r: nat, b: nat): (name: string)
    ensures r < 100 && b < 100 ==> |name| == 17
  {
    NameOf(Pad2(r), Pad2(b))
  }

  /** Where the two digit runs sit inside a name. */
  lemma NameSplit(a: string, b: string)
    requires AllDigits(a)
    ensures |NameOf(a, b)| == |a| + |b| + 13
    ensures NameOf(a, b)[4 + |a|] == '_'
    ensures forall k :: 4 <= k < 4 + |a| ==> IsDigit(NameOf(a, b)[k])
    ensures NameOf(a, b)[4..4 + |a|] == a
    ensures NameOf(a, b)[9 + |a|..|a| + |b| + 9] == b
  {
    var s := NameOf(a, b);
    assert s == "row_" + a + "_box_" + b + ".png";
    forall k | 4 <= k < 4 + |a|
      ensures s[k] == a[k - 4]
    {
    }
  }

  /** Different positions never share a file name. */
  lemma FileNameInjective(r: nat, b: nat, r': nat, b': nat)
    requires FileName(r, b) == FileName(r', b')
    ensures r == r' && b == b'
  {
    var a, a' := Pad2(r), Pad2(r');
    NameSplit(a, Pad2(b));
    NameSplit(a', Pad2(b'));
    assert |a| == |a'|;
    assert a == a';
    Pad2Value(r);
    Pad2Value(r');
    Pad2Value(b);
    Pad2Value(b');
  }

  // ------------------------------------------------------------- descriptors

  /**
    The descriptor for the box at position b of the row at position r, when
    the box survives: its id is found among the full-resolution boxes and the
    clamped region is not empty.
   */
  function CropFor(shape: Shape, boxes: seq<Box>, r: nat, b: nat, box: Box): (c: Option<CropResult>)
    ensures c.Some? <==> FindById(boxes, box.id).Some? && InsideImage(ClampBox(FindById(boxes, box.id).value, shape), shape)
    ensures c.Some? ==> c.value.rowIndex == r && c.value.boxIndex == b && c.value.filename == FileName(r, b)
    ensures c.Some? ==> InsideImage(c.value.originalCoords, shape)
    ensures c.Some? ==> exists k :: FirstWithId(boxes, box.id, k) && c.value.originalCoords == ClampBox(boxes[k], shape)
  {
    match FindById(boxes, box.id)
    case None => None
    case Some(original) =>
      var coords := ClampBox(original, shape);
      if coords.x1 >= coords.x2 || coords.y1 >= coords.y2 then None
      else Some(CropResult(b, r, coords, FileName(r, b)))
  }

  function OptionSeq(c: Option<CropResult>): (cs: seq<CropResult>)
    ensures |cs| <= 1
  {
    if c.Some? then [c.value] else []
  }

  /** One step of the inner loop of crop_and_save, for the row at position r. */
  function CropAt(shape: Shape, boxes: seq<Box>, r: nat): (nat, Box) -> seq<CropResult> {
    (b: nat, box: Box) => OptionSeq(CropFor(shape, boxes, r, b, box))
  }

  /** The descriptors of the row at position r, its boxes taken in left-to-right order. */
  function CropsOfRow(shape: Shape, boxes: seq<Box>, r: nat, row: RowLine): seq<CropResult> {
    var sorted := BoxOrder(row);
    Flatten(sorted, CropAt(shape, boxes, r), |sorted|)
  }

  /** One step of the outer loop of crop_and_save. */
  function RowCropper(shape: Shape, boxes: seq<Box>): (nat, RowLine) -> seq<CropResult> {
    (r: nat, row: RowLine) => CropsOfRow(shape, boxes, r, row)
  }

  /** Everything crop_and_save returns, in order. */
  function Crops(image: Option<Shape>, rows: seq<RowLine>, boxes: seq<Box>): (r: seq<CropResult>)
    ensures image == None ==> r == []
  {
    match image
    case None => []
    case Some(shape) =>
      var sortedRows := RowOrder(rows);
      Flatten(sortedRows, RowCropper(shape, boxes), |sortedRows|)
  }

  /** a comes before b: an earlier row, or the same row and an earlier box. */
  predicate Before(a: CropResult, b: CropResult) {
    a.rowIndex < b.rowIndex || (a.rowIndex == b.rowIndex && a.boxIndex < b.boxIndex)
  }

  ghost predicate InCropOrder(cs: seq<CropResult>) {
    forall i, j :: 0 <= i < j < |cs| ==> Before(cs[i], cs[j])
  }

  // -------------------------------------------------------------- properties

  /** The entry at position p of a row's descriptors is the descriptor of some box b of that row. */
  lemma RowEntry(shape: Shape, boxes: seq<Box>, r: nat, row: RowLine, p: nat) returns (b: nat)
    requires p < |CropsOfRow(shape, boxes, r, row)|
    ensures b < |BoxOrder(row)|
    ensures CropFor(shape, boxes, r, b, BoxOrder(row)[b]) == Some(CropsOfRow(shape, boxes, r, row)[p])
    ensures CropsOfRow(shape, boxes, r, row)[p].rowIndex == r && CropsOfRow(shape, boxes, r, row)[p].boxIndex == b
  {
    var sorted := BoxOrder(row);
    var q;
    b, q := FlattenAt(sorted, CropAt(shape, boxes, r), |sorted|, p);
  }

  /** The entry at position i of the results is the descriptor of the box at its own (row, box) position. */
  lemma CropsEntry(shape: Shape, rows: seq<RowLine>, boxes: seq<Box>, i: nat) returns (p: nat)
    requires i < |Crops(Some(shape), rows, boxes)|
    ensures var c := Crops(Some(shape), rows, boxes)[i];
      c.rowIndex < |rows| && c.boxIndex < |BoxOrder(RowOrder(rows)[c.rowIndex])| &&
      p < |CropsOfRow(shape, boxes, c.rowIndex, RowOrder(rows)[c.rowIndex])| &&
      c == CropsOfRow(shape, boxes, c.rowIndex, RowOrder(rows)[c.rowIndex])[p] &&
      CropFor(shape, boxes, c.rowIndex, c.boxIndex, BoxOrder(RowOrder(rows)[c.rowIndex])[c.boxIndex]) == Some(c)
  {
    var sortedRows := RowOrder(rows);
    var r;
    r, p := FlattenAt(sortedRows, RowCropper(shape, boxes), |sortedRows|, i);
    var b := RowEntry(shape, boxes, r, sortedRows[r], p);
  }

  /**
    Exactly the boxes that survive appear: each result is the descriptor of
    the box at its own position in the sorted rows, and every surviving box
    has its descriptor among the results.
   */
  lemma CropsExact(shape: Shape, rows: seq<RowLine>, boxes: seq<Box>)
    ensures forall c :: c in Crops(Some(shape), rows, boxes) ==>
      c.rowIndex < |rows| && c.boxIndex < |BoxOrder(RowOrder(rows)[c.rowIndex])| &&
      CropFor(shape, boxes, c.rowIndex, c.boxIndex, BoxOrder(RowOrder(rows)[c.rowIndex])[c.boxIndex]) == Some(c)
    ensures forall r, b ::
      (0 <= r < |rows| && 0 <= b < |BoxOrder(RowOrder(rows)[r])| &&
       CropFor(shape, boxes, r, b, BoxOrder(RowOrder(rows)[r])[b]).Some?) ==>
      CropFor(shape, boxes, r, b, BoxOrder(RowOrder(rows)[r])[b]).value in Crops(Some(shape), rows, boxes)
  {
    var sortedRows := RowOrder(rows);
    var cs := Crops(Some(shape), rows, boxes);
    forall c | c in cs
      ensures c.rowIndex < |rows| && c.boxIndex < |BoxOrder(sortedRows[c.rowIndex])|
      ensures CropFor(shape, boxes, c.rowIndex, c.boxIndex, BoxOrder(sortedRows[c.rowIndex])[c.boxIndex]) == Some(c)
    {
      var i :| 0 <= i < |cs| && cs[i] == c;
      var p := CropsEntry(shape, rows, boxes, i);
    }
    forall r, b | 0 <= r < |rows| && 0 <= b < |BoxOrder(sortedRows[r])| &&
      CropFor(shape, boxes, r, b, BoxOrder(sortedRows[r])[b]).Some?
      ensures CropFor(shape, boxes, r, b, BoxOrder(sortedRows[r])[b]).value in cs
    {
      var sorted := BoxOrder(sortedRows[r]);
      FlattenComplete(sorted, CropAt(shape, boxes, r), |sorted|, b, 0);
      var row := CropsOfRow(shape, boxes, r, sortedRows[r]);
      var q :| 0 <= q < |row| && row[q] == CropFor(shape, boxes, r, b, sorted[b]).value;
      FlattenComplete(sortedRows, RowCropper(shape, boxes), |sortedRows|, r, q);
    }
  }

  /** Two results of the same image come in (row, box) order. */
  lemma CropsPairInOrder(shape: Shape, rows: seq<RowLine>, boxes: seq<Box>, i: nat, j: nat)
    requires i < j < |Crops(Some(shape), rows, boxes)|
    ensures Before(Crops(Some(shape), rows, boxes)[i], Crops(Some(shape), rows, boxes)[j])
  {
    var sortedRows := RowOrder(rows);
    var ri, pi, rj, pj := FlattenOrder(sortedRows, RowCropper(shape, boxes), |sortedRows|, i, j);
    var bi := RowEntry(shape, boxes, ri, sortedRows[ri], pi);
    var bj := RowEntry(shape, boxes, rj, sortedRows[rj], pj);
    if ri == rj {
      RowEntriesOrdered(shape, boxes, ri, sortedRows[ri], pi, pj);
    }
  }

  /** Within one row the descriptors come in increasing box position. */
  lemma RowEntriesOrdered(shape: Shape, boxes: seq<Box>, r: nat, row: RowLine, p: nat, q: nat)
    requires p < q < |CropsOfRow(shape, boxes, r, row)|
    ensures CropsOfRow(shape, boxes, r, row)[p].boxIndex < CropsOfRow(shape, boxes, r, row)[q].boxIndex
  {
    var sorted := BoxOrder(row);
    var step := CropAt(shape, boxes, r);
    var kp, qp, kq, qq := FlattenOrder(sorted, step, |sorted|, p, q);
    assert |step(kp, sorted[kp])| <= 1 && |step(kq, sorted[kq])| <= 1;
    assert qp == 0 && qq == 0;
    var bp := RowEntry(shape, boxes, r, row, p);
    var bq := RowEntry(shape, boxes, r, row, q);
  }

  /** The results come in (row, box) order. */
  lemma CropsInOrder(image: Option<Shape>, rows: seq<RowLine>, boxes: seq<Box>)
    ensures InCropOrder(Crops(image, rows, boxes))
  {
    if image.Some? {
      var cs := Crops(image, rows, boxes);
      forall i, j | 0 <= i < j < |cs|
        ensures Before(cs[i], cs[j])
      {
        CropsPairInOrder(image.value, rows, boxes, i, j);
      }
    }
  }

  /** No two crops are written to the same file. */
  lemma CropsDistinctNames(image: Option<Shape>, rows: seq<RowLine>, boxes: seq<Box>)
    ensures forall i, j :: 0 <= i < j < |Crops(image, rows, boxes)| ==>
      Crops(image, rows, boxes)[i].filename != Crops(image, rows, boxes)[j].filename
  {
    if image.Some? {
      var cs := Crops(image, rows, boxes);
      CropsInOrder(image, rows, boxes);
      forall i, j | 0 <= i < j < |cs|
        ensures cs[i].filename != cs[j].filename
      {
        assert Before(cs[i], cs[j]);
        var pi := CropsEntry(image.value, rows, boxes, i);
        var pj := CropsEntry(image.value, rows, boxes, j);
        if cs[i].filename == cs[j].filename {
          FileNameInjective(cs[i].rowIndex, cs[i].boxIndex, cs[j].rowIndex, cs[j].boxIndex);
        }
      }
    }
  }

  /** Crops go top to bottom by row key, and left to right by centre within a row. */
  lemma CropsFollowLayout(shape: Shape, rows: seq<RowLine>, boxes: seq<Box>, i: nat, j: nat)
    requires i < j < |Crops(Some(shape), rows, boxes)|
    ensures var a, b := Crops(Some(shape), rows, boxes)[i], Crops(Some(shape), rows, boxes)[j];
      a.rowIndex < |rows| && b.rowIndex < |rows| &&
      RowKey(RowOrder(rows)[a.rowIndex]) <= RowKey(RowOrder(rows)[b.rowIndex]) &&
      (a.rowIndex == b.rowIndex ==>
        a.boxIndex < b.boxIndex < |BoxOrder(RowOrder(rows)[a.rowIndex])| &&
        XCenter(BoxOrder(RowOrder(rows)[a.rowIndex])[a.boxIndex]) <= XCenter(BoxOrder(RowOrder(rows)[a.rowIndex])[b.boxIndex]))
  {
    var cs := Crops(Some(shape), rows, boxes);
    var sortedRows := RowOrder(rows);
    var a, b := cs[i], cs[j];
    CropsInOrder(Some(shape), rows, boxes);
    assert Before(a, b);
    var pa := CropsEntry(shape, rows, boxes, i);
    var pb := CropsEntry(shape, rows, boxes, j);
    SortBySorted(rows, RowKey);
    if a.rowIndex < b.rowIndex {
      assert RowKey(sortedRows[a.rowIndex]) <= RowKey(sortedRows[b.rowIndex]);
    } else {
      SortBySorted(sortedRows[a.rowIndex].boxes, XCenter);
    }
  }

  function RowSize(row: RowLine): nat {
    |row.boxes|
  }

  /** At most one crop per box of every row. */
  lemma CropsCount(image: Option<Shape>, rows: seq<RowLine>, boxes: seq<Box>)
    ensures |Crops(image, rows, boxes)| <= SumBy(rows, RowSize)
  {
    if image.Some? {
      var shape := image.value;
      var sortedRows := RowOrder(rows);
      forall k | 0 <= k < |sortedRows|
        ensures |RowCropper(shape, boxes)(k, sortedRows[k])| <= RowSize(sortedRows[k])
      {
        var sorted := BoxOrder(sortedRows[k]);
        FlattenAtMostOne(sorted, CropAt(shape, boxes, k), |sorted|);
      }
      FlattenAtMost(sortedRows, RowCropper(shape, boxes), |sortedRows|, RowSize);
      assert sortedRows[..|sortedRows|] == sortedRows;
      SumBySort(rows, RowKey, RowSize);
    }
  }

  // ----------------------------------------------------------------- methods

  /**
    The body of the inner loop of crop_and_save for one box: look up its
    full-resolution box by id, clamp, skip an empty region, and name the crop.
   */
  method CropBox(shape: Shape, boxes: seq<Box>, rowIdx: nat, boxIdx: nat, box: Box) returns (crop: Option<CropResult>)
    ensures OptionSeq(crop) == CropAt(shape, boxes, rowIdx)(boxIdx, box)
  {
    var originalBox := FindById(boxes, box.id);
    if originalBox.None? {
      return None;
    }
    var h, w := shape.height, shape.width;
    var x1 := Clamp(originalBox.value.x1, w);
    var y1 := Clamp(originalBox.value.y1, h);
    var x2 := Clamp(originalBox.value.x2, w);
    var y2 := Clamp(originalBox.value.y2, h);
    if x1 >= x2 || y1 >= y2 {
      return None;
    }
    var filename := FileName(rowIdx, boxIdx);
    crop := Some(CropResult(boxIdx, rowIdx, IntRect(x1, y1, x2, y2), filename));
  }

  /**
    The inner loop of crop_and_save over the row at position r: its boxes in
    left-to-right order, each surviving one appended to results.
   */
  method CropRow(shape: Shape, boxes: seq<Box>, rowIdx: nat, row: RowLine, results: seq<CropResult>)
    returns (results': seq<CropResult>)
    ensures results' == results + CropsOfRow(shape, boxes, rowIdx, row)
  {
    results' := results;
    var sortedBoxes := BoxOrder(row);
    ghost var g := CropAt(shape, boxes, rowIdx);
    var boxIdx := 0;
    while boxIdx < |sortedBoxes|
      invariant 0 <= boxIdx <= |sortedBoxes|
      invariant results' == results + Flatten(sortedBoxes, g, boxIdx)
    {
      var box := sortedBoxes[boxIdx];
      var crop := CropBox(shape, boxes, rowIdx, boxIdx, box);
      FlattenExtend(sortedBoxes, g, boxIdx, results, results', OptionSeq(crop));
      // the surviving crop, if any, is appended
      results' := results' + OptionSeq(crop);
      boxIdx := boxIdx + 1;
    }
  }

  /**
    crop_and_save. No image gives no results; otherwise the results are the
    descriptors of the surviving boxes, in (row, box) order, with distinct
    file names and no more of them than there are boxes in the rows.
   */
  method CropAndSave(image: Option<Shape>, rows: seq<RowLine>, boxes: seq<Box>) returns (results: seq<CropResult>)
    requires image.Some? ==> forall k :: 0 <= k < |rows| ==> HasRowKey(rows[k])
    ensures results == Crops(image, rows, boxes)
    ensures image.None? ==> results == []
    ensures InCropOrder(results)
    ensures forall i, j :: 0 <= i < j < |results| ==> results[i].filename != results[j].filename
    ensures |results| <= SumBy(rows, RowSize)
  {
    if image.None? {
      CropsCount(image, rows, boxes);
      return [];
    }
    var shape := image.value;
    results := [];
    var sortedRows := SortBy(rows, RowKey);
    var rowIdx := 0;
    while rowIdx < |sortedRows|
      invariant 0 <= rowIdx <= |sortedRows|
      invariant results == Flatten(sortedRows, RowCropper(shape, boxes), rowIdx)
    {
      results := CropRow(shape, boxes, rowIdx, sortedRows[rowIdx], results);
      rowIdx := rowIdx + 1;
    }
    CropsInOrder(image, rows, boxes);
    CropsDistinctNames(image, rows, boxes);
    CropsCount(image, rows, boxes);
  }
}
