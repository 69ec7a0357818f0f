/**
  The post-processing of AutoDetector: the confidence/class filter over the
  detector's raw rows, Intersection over Union, and the in-place pass that
  drops the smaller box of every pair overlapping by more than the IoU
  threshold. The detector model itself is outside the model: its output
  is a parameter.
 */
module AutoDetection {
  import opened Geometry
  import opened Sequences

  /** self.conf_threshold: minimum confidence kept. */
  const ConfThreshold: real := 0.2

  /** self.iou_threshold: IoU above which two boxes are duplicates. */
  const IouThreshold: real := 0.6

  /** The 1e-6 added to the union against a zero denominator. */
  const IouEpsilon: real := 0.000001

  /** The test of _filter_detections: box[4] > 0.2 and box[5] == 1. */
  predicate IsOtolith(d: Detection) {
    d.conf > ConfThreshold && d.cls == 1.0
  }

  /** _filter_detections: box[:4] for every entry that passes IsOtolith, in order. */
  function FilterDetections(data: seq<Detection>): (r: seq<Rect>)
    ensures |r| <= |data|
  {
    if data == [] then []
    else (if IsOtolith(data[0]) then [data[0].Box()] else []) + FilterDetections(data[1..])
  }

  /** Every kept box comes from an entry that passes the test. */
  lemma {:induction false} FilterDetectionsSound(data: seq<Detection>, k: nat)
    requires k < |FilterDetections(data)|
    ensures exists n :: 0 <= n < |data| && IsOtolith(data[n]) && data[n].Box() == FilterDetections(data)[k]
  {
    if !IsOtolith(data[0]) {
      FilterDetectionsSound(data[1..], k);
    } else if k > 0 {
      FilterDetectionsSound(data[1..], k - 1);
    } else {
      assert IsOtolith(data[0]) && data[0].Box() == FilterDetections(data)[0];
    }
  }

  /**
    The filter works entry by entry and keeps the order: filtering a
    concatenation concatenates the filtered parts, and a single entry
    yields its box exactly when it passes the test.
   */
  lemma {:induction false} FilterDetectionsAppend(a: seq<Detection>, b: seq<Detection>)
    ensures FilterDetections(a + b) == FilterDetections(a) + FilterDetections(b)
  {
    if a == [] {
      assert a + b == b;
    } else {
      var ab := a + b;
      var head := if IsOtolith(a[0]) then [a[0].Box()] else [];
      assert ab[0] == a[0] && ab[1..] == a[1..] + b;
      calc {
        FilterDetections(ab);
        head + FilterDetections(a[1..] + b);
        { FilterDetectionsAppend(a[1..], b); }
        head + (FilterDetections(a[1..]) + FilterDetections(b));
        (head + FilterDetections(a[1..])) + FilterDetections(b);
        FilterDetections(a) + FilterDetections(b);
      }
    }
  }

  /** area1 + area2 - intersection + 1e-6: the divisor of _calculate_iou. */
  function IouDenominator(a: Rect, b: Rect): real {
    Area(a) + Area(b) - IntersectionArea(a, b) + IouEpsilon
  }

  /** _calculate_iou: intersection over (union + 1e-6); a zero divisor raises. */
  function CalculateIou(a: Rect, b: Rect): (iou: real)
    requires IouDenominator(a, b) != 0.0
    ensures IntersectionArea(a, b) == 0.0 ==> iou == 0.0
  {
    IntersectionArea(a, b) / IouDenominator(a, b)
  }

  /** For boxes with corners in order the divisor exceeds the intersection, so IoU lies in [0, 1). */
  lemma IouRange(a: Rect, b: Rect)
    requires WellFormed(a) && WellFormed(b)
    ensures IouDenominator(a, b) > IntersectionArea(a, b) >= 0.0
    ensures 0.0 <= CalculateIou(a, b) < 1.0
  {
    IntersectionWithinArea(a, b);
    IntersectionWithinArea(b, a);
    IntersectionSymmetric(a, b);
    var i, d := IntersectionArea(a, b), IouDenominator(a, b);
    assert i < d;
    assert CalculateIou(a, b) * d == i;
  }

  /** IoU does not depend on the order of its arguments. */
  lemma IouSymmetric(a: Rect, b: Rect)
    requires IouDenominator(a, b) != 0.0
    ensures IouDenominator(b, a) == IouDenominator(a, b)
    ensures CalculateIou(b, a) == CalculateIou(a, b)
  {
    IntersectionSymmetric(a, b);
  }

  /** Two boxes with corners in order whose IoU exceeds the threshold. */
  predicate Overlapping(a: Rect, b: Rect) {
    WellFormed(a) && WellFormed(b) && (IouRange(a, b); CalculateIou(a, b) > IouThreshold)
  }

  /**
    Why a box was dropped: it overlapped its keeper, and it was not the larger
    one; on equal area the earlier of the two (box i) is the one dropped.
   */
  ghost predicate JustifiedDrop(input: seq<Rect>, e: Removal) {
    && e.dropped < |input| && e.keeper < |input|
    && Overlapping(input[e.dropped], input[e.keeper])
    && (if e.dropped < e.keeper then Area(input[e.dropped]) <= Area(input[e.keeper])
        else Area(input[e.dropped]) < Area(input[e.keeper]))
  }

  /** [tuple(map(int, box)) for box in boxes]. */
  function TruncAll(boxes: seq<Rect>): (r: seq<IntRect>)
    ensures |r| == |boxes|
    ensures forall k :: 0 <= k < |boxes| ==> r[k] == TruncRect(boxes[k])
  {
    seq(|boxes|, k requires 0 <= k < |boxes| => TruncRect(boxes[k]))
  }

  /** No box before position i overlaps any box after it. */
  ghost predicate ClearBefore(boxes: seq<Rect>, i: int) {
    forall p, q :: 0 <= p < i && p < q < |boxes| ==> !Overlapping(boxes[p], boxes[q])
  }

  /** Box i overlaps none of the boxes strictly between i and j. */
  ghost predicate ClearBetween(boxes: seq<Rect>, i: int, j: int)
    requires 0 <= i < |boxes|
  {
    forall q :: i < q < j && q < |boxes| ==> !Overlapping(boxes[i], boxes[q])
  }

  /** Every logged pop had a reason. */
  ghost predicate AllJustified(input: seq<Rect>, log: seq<Removal>) {
    forall e :: e in log ==> JustifiedDrop(input, e)
  }

  /** Popping a box at or after position i keeps the boxes before i clear. */
  lemma PopKeepsClear(boxes: seq<Rect>, i: int, p: nat)
    requires ClearBefore(boxes, i) && 0 <= i <= p < |boxes|
    ensures ClearBefore(boxes[..p] + boxes[p + 1..], i)
  {
    var b := boxes[..p] + boxes[p + 1..];
    forall x, y | 0 <= x < i && x < y < |b| ensures !Overlapping(b[x], b[y]) {
      assert b[x] == boxes[x];
      if y < p {
        assert b[y] == boxes[y];
      } else {
        assert b[y] == boxes[y + 1];
      }
    }
  }

  /** Popping position j > i keeps box i clear of the boxes before j. */
  lemma PopKeepsBetween(boxes: seq<Rect>, i: int, j: nat)
    requires 0 <= i < j < |boxes| && ClearBetween(boxes, i, j)
    ensures ClearBetween(boxes[..j] + boxes[j + 1..], i, j)
  {
  }

  /**
    The nested scan of _remove_overlapping_boxes, one step at a time, from
    outer index i and inner index j: past the end of the list the scan is
    over; past the last j, i advances; on an overlap the smaller box is
    popped (box i on equal area, after which i is scanned again from i + 1);
    otherwise j advances.
   */
  function Scan(boxes: seq<Rect>, i: nat, j: nat): seq<Rect>
    requires i < j
    decreases |boxes|, |boxes| - i, |boxes| - j
  {
    if i >= |boxes| then boxes
    else if j >= |boxes| then Scan(boxes, i + 1, i + 2)
    else if Overlapping(boxes[i], boxes[j]) then
      if Area(boxes[i]) > Area(boxes[j]) then Scan(Pop(boxes, j), i, j)
      else Scan(Pop(boxes, i), i, i + 1)
    else Scan(boxes, i, j + 1)
  }

  /** t is the int() tuple of some box of the input. */
  ghost predicate TruncOfInput(t: IntRect, input: seq<Rect>) {
    exists n :: 0 <= n < |input| && t == TruncRect(input[n])
  }

  /** The int() tuples of what is left of the input: no more of them, each from some input box. */
  lemma TruncSurvivors(kept: seq<nat>, survivors: seq<Rect>, input: seq<Rect>)
    requires Embedding(kept, survivors, input)
    ensures |TruncAll(survivors)| <= |input|
    ensures forall k :: 0 <= k < |survivors| ==> TruncOfInput(TruncAll(survivors)[k], input)
  {
    EmbeddingLength(kept, survivors, input);
    forall k | 0 <= k < |survivors|
      ensures TruncOfInput(TruncAll(survivors)[k], input)
    {
      assert TruncAll(survivors)[k] == TruncRect(input[kept[k]]);
    }
  }

  /** All boxes have their corners in order. */
  predicate AllWellFormed(boxes: seq<Rect>) {
    forall k :: 0 <= k < |boxes| ==> WellFormed(boxes[k])
  }

  lemma PopWellFormed(boxes: seq<Rect>, p: nat)
    requires AllWellFormed(boxes) && p < |boxes|
    ensures AllWellFormed(Pop(boxes, p))
  {
    var r := Pop(boxes, p);
    forall k | 0 <= k < |r| ensures WellFormed(r[k]) {
      assert r[k] == if k < p then boxes[k] else boxes[k + 1];
    }
  }

  /** Popping the smaller later box j keeps every fact the scan relies on. */
  lemma DropLater(input: seq<Rect>, boxes: seq<Rect>, i: nat, j: nat, kept: seq<nat>, log: seq<Removal>)
    requires i < j < |boxes| && Embedding(kept, boxes, input)
    requires ClearBefore(boxes, i) && ClearBetween(boxes, i, j)
    requires AllJustified(input, log) && Logged(|input|, kept, log)
    requires Overlapping(boxes[i], boxes[j]) && Area(boxes[i]) > Area(boxes[j])
    ensures Embedding(kept[..j] + kept[j + 1..], Pop(boxes, j), input)
    ensures ClearBefore(Pop(boxes, j), i) && ClearBetween(Pop(boxes, j), i, j)
    ensures AllJustified(input, log + [Removal(kept[j], kept[i])])
    ensures Logged(|input|, kept[..j] + kept[j + 1..], log + [Removal(kept[j], kept[i])])
  {
    IouSymmetric(boxes[i], boxes[j]);
    PopLogged(input, kept, kept[..j] + kept[j + 1..], boxes, log, j, Removal(kept[j], kept[i]));
    PopKeepsClear(boxes, i, j);
    PopKeepsBetween(boxes, i, j);
  }

  /** Popping box i, not larger than the box j it overlaps, keeps every fact the scan relies on. */
  lemma DropEarlier(input: seq<Rect>, boxes: seq<Rect>, i: nat, j: nat, kept: seq<nat>, log: seq<Removal>)
    requires i < j < |boxes| && Embedding(kept, boxes, input)
    requires ClearBefore(boxes, i)
    requires AllJustified(input, log) && Logged(|input|, kept, log)
    requires Overlapping(boxes[i], boxes[j]) && Area(boxes[i]) <= Area(boxes[j])
    ensures Embedding(kept[..i] + kept[i + 1..], Pop(boxes, i), input)
    ensures ClearBefore(Pop(boxes, i), i)
    ensures AllJustified(input, log + [Removal(kept[i], kept[j])])
    ensures Logged(|input|, kept[..i] + kept[i + 1..], log + [Removal(kept[i], kept[j])])
  {
    PopLogged(input, kept, kept[..i] + kept[i + 1..], boxes, log, i, Removal(kept[i], kept[j]));
    PopKeepsClear(boxes, i, i);
  }

  /**
    What the scan leaves is the input with entries popped, in order, no two
    of them overlapping, every pop with a recorded reason: shown for a scan
    resumed from any state (boxes, i, j) that the scan itself can reach.
   */
  lemma {:induction false} ScanSound(input: seq<Rect>, boxes: seq<Rect>, i: nat, j: nat, kept: seq<nat>, log: seq<Removal>)
    returns (kept': seq<nat>, log': seq<Removal>)
    requires i < j
    requires Embedding(kept, boxes, input) && AllWellFormed(input)
    requires ClearBefore(boxes, i)
    requires i < |boxes| ==> ClearBetween(boxes, i, j)
    requires AllJustified(input, log) && Logged(|input|, kept, log)
    ensures Embedding(kept', Scan(boxes, i, j), input)
    ensures ClearBefore(Scan(boxes, i, j), |Scan(boxes, i, j)|)
    ensures AllJustified(input, log') && Logged(|input|, kept', log')
    decreases |boxes|, |boxes| - i, |boxes| - j, 1
  {
    if i >= |boxes| {
      kept', log' := kept, log;
    } else if j >= |boxes| {
      kept', log' := ScanSound(input, boxes, i + 1, i + 2, kept, log);
    } else if Overlapping(boxes[i], boxes[j]) {
      kept', log' := ScanSoundPop(input, boxes, i, j, kept, log);
    } else {
      kept', log' := ScanSound(input, boxes, i, j + 1, kept, log);
    }
  }

  /** The step of ScanSound where boxes i and j overlap and one of them is popped. */
  lemma {:induction false} ScanSoundPop(input: seq<Rect>, boxes: seq<Rect>, i: nat, j: nat, kept: seq<nat>, log: seq<Removal>)
    returns (kept': seq<nat>, log': seq<Removal>)
    requires i < j < |boxes| && Overlapping(boxes[i], boxes[j])
    requires Embedding(kept, boxes, input) && AllWellFormed(input)
    requires ClearBefore(boxes, i) && ClearBetween(boxes, i, j)
    requires AllJustified(input, log) && Logged(|input|, kept, log)
    ensures Embedding(kept', Scan(boxes, i, j), input)
    ensures ClearBefore(Scan(boxes, i, j), |Scan(boxes, i, j)|)
    ensures AllJustified(input, log') && Logged(|input|, kept', log')
    decreases |boxes|, |boxes| - i, |boxes| - j, 0
  {
    if Area(boxes[i]) > Area(boxes[j]) {
      DropLater(input, boxes, i, j, kept, log);
      kept', log' := ScanSound(input, Pop(boxes, j), i, j, kept[..j] + kept[j + 1..], log + [Removal(kept[j], kept[i])]);
    } else {
      DropEarlier(input, boxes, i, j, kept, log);
      kept', log' := ScanSound(input, Pop(boxes, i), i, i + 1, kept[..i] + kept[i + 1..], log + [Removal(kept[i], kept[j])]);
    }
  }

  /**
    Three boxes in a chain: A overlaps B and B overlaps C, but A does not
    overlap C. B is popped as the smaller of A and B, after which C survives
    beside A.
   */
  lemma ScanChainExample()
    ensures Scan([Rect(0.0, 0.0, 10.0, 1.0), Rect(2.0, 0.0, 11.0, 1.0), Rect(4.0, 0.0, 12.0, 1.0)], 0, 1)
         == [Rect(0.0, 0.0, 10.0, 1.0), Rect(4.0, 0.0, 12.0, 1.0)]
  {
    var a, b, c := Rect(0.0, 0.0, 10.0, 1.0), Rect(2.0, 0.0, 11.0, 1.0), Rect(4.0, 0.0, 12.0, 1.0);
    assert IntersectionArea(a, b) == 8.0 && IntersectionArea(a, c) == 6.0;
    IouRange(a, b);
    IouRange(a, c);
    assert CalculateIou(a, b) * IouDenominator(a, b) == 8.0;
    assert CalculateIou(a, c) * IouDenominator(a, c) == 6.0;
    assert Overlapping(a, b) && !Overlapping(a, c);
    assert Pop([a, b, c], 1) == [a, c];
    calc {
      Scan([a, b, c], 0, 1);
      Scan([a, c], 0, 1);
      Scan([a, c], 0, 2);
      Scan([a, c], 1, 2);
      [a, c];
    }
  }

  /** ScanSound for the scan as _remove_overlapping_boxes starts it: i = 0, nothing popped. */
  lemma ScanFromStart(input: seq<Rect>) returns (kept: seq<nat>, log: seq<Removal>)
    requires AllWellFormed(input)
    ensures Embedding(kept, Scan(input, 0, 1), input)
    ensures ClearBefore(Scan(input, 0, 1), |Scan(input, 0, 1)|)
    ensures AllJustified(input, log) && Logged(|input|, kept, log)
  {
    LoggedInitially(input);
    kept, log := ScanSound(input, input, 0, 1, seq(|input|, k => k), []);
  }

  /**
    The nested while loops of _remove_overlapping_boxes on the float boxes:
    they compute Scan from the start, so what is left is the input in its
    order with entries popped, no two of them overlap too much, and every
    popped box has a recorded reason.
   */
  method PopOverlapping(input: seq<Rect>)
    returns (boxes: seq<Rect>, ghost kept: seq<nat>, ghost log: seq<Removal>)
    requires AllWellFormed(input)
    ensures boxes == Scan(input, 0, 1)
    ensures Embedding(kept, boxes, input)
    ensures forall p, q :: 0 <= p < q < |boxes| ==> !Overlapping(boxes[p], boxes[q])
    ensures forall e :: e in log ==> JustifiedDrop(input, e)
    ensures Logged(|input|, kept, log)
  {
    boxes := input;
    ghost var target := Scan(input, 0, 1);
    var i: int := 0;
    while i < |boxes|
      invariant 0 <= i <= |boxes|
      invariant AllWellFormed(boxes)
      invariant Scan(boxes, i, i + 1) == target
      decreases |boxes| - i
    {
      var j := i + 1;
      ghost var lengthBefore := |boxes|;
      while j < |boxes|
        invariant i < j <= |boxes| <= lengthBefore
        invariant AllWellFormed(boxes)
        invariant Scan(boxes, i, j) == target
        decreases |boxes| - j
      {
        IouRange(boxes[i], boxes[j]);
        if CalculateIou(boxes[i], boxes[j]) > IouThreshold {
          if Area(boxes[i]) > Area(boxes[j]) {
            PopWellFormed(boxes, j);
            boxes := Pop(boxes, j);
          } else {
            PopWellFormed(boxes, i);
            boxes := Pop(boxes, i);
            i := i - 1;
            break;
          }
        } else {
          j := j + 1;
        }
      }
      i := i + 1;
    }
    kept, log := ScanFromStart(input);
  }

  /**
    _remove_overlapping_boxes: the survivors of the scan, as int() tuples.
    There are no more of them than input boxes and each is the int() tuple of
    an input box.
   */
  method RemoveOverlappingBoxes(input: seq<Rect>)
    returns (result: seq<IntRect>, ghost survivors: seq<Rect>, ghost kept: seq<nat>, ghost log: seq<Removal>)
    requires AllWellFormed(input)
    ensures |result| <= |input|
    ensures forall k :: 0 <= k < |result| ==> TruncOfInput(result[k], input)
    ensures survivors == Scan(input, 0, 1) && result == TruncAll(survivors)
    ensures Embedding(kept, survivors, input)
    ensures forall p, q :: 0 <= p < q < |survivors| ==> !Overlapping(survivors[p], survivors[q])
    ensures forall e :: e in log ==> JustifiedDrop(input, e)
    ensures Logged(|input|, kept, log)
  {
    var boxes;
    boxes, kept, log := PopOverlapping(input);
    survivors := boxes;
    result := TruncAll(boxes);
    TruncSurvivors(kept, survivors, input);
  }

  /**
    detect: no model loaded or no image gives []; otherwise the detector's
    rows (a parameter here) are filtered and deduplicated by the scan.
   */
  method Detect(modelLoaded: bool, imageGiven: bool, raw: seq<Detection>) returns (r: seq<IntRect>)
    requires modelLoaded && imageGiven ==> forall k :: 0 <= k < |raw| && IsOtolith(raw[k]) ==> WellFormed(raw[k].Box())
    ensures !modelLoaded || !imageGiven ==> r == []
    ensures modelLoaded && imageGiven ==> r == TruncAll(Scan(FilterDetections(raw), 0, 1))
    ensures |r| <= |raw|
    ensures forall k :: 0 <= k < |r| ==> exists n :: 0 <= n < |raw| && IsOtolith(raw[n]) && r[k] == TruncRect(raw[n].Box())
  {
    if !modelLoaded || !imageGiven {
      r := [];
      assert |r| == 0;
      return;
    }
    var boxes := FilterDetections(raw);
    forall k | 0 <= k < |boxes| ensures WellFormed(boxes[k]) {
      FilterDetectionsSound(raw, k);
    }
    ghost var survivors, kept, log;
    r, survivors, kept, log := RemoveOverlappingBoxes(boxes);
    EmbeddingLength(kept, survivors, boxes);
    forall k | 0 <= k < |r|
      ensures exists n :: 0 <= n < |raw| && IsOtolith(raw[n]) && r[k] == TruncRect(raw[n].Box())
    {
      FilterDetectionsSound(raw, kept[k]);
      assert survivors[k] == boxes[kept[k]];
      var n :| 0 <= n < |raw| && IsOtolith(raw[n]) && raw[n].Box() == boxes[kept[k]];
      assert r[k] == TruncRect(raw[n].Box());
    }
    assert forall k :: 0 <= k < |r| ==> exists n :: 0 <= n < |raw| && IsOtolith(raw[n]) && r[k] == TruncRect(raw[n].Box());
  }
}
