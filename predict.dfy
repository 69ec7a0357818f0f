/**
  The prediction script's own deduplication: rows of the detector's output
  are kept when their score exceeds 0.2 and their label is 1, then any box
  that covers more than 60 percent of the smaller of itself and another box
  is resolved by popping the smaller one, ties keeping the earlier box.
  Loading the model, reading images and writing crops are left out.
 */
module OverlapDedup {
  import opened Geometry
  import opened Sequences
  import AutoDetection

  /** threshold: minimum score kept. */
  const ScoreThreshold: real := 0.2

  /** Overlap percentage above which two boxes are duplicates. */
  const OverlapLimit: real := 60.0

  /**
    get_overlap_percentage: the intersection as a percentage of the smaller
    of the two areas; a zero smaller area raises ZeroDivisionError.
   */
  function OverlapPercentage(a: Rect, b: Rect): (pct: real)
    requires Min(Area(a), Area(b)) != 0.0
    ensures IntersectionArea(a, b) == 0.0 ==> pct == 0.0
  {
    (IntersectionArea(a, b) / Min(Area(a), Area(b))) * 100.0
  }

  /** The percentage is the same whichever box comes first. */
  lemma OverlapSymmetric(a: Rect, b: Rect)
    requires Min(Area(a), Area(b)) != 0.0
    ensures Min(Area(b), Area(a)) != 0.0
    ensures OverlapPercentage(b, a) == OverlapPercentage(a, b)
  {
    IntersectionSymmetric(a, b);
  }

  /** Disjoint or edge-touching boxes overlap by zero percent. */
  lemma OverlapDisjoint(a: Rect, b: Rect)
    requires Min(Area(a), Area(b)) != 0.0
    requires a.x2 <= b.x1 || b.x2 <= a.x1 || a.y2 <= b.y1 || b.y2 <= a.y1
    ensures OverlapPercentage(a, b) == 0.0
  {
    DisjointNoIntersection(a, b);
  }

  /** A box lying inside the other, in either order, overlaps by exactly 100 percent. */
  lemma OverlapInside(a: Rect, b: Rect)
    requires Normalized(a) && Normalized(b)
    requires Inside(a, b) || Inside(b, a)
    ensures OverlapPercentage(a, b) == 100.0
  {
    if Inside(a, b) {
      InsideIntersection(a, b);
      var aa := Area(a);
      assert aa > 0.0;
      assert Min(aa, Area(b)) == aa == IntersectionArea(a, b);
      SelfRatio(aa);
    } else {
      InsideIntersection(b, a);
      IntersectionSymmetric(a, b);
      var ab := Area(b);
      assert ab > 0.0;
      assert Min(Area(a), ab) == ab == IntersectionArea(a, b);
      SelfRatio(ab);
    }
  }

  /** For boxes with positive area the percentage lies between 0 and 100. */
  lemma OverlapRange(a: Rect, b: Rect)
    requires Normalized(a) && Normalized(b)
    ensures 0.0 <= OverlapPercentage(a, b) <= 100.0
  {
    IntersectionWithinArea(a, b);
    IntersectionWithinArea(b, a);
    IntersectionSymmetric(a, b);
    var m := Min(Area(a), Area(b));
    assert IntersectionArea(a, b) <= m;
    RatioAtMostOne(IntersectionArea(a, b), m);
  }

  lemma SelfRatio(x: real)
    requires x > 0.0
    ensures x / x == 1.0
  {
    assert (x / x) * x == x;
    assert (x / x - 1.0) * x == 0.0;
  }

  lemma RatioAtMostOne(x: real, m: real)
    requires 0.0 <= x <= m && m > 0.0
    ensures 0.0 <= x / m <= 1.0
  {
    assert (x / m) * m == x;
  }

  /** Two boxes of positive area, the first covering more than 60 percent of the smaller. */
  predicate TooMuchOverlap(a: Rect, b: Rect) {
    Normalized(a) && Normalized(b) && OverlapPercentage(a, b) > OverlapLimit
  }

  /** box[4] > threshold (line 50). */
  predicate ScoreAbove(d: Detection) {
    d.conf > ScoreThreshold
  }

  /** box[5] == 1 (line 53). */
  predicate LabelOtolith(d: Detection) {
    d.cls == 1.0
  }

  /** The two comprehensions that run before the deduplication, in order. */
  function FilterOtoliths(raw: seq<Detection>): (r: seq<Detection>)
    ensures |r| <= |raw|
  {
    KeepIf(KeepIf(raw, ScoreAbove), LabelOtolith)
  }

  /** A row is kept exactly when its score exceeds 0.2 and its label is 1. */
  lemma FilterOtolithsMembers(raw: seq<Detection>, d: Detection)
    ensures d in FilterOtoliths(raw) <==> d in raw && ScoreAbove(d) && LabelOtolith(d)
  {
    KeepIfMembers(raw, ScoreAbove, d);
    KeepIfMembers(KeepIf(raw, ScoreAbove), LabelOtolith, d);
  }

  /** box[:4] of every row. */
  function Boxes(ds: seq<Detection>): (r: seq<Rect>)
    ensures |r| == |ds| && forall k :: 0 <= k < |ds| ==> r[k] == ds[k].Box()
  {
    seq(|ds|, k requires 0 <= k < |ds| => ds[k].Box())
  }

  /** The script's two filters select the same boxes, in the same order, as AutoDetector's filter. */
  lemma {:induction false} FilterAgreesWithDetector(raw: seq<Detection>)
    ensures Boxes(FilterOtoliths(raw)) == AutoDetection.FilterDetections(raw)
  {
    if raw != [] {
      FilterAgreesWithDetector(raw[1..]);
      var d := raw[0];
      var rest := KeepIf(raw[1..], ScoreAbove);
      if ScoreAbove(d) {
        assert KeepIf(raw, ScoreAbove) == [d] + rest;
        assert ([d] + rest)[1..] == rest;
        if LabelOtolith(d) {
          assert FilterOtoliths(raw) == [d] + FilterOtoliths(raw[1..]);
        } else {
          assert FilterOtoliths(raw) == FilterOtoliths(raw[1..]);
        }
      } else {
        assert KeepIf(raw, ScoreAbove) == rest;
      }
    }
  }

  /**
    Why a row was popped: it overlapped its keeper too much and was strictly
    smaller when it came first (pop(i)), or not larger when it came second
    (pop(overlap_j)), so on equal size the earlier row stays.
   */
  ghost predicate JustifiedDrop(input: seq<Detection>, e: Removal) {
    && e.dropped < |input| && e.keeper < |input|
    && (if e.dropped < e.keeper
        then TooMuchOverlap(input[e.dropped].Box(), input[e.keeper].Box())
             && Area(input[e.dropped].Box()) < Area(input[e.keeper].Box())
        else TooMuchOverlap(input[e.keeper].Box(), input[e.dropped].Box())
             && Area(input[e.dropped].Box()) <= Area(input[e.keeper].Box()))
  }

  ghost predicate AllJustified(input: seq<Detection>, log: seq<Removal>) {
    forall e :: e in log ==> JustifiedDrop(input, e)
  }

  /** No row before position i covers too much of any later row. */
  ghost predicate ClearBefore(rows: seq<Detection>, i: int) {
    forall p, q :: 0 <= p < i && p < q < |rows| ==> !TooMuchOverlap(rows[p].Box(), rows[q].Box())
  }

  /** Popping a row at or after position i keeps the rows before i clear. */
  lemma PopKeepsClear(rows: seq<Detection>, i: int, p: nat)
    requires ClearBefore(rows, i) && 0 <= i <= p < |rows|
    ensures ClearBefore(rows[..p] + rows[p + 1..], i)
  {
    var b := rows[..p] + rows[p + 1..];
    forall x, y | 0 <= x < i && x < y < |b| ensures !TooMuchOverlap(b[x].Box(), b[y].Box()) {
      assert b[x] == rows[x];
      if y < p {
        assert b[y] == rows[y];
      } else {
        assert b[y] == rows[y + 1];
      }
    }
  }

  /** Every row's box has positive width and height. */
  predicate AllNormalized(rows: seq<Detection>) {
    forall k :: 0 <= k < |rows| ==> Normalized(rows[k].Box())
  }

  /**
    The while loop over result_box_data, one step at a time, from row i and
    candidate partner j: past the end the loop is over; past the last j
    without an overlap, i advances; at the first j that row i covers by more
    than 60 percent the smaller row is popped (row j on a tie) and row i is
    scanned again from i + 1; otherwise j advances.
   */
  function DedupScan(rows: seq<Detection>, i: nat, j: nat): seq<Detection>
    requires i < j
    decreases |rows|, |rows| - i, |rows| - j
  {
    if i >= |rows| then rows
    else if j >= |rows| then DedupScan(rows, i + 1, i + 2)
    else if TooMuchOverlap(rows[i].Box(), rows[j].Box()) then
      if Area(rows[i].Box()) < Area(rows[j].Box()) then DedupScan(Pop(rows, i), i, i + 1)
      else DedupScan(Pop(rows, j), i, i + 1)
    else DedupScan(rows, i, j + 1)
  }

  /** Row i covers none of the rows strictly between i and j by too much. */
  ghost predicate ClearBetween(rows: seq<Detection>, i: nat, j: nat)
    requires i < |rows|
  {
    forall q :: i < q < j && q < |rows| ==> !TooMuchOverlap(rows[i].Box(), rows[q].Box())
  }

  /** Popping the smaller row i keeps every fact the scan relies on. */
  lemma DropEarlier(input: seq<Detection>, rows: seq<Detection>, i: nat, j: nat, kept: seq<nat>, log: seq<Removal>)
    requires i < j < |rows| && Embedding(kept, rows, input)
    requires ClearBefore(rows, i)
    requires AllJustified(input, log) && Logged(|input|, kept, log)
    requires TooMuchOverlap(rows[i].Box(), rows[j].Box()) && Area(rows[i].Box()) < Area(rows[j].Box())
    ensures Embedding(kept[..i] + kept[i + 1..], Pop(rows, i), input)
    ensures ClearBefore(Pop(rows, i), i)
    ensures AllJustified(input, log + [Removal(kept[i], kept[j])])
    ensures Logged(|input|, kept[..i] + kept[i + 1..], log + [Removal(kept[i], kept[j])])
  {
    PopLogged(input, kept, kept[..i] + kept[i + 1..], rows, log, i, Removal(kept[i], kept[j]));
    PopKeepsClear(rows, i, i);
  }

  /** Popping row j, not larger than row i, keeps every fact the scan relies on. */
  lemma DropLater(input: seq<Detection>, rows: seq<Detection>, i: nat, j: nat, kept: seq<nat>, log: seq<Removal>)
    requires i < j < |rows| && Embedding(kept, rows, input)
    requires ClearBefore(rows, i)
    requires AllJustified(input, log) && Logged(|input|, kept, log)
    requires TooMuchOverlap(rows[i].Box(), rows[j].Box()) && Area(rows[i].Box()) >= Area(rows[j].Box())
    ensures Embedding(kept[..j] + kept[j + 1..], Pop(rows, j), input)
    ensures ClearBefore(Pop(rows, j), i)
    ensures AllJustified(input, log + [Removal(kept[j], kept[i])])
    ensures Logged(|input|, kept[..j] + kept[j + 1..], log + [Removal(kept[j], kept[i])])
  {
    PopLogged(input, kept, kept[..j] + kept[j + 1..], rows, log, j, Removal(kept[j], kept[i]));
    PopKeepsClear(rows, i, j);
  }

  /**
    What the loop leaves is the input with rows popped, in order, no row
    covering a later one by more than 60 percent, every pop with a recorded
    reason: shown for the loop resumed from any state it can reach.
   */
  lemma {:induction false} DedupSound(input: seq<Detection>, rows: seq<Detection>, i: nat, j: nat, kept: seq<nat>, log: seq<Removal>)
    returns (kept': seq<nat>, log': seq<Removal>)
    requires i < j
    requires Embedding(kept, rows, input)
    requires ClearBefore(rows, i)
    requires i < |rows| ==> ClearBetween(rows, i, j)
    requires AllJustified(input, log) && Logged(|input|, kept, log)
    ensures Embedding(kept', DedupScan(rows, i, j), input)
    ensures ClearBefore(DedupScan(rows, i, j), |DedupScan(rows, i, j)|)
    ensures AllJustified(input, log') && Logged(|input|, kept', log')
    decreases |rows|, |rows| - i, |rows| - j, 1
  {
    if i >= |rows| {
      kept', log' := kept, log;
    } else if j >= |rows| {
      kept', log' := DedupSound(input, rows, i + 1, i + 2, kept, log);
    } else if TooMuchOverlap(rows[i].Box(), rows[j].Box()) {
      kept', log' := DedupSoundPop(input, rows, i, j, kept, log);
    } else {
      kept', log' := DedupSound(input, rows, i, j + 1, kept, log);
    }
  }

  /** The step of DedupSound where row i covers row j too much and one of them is popped. */
  lemma {:induction false} DedupSoundPop(input: seq<Detection>, rows: seq<Detection>, i: nat, j: nat, kept: seq<nat>, log: seq<Removal>)
    returns (kept': seq<nat>, log': seq<Removal>)
    requires i < j < |rows| && TooMuchOverlap(rows[i].Box(), rows[j].Box())
    requires Embedding(kept, rows, input)
    requires ClearBefore(rows, i) && ClearBetween(rows, i, j)
    requires AllJustified(input, log) && Logged(|input|, kept, log)
    ensures Embedding(kept', DedupScan(rows, i, j), input)
    ensures ClearBefore(DedupScan(rows, i, j), |DedupScan(rows, i, j)|)
    ensures AllJustified(input, log') && Logged(|input|, kept', log')
    decreases |rows|, |rows| - i, |rows| - j, 0
  {
    if Area(rows[i].Box()) < Area(rows[j].Box()) {
      DropEarlier(input, rows, i, j, kept, log);
      kept', log' := DedupSound(input, Pop(rows, i), i, i + 1, kept[..i] + kept[i + 1..], log + [Removal(kept[i], kept[j])]);
    } else {
      DropLater(input, rows, i, j, kept, log);
      kept', log' := DedupSound(input, Pop(rows, j), i, i + 1, kept[..j] + kept[j + 1..], log + [Removal(kept[j], kept[i])]);
    }
  }

  /** DedupSound for the loop as the script starts it: i = 0, nothing popped. */
  lemma DedupFromStart(input: seq<Detection>) returns (kept: seq<nat>, log: seq<Removal>)
    ensures Embedding(kept, DedupScan(input, 0, 1), input)
    ensures ClearBefore(DedupScan(input, 0, 1), |DedupScan(input, 0, 1)|)
    ensures AllJustified(input, log) && Logged(|input|, kept, log)
  {
    LoggedInitially(input);
    kept, log := DedupSound(input, input, 0, 1, seq(|input|, k => k), []);
  }

  /**
    The while loop over result_box_data (lines 54-76). For row i the inner
    for loop finds the first later row j that i covers by more than 60
    percent; then the smaller of the two is popped (row j on a tie) and i is
    scanned again, otherwise i advances. The loop computes DedupScan from the
    start, so the rows left are the input in its order minus popped rows,
    each pop has a recorded reason, and no row left covers more than 60
    percent of a later one.
   */
  method DedupByOverlap(input: seq<Detection>)
    returns (result: seq<Detection>, ghost kept: seq<nat>, ghost log: seq<Removal>)
    requires AllNormalized(input)
    ensures result == DedupScan(input, 0, 1)
    ensures Embedding(kept, result, input)
    ensures forall p, q :: 0 <= p < q < |result| ==> !TooMuchOverlap(result[p].Box(), result[q].Box())
    ensures forall e :: e in log ==> JustifiedDrop(input, e)
    ensures Logged(|input|, kept, log)
  {
    result := input;
    ghost var target := DedupScan(input, 0, 1);
    var i := 0;
    while i < |result|
      invariant 0 <= i <= |result|
      invariant AllNormalized(result)
      invariant DedupScan(result, i, i + 1) == target
      decreases |result|, |result| - i
    {
      var found := false;
      var overlapJ := 0;
      var j := i + 1;
      while j < |result|
        invariant i < j <= |result|
        invariant DedupScan(result, i, j) == target
      {
        var rect1, rect2 := result[i].Box(), result[j].Box();
        assert Normalized(rect1) && Normalized(rect2);
        if OverlapPercentage(rect1, rect2) > OverlapLimit {
          found := true;
          overlapJ := j;
          break;
        }
        j := j + 1;
      }
      if found {
        var iBoxSize := Area(result[i].Box());
        var jBoxSize := Area(result[overlapJ].Box());
        if iBoxSize < jBoxSize {
          result := Pop(result, i);
        } else {
          result := Pop(result, overlapJ);
        }
      } else {
        i := i + 1;
      }
    }
    kept, log := DedupFromStart(input);
  }

  /**
    Lines 49-76 for one image: the score and label filters, then the
    deduplication. What is left is DedupScan of the filtered rows: a
    subsequence of them, each pop justified, with no pair over the 60
    percent limit.
   */
  method SelectOtoliths(raw: seq<Detection>)
    returns (result: seq<Detection>, ghost kept: seq<nat>, ghost log: seq<Removal>)
    requires forall k :: 0 <= k < |raw| && ScoreAbove(raw[k]) && LabelOtolith(raw[k]) ==> Normalized(raw[k].Box())
    ensures result == DedupScan(FilterOtoliths(raw), 0, 1)
    ensures Embedding(kept, result, FilterOtoliths(raw))
    ensures forall e :: e in log ==> JustifiedDrop(FilterOtoliths(raw), e)
    ensures Logged(|FilterOtoliths(raw)|, kept, log)
    ensures |result| <= |FilterOtoliths(raw)|
    ensures forall k :: 0 <= k < |result| ==> result[k] in raw && ScoreAbove(result[k]) && LabelOtolith(result[k])
    ensures forall p, q :: 0 <= p < q < |result| ==> !TooMuchOverlap(result[p].Box(), result[q].Box())
  {
    var filtered := FilterOtoliths(raw);
    forall k | 0 <= k < |filtered| ensures Normalized(filtered[k].Box()) {
      FilterOtolithsMembers(raw, filtered[k]);
      var n :| 0 <= n < |raw| && raw[n] == filtered[k];
    }
    result, kept, log := DedupByOverlap(filtered);
    EmbeddingLength(kept, result, filtered);
    forall k | 0 <= k < |result| ensures result[k] in raw && ScoreAbove(result[k]) && LabelOtolith(result[k]) {
      assert result[k] == filtered[kept[k]];
      FilterOtolithsMembers(raw, result[k]);
    }
  }
}
