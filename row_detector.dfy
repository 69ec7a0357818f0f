/**
  RowDetector: groups the boxes of the current image into rows, top to
  bottom. Each round sorts the boxes still unassigned by their top edge,
  takes the run of boxes whose vertical centre is within 30 of the topmost
  one, fits a line through their centres, and claims every unassigned box
  whose centre lies within 15 of that line; when none does, the topmost box
  becomes a row of its own. The least-squares fit is a parameter.
 */
module RowDetection {
  import opened Geometry
  import opened Sequences
  import opened BoundingBoxes

  /** Default threshold of _select_candidate_boxes. */
  const CandidateThreshold: real := 30.0

  /** Default threshold of _find_boxes_for_line. */
  const LineThreshold: real := 15.0

  /** A row: the line y = slope * x + intercept and the boxes it was fitted to. */
  datatype RowLine = RowLine(slope: real, intercept: real, boxes: seq<Box>)

  /**
    np.linalg.lstsq over the box centres: given the x and the y centres it
    returns (slope, intercept). It is foreign numeric code, so the model
    takes it as an arbitrary function.
   */
  type LeastSquares = (seq<real>, seq<real>) -> (real, real)

  function XCenter(b: Box): real {
    (b.x1 + b.x2) / 2.0
  }

  function YCenter(b: Box): real {
    (b.y1 + b.y2) / 2.0
  }

  /** The sort key lambda b: b.y1. */
  function Top(b: Box): real {
    b.y1
  }

  /** The ids of a list of boxes. */
  function Ids(boxes: seq<Box>): set<BoxId> {
    set b | b in boxes :: b.id
  }

  /** Vertical distance from the box's centre to the line at the centre's x. */
  function DistanceToLine(line: RowLine, b: Box): (d: real)
    ensures d >= 0.0
  {
    Abs(YCenter(b) - (line.slope * XCenter(b) + line.intercept))
  }

  /** The test of _find_boxes_for_line: not yet used and closer than the threshold. */
  function Claimable(line: RowLine, used: set<BoxId>, threshold: real): (p: Box -> bool)
    ensures forall b: Box :: b.id in used ==> !p(b)
    ensures threshold <= 0.0 ==> forall b: Box :: !p(b)
  {
    (b: Box) => b.id !in used && DistanceToLine(line, b) < threshold
  }

  /**
    The end of the run of boxes, from position k on, whose vertical centre is
    within threshold of first: the first position that is not, or the end.
   */
  function RunEnd(boxes: seq<Box>, first: real, threshold: real, k: nat): (e: nat)
    requires k <= |boxes|
    ensures k <= e <= |boxes|
    ensures forall m :: k <= m < e ==> Abs(YCenter(boxes[m]) - first) < threshold
    ensures e < |boxes| ==> Abs(YCenter(boxes[e]) - first) >= threshold
    decreases |boxes| - k
  {
    if k == |boxes| then k
    else if Abs(YCenter(boxes[k]) - first) < threshold then RunEnd(boxes, first, threshold, k + 1)
    else k
  }

  /** The candidate group of a round: the first box and the run after it. */
  function CandidateRun(boxes: seq<Box>, threshold: real): seq<Box> {
    if boxes == [] then [] else boxes[..RunEnd(boxes, YCenter(boxes[0]), threshold, 1)]
  }

  /**
    _fit_line_to_boxes: a single box gives the horizontal line through its
    centre; more boxes give the least-squares line through their centres.
    Either way the row keeps the boxes it was fitted to.
   */
  function FitLineToBoxes(boxes: seq<Box>, lstsq: LeastSquares): (line: RowLine)
    ensures line.boxes == boxes
    ensures |boxes| == 1 ==> line.slope == 0.0
  {
    if |boxes| == 1 then
      RowLine(0.0, YCenter(boxes[0]), boxes)
    else
      var xs := seq(|boxes|, k requires 0 <= k < |boxes| => XCenter(boxes[k]));
      var ys := seq(|boxes|, k requires 0 <= k < |boxes| => YCenter(boxes[k]));
      var (slope, intercept) := lstsq(xs, ys);
      RowLine(slope, intercept, boxes)
  }

  /** A line fitted to one box runs through its centre, so that box is claimed unless already used. */
  lemma SingleFitClaimsBox(b: Box, used: set<BoxId>, lstsq: LeastSquares)
    ensures DistanceToLine(FitLineToBoxes([b], lstsq), b) == 0.0
    ensures Claimable(FitLineToBoxes([b], lstsq), used, LineThreshold)(b) <==> b.id !in used
  {
  }

  class RowDetector {
    /** The boxes of the bound BoundingBoxManager. */
    var managerBoxes: seq<Box>
    var rows: seq<RowLine>
    /** Ids of the boxes already assigned to a row. */
    var usedBoxes: set<BoxId>

    constructor (managerBoxes: seq<Box>)
      ensures this.managerBoxes == managerBoxes && rows == [] && usedBoxes == {}
    {
      this.managerBoxes := managerBoxes;
      rows := [];
      usedBoxes := {};
    }

    /**
      _select_candidate_boxes: the longest prefix of boxes, starting with the
      first box, in which every box's vertical centre is within threshold of
      the first box's; the scan stops at the first box that is not.
     */
    method SelectCandidateBoxes(boxes: seq<Box>, threshold: real) returns (candidates: seq<Box>)
      ensures candidates == CandidateRun(boxes, threshold)
      ensures boxes == [] ==> candidates == []
      ensures boxes != [] ==> 1 <= |candidates| <= |boxes| && candidates == boxes[..|candidates|]
      ensures forall k :: 1 <= k < |candidates| ==> Abs(YCenter(candidates[k]) - YCenter(boxes[0])) < threshold
      ensures boxes != [] && |candidates| < |boxes| ==> Abs(YCenter(boxes[|candidates|]) - YCenter(boxes[0])) >= threshold
    {
      if boxes == [] {
        return [];
      }
      candidates := [boxes[0]];
      var firstCenter := YCenter(boxes[0]);
      var k := 1;
      while k < |boxes|
        invariant 1 <= k <= |boxes|
        invariant candidates == boxes[..k]
        invariant forall m :: 1 <= m < k ==> Abs(YCenter(boxes[m]) - firstCenter) < threshold
        invariant RunEnd(boxes, firstCenter, threshold, k) == RunEnd(boxes, firstCenter, threshold, 1)
      {
        var center := YCenter(boxes[k]);
        if Abs(center - firstCenter) < threshold {
          candidates := candidates + [boxes[k]];
        } else {
          break;
        }
        k := k + 1;
      }
    }

    /**
      _find_boxes_for_line: in input order, exactly the boxes whose id is not
      in usedBoxes and whose centre lies within threshold of the line.
     */
    method FindBoxesForLine(line: RowLine, boxes: seq<Box>, threshold: real) returns (rowBoxes: seq<Box>)
      ensures rowBoxes == KeepIf(boxes, Claimable(line, usedBoxes, threshold))
    {
      rowBoxes := [];
      ghost var claim := Claimable(line, usedBoxes, threshold);
      var k := 0;
      while k < |boxes|
        invariant 0 <= k <= |boxes|
        invariant rowBoxes == KeepIf(boxes[..k], claim)
      {
        var box := boxes[k];
        assert boxes[..k + 1] == boxes[..k] + [box];
        KeepIfSnoc(boxes[..k], box, claim);
        assert claim(box) <==> box.id !in usedBoxes && DistanceToLine(line, box) < threshold;
        if box.id !in usedBoxes {
          var xCenter := XCenter(box);
          var yCenter := YCenter(box);
          var lineY := line.slope * xCenter + line.intercept;
          var distance := Abs(yCenter - lineY);
          if distance < threshold {
            assert claim(box);
            rowBoxes := rowBoxes + [box];
          } else {
            assert !claim(box);
          }
        } else {
          assert !claim(box);
        }
        k := k + 1;
      }
      assert boxes[..k] == boxes;
    }

    /**
      The loop of detect_rows over the boxes of a new row: each one's id is
      added to usedBoxes and its first occurrence leaves the unassigned list.
     */
    method ClaimRowBoxes(rowBoxes: seq<Box>, remaining: seq<Box>) returns (rest: seq<Box>)
      requires multiset(rowBoxes) <= multiset(remaining)
      modifies this`usedBoxes
      ensures rest == RemoveAll(remaining, rowBoxes)
      ensures usedBoxes == old(usedBoxes) + Ids(rowBoxes)
    {
      rest := remaining;
      ghost var used0 := usedBoxes;
      var k := 0;
      ClaimStart(remaining, rowBoxes, used0);
      while k < |rowBoxes|
        invariant 0 <= k <= |rowBoxes|
        invariant ClaimedPrefix(remaining, rowBoxes, k, used0, rest, usedBoxes)
      {
        var box := rowBoxes[k];
        ClaimStep(remaining, rowBoxes, k, used0, rest, usedBoxes);
        usedBoxes := usedBoxes + {box.id};
        rest := RemoveFirst(rest, box);
        k := k + 1;
      }
      ClaimEnd(remaining, rowBoxes, used0, rest, usedBoxes);
    }

    /**
      One pass of the while loop of detect_rows over the unassigned boxes:
      the row it appends, the boxes left unassigned and the ids it marks
      used are exactly those of Round. Every box it takes off the unassigned
      list has its id marked used.
     */
    method DetectRound(remaining: seq<Box>, lstsq: LeastSquares) returns (row: RowLine, rest: seq<Box>)
      requires remaining != []
      modifies this`usedBoxes
      ensures (row, rest, usedBoxes) == Round(remaining, old(usedBoxes), lstsq)
      ensures |rest| < |remaining|
      ensures RowsFrom(remaining, old(usedBoxes), lstsq) == [row] + RowsFrom(rest, usedBoxes, lstsq)
      ensures usedBoxes + Ids(rest) == old(usedBoxes) + Ids(remaining)
    {
      ghost var used0 := usedBoxes;
      var sorted := SortBy(remaining, Top);
      var candidateBoxes := SelectCandidateBoxes(sorted, CandidateThreshold);
      // the source breaks out here on an empty candidate list, which a non-empty list never gives
      assert candidateBoxes != [];
      var line := FitLineToBoxes(candidateBoxes, lstsq);
      var rowBoxes := FindBoxesForLine(line, sorted, LineThreshold);
      RowsFromStep(remaining, usedBoxes, lstsq, sorted, line, rowBoxes);
      RoundShrinks(remaining, usedBoxes, lstsq);
      if rowBoxes != [] {
        row := line;
        ClaimedIds(remaining, sorted, rowBoxes, usedBoxes);
        rest := ClaimRowBoxes(rowBoxes, sorted);
      } else {
        var singleBox := sorted[0];
        TopIds(remaining, sorted, usedBoxes);
        rest := sorted[1..];
        row := RowLine(0.0, YCenter(singleBox), [singleBox]);
        usedBoxes := usedBoxes + {singleBox.id};
      }
    }

    /**
      detect_rows. rows and usedBoxes start empty; every round takes at
      least one box off the unassigned list and marks its id used, so the
      loop ends with every box's id in usedBoxes. The rows are exactly
      RowsFrom of the manager's boxes: round by round, the line fitted to
      the candidate group (which stores that group) or, when the line claims
      nothing, the topmost box alone.
     */
    method DetectRows(lstsq: LeastSquares) returns (result: seq<RowLine>)
      modifies this`rows, this`usedBoxes
      ensures result == rows
      ensures rows == RowsFrom(managerBoxes, {}, lstsq)
      ensures usedBoxes == Ids(managerBoxes)
    {
      rows := [];
      usedBoxes := {};
      var boxes := managerBoxes;
      var remaining := boxes;
      ghost var target := RowsFrom(boxes, {}, lstsq);
      while remaining != []
        invariant usedBoxes + Ids(remaining) == Ids(boxes)
        invariant rows + RowsFrom(remaining, usedBoxes, lstsq) == target
        decreases |remaining|
      {
        var row, rest := DetectRound(remaining, lstsq);
        ConsumeHead(rows, row, RowsFrom(rest, usedBoxes, lstsq), target);
        rows := rows + [row];
        remaining := rest;
      }
      result := rows;
    }
  }

  /**
    One round of detect_rows on a non-empty list of unassigned boxes: sort
    them by y1, fit a line to the candidate group and claim the unused boxes
    near it; the row stores the line and the candidate group (line 44 appends
    the fitted RowLine). When the line claims nothing, the topmost box becomes
    a row of its own. The result is the row, the boxes still unassigned and
    the new set of used ids.
   */
  function Round(remaining: seq<Box>, used: set<BoxId>, lstsq: LeastSquares): (RowLine, seq<Box>, set<BoxId>)
    requires remaining != []
  {
    var sorted := SortBy(remaining, Top);
    var line := FitLineToBoxes(CandidateRun(sorted, CandidateThreshold), lstsq);
    var claimed := KeepIf(sorted, Claimable(line, used, LineThreshold));
    if claimed != [] then (line, RemoveAll(sorted, claimed), used + Ids(claimed))
    else (RowLine(0.0, YCenter(sorted[0]), [sorted[0]]), sorted[1..], used + {sorted[0].id})
  }

  /** Splitting a list into two parts, as multisets, splits its ids. */
  lemma IdsOfParts(a: seq<Box>, b: seq<Box>, s: seq<Box>)
    requires multiset(a) + multiset(b) == multiset(s)
    ensures Ids(a) + Ids(b) == Ids(s)
  {
    forall x | x in s
      ensures x in a || x in b
    {
      assert x in multiset(s);
      assert x in multiset(a) + multiset(b);
    }
    forall x | x in a || x in b
      ensures x in s
    {
      assert x in multiset(a) || x in multiset(b);
      assert x in multiset(a) + multiset(b);
    }
  }

  /** Lists with the same boxes, as multisets, have the same ids. */
  lemma IdsSame(a: seq<Box>, s: seq<Box>)
    requires multiset(a) == multiset(s)
    ensures Ids(a) == Ids(s)
  {
    forall x | x in s
      ensures x in a
    {
      assert x in multiset(s);
    }
    forall x | x in a
      ensures x in s
    {
      assert x in multiset(a);
    }
  }

  /** Every round assigns at least one box, so the rounds end. */
  lemma RoundShrinks(remaining: seq<Box>, used: set<BoxId>, lstsq: LeastSquares)
    requires remaining != []
    ensures |Round(remaining, used, lstsq).1| < |remaining|
  {
    var sorted := SortBy(remaining, Top);
    var line := FitLineToBoxes(CandidateRun(sorted, CandidateThreshold), lstsq);
    var claimed := KeepIf(sorted, Claimable(line, used, LineThreshold));
    if claimed != [] {
      KeepIfSubMultiset(sorted, Claimable(line, used, LineThreshold));
      RemoveAllCounts(sorted, claimed);
    }
  }

  /** The rows detect_rows builds from a list of unassigned boxes and a set of used ids, round by round. */
  function RowsFrom(remaining: seq<Box>, used: set<BoxId>, lstsq: LeastSquares): seq<RowLine>
    decreases |remaining|
  {
    if remaining == [] then []
    else
      var r := Round(remaining, used, lstsq);
      RoundShrinks(remaining, used, lstsq);
      [r.0] + RowsFrom(r.1, r.2, lstsq)
  }

  /** One round of RowsFrom, with the round's sorted list, line and claimed boxes named. */
  lemma RowsFromStep(remaining: seq<Box>, used: set<BoxId>, lstsq: LeastSquares, sorted: seq<Box>, line: RowLine, claimed: seq<Box>)
    requires remaining != [] && sorted == SortBy(remaining, Top)
    requires line == FitLineToBoxes(CandidateRun(sorted, CandidateThreshold), lstsq)
    requires claimed == KeepIf(sorted, Claimable(line, used, LineThreshold))
    ensures multiset(claimed) <= multiset(sorted)
    ensures claimed != [] ==>
      Round(remaining, used, lstsq) == (line, RemoveAll(sorted, claimed), used + Ids(claimed))
    ensures claimed == [] ==>
      Round(remaining, used, lstsq) == (RowLine(0.0, YCenter(sorted[0]), [sorted[0]]), sorted[1..], used + {sorted[0].id})
  {
    KeepIfSubMultiset(sorted, Claimable(line, used, LineThreshold));
  }

  /**
    Every row RowsFrom builds is a row group drawn from the boxes, there are
    no more rows than boxes, and there is a row exactly when there is a box.
   */
  lemma {:induction false} RowsFromShape(remaining: seq<Box>, used: set<BoxId>, lstsq: LeastSquares, all: seq<Box>)
    requires multiset(remaining) <= multiset(all)
    ensures forall r :: r in RowsFrom(remaining, used, lstsq) ==> RowGroup(r.boxes, all)
    ensures |RowsFrom(remaining, used, lstsq)| <= |remaining|
    ensures RowsFrom(remaining, used, lstsq) == [] <==> remaining == []
    decreases |remaining|
  {
    if remaining != [] {
      var r := Round(remaining, used, lstsq);
      RoundShrinks(remaining, used, lstsq);
      RoundShape(remaining, used, lstsq, all);
      RowsFromShape(r.1, r.2, lstsq, all);
    }
  }

  /** All the boxes the rows hold, row after row. */
  function RowBoxes(rows: seq<RowLine>): (r: seq<Box>)
    ensures rows == [] ==> r == []
  {
    if rows == [] then [] else rows[0].boxes + RowBoxes(rows[1..])
  }

  /** Three boxes of the example below: centres (10, 10), (30, 10) and (20, 35). */
  const LeftBox: Box := Box("a", 0.0, 0.0, 20.0, 20.0)
  const RightBox: Box := Box("e", 20.0, 0.0, 40.0, 20.0)
  const TallBox: Box := Box("b", 10.0, 5.0, 30.0, 65.0)

  /** How far the centre (xs[k], ys[k]) lies above the line y = m x + c. */
  function Residual(xs: seq<real>, ys: seq<real>, m: real, c: real, k: nat): real
    requires k < |xs| && k < |ys|
  {
    ys[k] - (m * xs[k] + c)
  }

  /**
    y = 55/3 is the least-squares line through the example's three centres:
    it solves the normal equations, its residuals summing to 0 both plainly
    and weighted by x.
   */
  lemma ExampleLineIsLeastSquares(xs: seq<real>, ys: seq<real>, m: real, c: real)
    requires xs == [10.0, 30.0, 20.0] && ys == [10.0, 10.0, 35.0] && m == 0.0 && c == 55.0 / 3.0
    ensures Residual(xs, ys, m, c, 0) + Residual(xs, ys, m, c, 1) + Residual(xs, ys, m, c, 2) == 0.0
    ensures xs[0] * Residual(xs, ys, m, c, 0) + xs[1] * Residual(xs, ys, m, c, 1) + xs[2] * Residual(xs, ys, m, c, 2) == 0.0
  {
  }

  /** A fit that returns that least-squares line for the example's centres, as np.linalg.lstsq does. */
  predicate FitsExample(lstsq: LeastSquares) {
    lstsq([10.0, 30.0, 20.0], [10.0, 10.0, 35.0]) == (0.0, 55.0 / 3.0)
  }

  /** First round of the example, the order: the list is already sorted by y1, and the sort is stable on the tie. */
  lemma ExampleSort()
    ensures SortBy([LeftBox, RightBox, TallBox], Top) == [LeftBox, RightBox, TallBox]
  {
    var a, e, b := LeftBox, RightBox, TallBox;
    assert SortBy([b], Top) == [b];
    assert [a, e, b][1..] == [e, b] && [e, b][1..] == [b];
    assert SortBy([e, b], Top) == [e, b];
  }

  /** First round of the example, the candidates: all three centres lie within 30 of the first. */
  lemma ExampleCandidates()
    ensures CandidateRun([LeftBox, RightBox, TallBox], CandidateThreshold) == [LeftBox, RightBox, TallBox]
  {
    var a, e, b := LeftBox, RightBox, TallBox;
    assert RunEnd([a, e, b], 10.0, CandidateThreshold, 3) == 3;
    assert RunEnd([a, e, b], 10.0, CandidateThreshold, 2) == 3;
  }

  /** First round of the example, the line: the fit is given the three centres and returns y = 55/3. */
  lemma ExampleFirstLine(lstsq: LeastSquares)
    requires FitsExample(lstsq)
    ensures FitLineToBoxes([LeftBox, RightBox, TallBox], lstsq) == RowLine(0.0, 55.0 / 3.0, [LeftBox, RightBox, TallBox])
  {
    var boxes := [LeftBox, RightBox, TallBox];
    assert seq(3, k requires 0 <= k < 3 => XCenter(boxes[k])) == [10.0, 30.0, 20.0];
    assert seq(3, k requires 0 <= k < 3 => YCenter(boxes[k])) == [10.0, 10.0, 35.0];
  }

  /** First round of the example, the claim: y = 55/3 lies 25/3 from the two upper centres and 50/3 from the tall box's. */
  lemma ExampleFirstClaim(line: RowLine)
    requires line == RowLine(0.0, 55.0 / 3.0, [LeftBox, RightBox, TallBox])
    ensures KeepIf([LeftBox, RightBox, TallBox], Claimable(line, {}, LineThreshold)) == [LeftBox, RightBox]
  {
    var a, e, b := LeftBox, RightBox, TallBox;
    assert DistanceToLine(line, b) == 50.0 / 3.0;
    assert KeepIf([b], Claimable(line, {}, LineThreshold)) == [];
    assert [a, e, b][1..] == [e, b] && [e, b][1..] == [b];
  }

  /** First round of the example, the removal: taking out the two claimed boxes leaves the tall box. */
  lemma ExampleFirstRest()
    ensures RemoveAll([LeftBox, RightBox, TallBox], [LeftBox, RightBox]) == [TallBox]
  {
    var a, e, b := LeftBox, RightBox, TallBox;
    assert [a, e][..1] == [a] && [a][..0] == [];
    assert RemoveFirst([a, e, b], a) == [e, b];
    assert RemoveAll([a, e, b], [a]) == [e, b];
    assert RemoveFirst([e, b], e) == [b];
  }

  /** First round of the example, the used ids: those of the two claimed boxes. */
  lemma ExampleFirstIds()
    ensures Ids([LeftBox, RightBox]) == {"a", "e"}
  {
    assert LeftBox in [LeftBox, RightBox] && RightBox in [LeftBox, RightBox];
  }

  /** First round of the example: the row is the line y = 55/3 with all three boxes, and the tall box is left. */
  lemma ExampleFirstRound(lstsq: LeastSquares)
    requires FitsExample(lstsq)
    ensures Round([LeftBox, RightBox, TallBox], {}, lstsq).0 == RowLine(0.0, 55.0 / 3.0, [LeftBox, RightBox, TallBox])
    ensures Round([LeftBox, RightBox, TallBox], {}, lstsq).1 == [TallBox]
    ensures Round([LeftBox, RightBox, TallBox], {}, lstsq).2 == {"a", "e"}
  {
    var boxes := [LeftBox, RightBox, TallBox];
    ExampleSort();
    ExampleCandidates();
    ExampleFirstLine(lstsq);
    var line := FitLineToBoxes(boxes, lstsq);
    ExampleFirstClaim(line);
    ExampleFirstRest();
    ExampleFirstIds();
    RowsFromStep(boxes, {}, lstsq, boxes, line, [LeftBox, RightBox]);
  }

  /** Second round of the example: the tall box alone, its own horizontal line claims it. */
  lemma ExampleSecondRound(lstsq: LeastSquares)
    ensures Round([TallBox], {"a", "e"}, lstsq).0 == RowLine(0.0, 35.0, [TallBox])
    ensures Round([TallBox], {"a", "e"}, lstsq).1 == []
    ensures Round([TallBox], {"a", "e"}, lstsq).2 == {"a", "e", "b"}
  {
    var b := TallBox;
    assert SortBy([b], Top) == [b];
    assert CandidateRun([b], CandidateThreshold) == [b];
    var line := FitLineToBoxes([b], lstsq);
    assert line == RowLine(0.0, 35.0, [b]);
    assert KeepIf([b], Claimable(line, {"a", "e"}, LineThreshold)) == [b];
    assert RemoveAll([b], [b]) == [] by {
      assert [b][..0] == [];
    }
    assert Ids([b]) == {"b"} by {
      assert b in [b];
    }
    RowsFromStep([b], {"a", "e"}, lstsq, [b], line, [b]);
  }

  /** The rows from a non-empty list: the row of its first round, then the rows of what that round leaves. */
  lemma RowsFromRound(remaining: seq<Box>, used: set<BoxId>, lstsq: LeastSquares, row: RowLine, rest: seq<Box>, used': set<BoxId>)
    requires remaining != []
    requires Round(remaining, used, lstsq).0 == row && Round(remaining, used, lstsq).1 == rest && Round(remaining, used, lstsq).2 == used'
    ensures RowsFrom(remaining, used, lstsq) == [row] + RowsFrom(rest, used', lstsq)
  {
  }

  /**
    As written, a row keeps the candidate group its line was fitted to
    rather than the boxes the line claimed. Three boxes whose centres lie
    within 30 of the first form one candidate group; their least-squares
    line claims only the two upper boxes, so the tall box is left
    unassigned, becomes a row of its own and so sits in both rows.
   */
  lemma RepeatedBoxAsWritten(lstsq: LeastSquares)
    requires FitsExample(lstsq)
    ensures RowsFrom([LeftBox, RightBox, TallBox], {}, lstsq)
      == [RowLine(0.0, 55.0 / 3.0, [LeftBox, RightBox, TallBox]), RowLine(0.0, 35.0, [TallBox])]
    ensures multiset(RowBoxes(RowsFrom([LeftBox, RightBox, TallBox], {}, lstsq)))[TallBox] == 2
  {
    var rows := [RowLine(0.0, 55.0 / 3.0, [LeftBox, RightBox, TallBox]), RowLine(0.0, 35.0, [TallBox])];
    ExampleFirstRows(lstsq);
    ExampleSecondRows(lstsq);
    RowsOfTwo(RowsFrom([LeftBox, RightBox, TallBox], {}, lstsq), RowsFrom([TallBox], {"a", "e"}, lstsq), rows[0], rows[1]);
    ExampleRowBoxes();
  }

  /** A list of rows that is one row followed by a list of one row is the list of those two rows. */
  lemma RowsOfTwo(a: seq<RowLine>, b: seq<RowLine>, first: RowLine, second: RowLine)
    requires a == [first] + b && b == [second]
    ensures a == [first, second]
  {
  }

  /** The example's rows, first round: the row y = 55/3, then the rows of the tall box with the two upper ids used. */
  lemma ExampleFirstRows(lstsq: LeastSquares)
    requires FitsExample(lstsq)
    ensures RowsFrom([LeftBox, RightBox, TallBox], {}, lstsq)
      == [RowLine(0.0, 55.0 / 3.0, [LeftBox, RightBox, TallBox])] + RowsFrom([TallBox], {"a", "e"}, lstsq)
  {
    ExampleFirstRound(lstsq);
    RowsFromRound([LeftBox, RightBox, TallBox], {}, lstsq, RowLine(0.0, 55.0 / 3.0, [LeftBox, RightBox, TallBox]), [TallBox], {"a", "e"});
  }

  /** The example's rows, second round: the tall box's own row, and nothing after it. */
  lemma ExampleSecondRows(lstsq: LeastSquares)
    ensures RowsFrom([TallBox], {"a", "e"}, lstsq) == [RowLine(0.0, 35.0, [TallBox])]
  {
    ExampleSecondRound(lstsq);
    RowsFromRound([TallBox], {"a", "e"}, lstsq, RowLine(0.0, 35.0, [TallBox]), [], {"a", "e", "b"});
  }

  /** The example's rows hold the tall box twice. */
  lemma ExampleRowBoxes()
    ensures multiset(RowBoxes([RowLine(0.0, 55.0 / 3.0, [LeftBox, RightBox, TallBox]), RowLine(0.0, 35.0, [TallBox])]))[TallBox] == 2
  {
    var rows := [RowLine(0.0, 55.0 / 3.0, [LeftBox, RightBox, TallBox]), RowLine(0.0, 35.0, [TallBox])];
    assert rows[1..] == [RowLine(0.0, 35.0, [TallBox])];
    assert RowBoxes(rows) == [LeftBox, RightBox, TallBox, TallBox];
  }

  /**
    Round with the row holding the boxes its line claimed, which is what a
    row of boxes is for; the line itself is unchanged.
   */
  function RoundClaimed(remaining: seq<Box>, used: set<BoxId>, lstsq: LeastSquares): (RowLine, seq<Box>, set<BoxId>)
    requires remaining != []
  {
    var sorted := SortBy(remaining, Top);
    var line := FitLineToBoxes(CandidateRun(sorted, CandidateThreshold), lstsq);
    var claimed := KeepIf(sorted, Claimable(line, used, LineThreshold));
    if claimed != [] then (RowLine(line.slope, line.intercept, claimed), RemoveAll(sorted, claimed), used + Ids(claimed))
    else (RowLine(0.0, YCenter(sorted[0]), [sorted[0]]), sorted[1..], used + {sorted[0].id})
  }

  /** A corrected round moves its row's boxes, and only those, off the unassigned list. */
  lemma RoundClaimedParts(remaining: seq<Box>, used: set<BoxId>, lstsq: LeastSquares)
    requires remaining != []
    ensures multiset(RoundClaimed(remaining, used, lstsq).0.boxes) + multiset(RoundClaimed(remaining, used, lstsq).1) == multiset(remaining)
    ensures |RoundClaimed(remaining, used, lstsq).1| < |remaining|
  {
    var sorted := SortBy(remaining, Top);
    var line := FitLineToBoxes(CandidateRun(sorted, CandidateThreshold), lstsq);
    var claimed := KeepIf(sorted, Claimable(line, used, LineThreshold));
    if claimed != [] {
      KeepIfSubMultiset(sorted, Claimable(line, used, LineThreshold));
      RemoveAllCounts(sorted, claimed);
    } else {
      assert sorted == [sorted[0]] + sorted[1..];
    }
  }

  /** The rows of the corrected rounds. */
  function RowsClaimed(remaining: seq<Box>, used: set<BoxId>, lstsq: LeastSquares): seq<RowLine>
    decreases |remaining|
  {
    if remaining == [] then []
    else
      var r := RoundClaimed(remaining, used, lstsq);
      RoundClaimedParts(remaining, used, lstsq);
      [r.0] + RowsClaimed(r.1, r.2, lstsq)
  }

  /** The corrected rows from a non-empty list: the row of its first round, then the rows of what that round leaves. */
  lemma RowsClaimedRound(remaining: seq<Box>, used: set<BoxId>, lstsq: LeastSquares, row: RowLine, rest: seq<Box>, used': set<BoxId>)
    requires remaining != []
    requires RoundClaimed(remaining, used, lstsq).0 == row && RoundClaimed(remaining, used, lstsq).1 == rest
    requires RoundClaimed(remaining, used, lstsq).2 == used'
    ensures RowsClaimed(remaining, used, lstsq) == [row] + RowsClaimed(rest, used', lstsq)
  {
  }

  /** The boxes of one row followed by more rows: that row's boxes, then theirs. */
  lemma RowBoxesCons(row: RowLine, rows: seq<RowLine>)
    ensures RowBoxes([row] + rows) == row.boxes + RowBoxes(rows)
  {
    assert ([row] + rows)[1..] == rows;
  }

  /** With the correction, the rows split the boxes: each box is in exactly one row. */
  lemma {:induction false} RowsClaimedPartition(remaining: seq<Box>, used: set<BoxId>, lstsq: LeastSquares)
    ensures multiset(RowBoxes(RowsClaimed(remaining, used, lstsq))) == multiset(remaining)
    decreases |remaining|
  {
    if remaining != [] {
      var r := RoundClaimed(remaining, used, lstsq);
      var row, rest, used' := r.0, r.1, r.2;
      RoundClaimedParts(remaining, used, lstsq);
      RowsClaimedPartition(rest, used', lstsq);
      RowsClaimedRound(remaining, used, lstsq, row, rest, used');
      RowBoxesCons(row, RowsClaimed(rest, used', lstsq));
    }
  }

  /** The rows built from a list of boxes are row groups drawn from it; there are no more rows than boxes, and some row exactly when some box. */
  lemma DetectedShape(rows: seq<RowLine>, boxes: seq<Box>, lstsq: LeastSquares)
    requires rows == RowsFrom(boxes, {}, lstsq)
    ensures RowsDrawnFrom(rows, boxes)
    ensures |rows| <= |boxes|
    ensures rows == [] <==> boxes == []
  {
    RowsFromShape(boxes, {}, lstsq, boxes);
  }

  /** The row of one round is a row group drawn from the boxes, and what is left stays within them. */
  lemma RoundShape(remaining: seq<Box>, used: set<BoxId>, lstsq: LeastSquares, all: seq<Box>)
    requires remaining != [] && multiset(remaining) <= multiset(all)
    ensures RowGroup(Round(remaining, used, lstsq).0.boxes, all)
    ensures multiset(Round(remaining, used, lstsq).1) <= multiset(all)
  {
    var sorted := SortBy(remaining, Top);
    var line := FitLineToBoxes(CandidateRun(sorted, CandidateThreshold), lstsq);
    var claimed := KeepIf(sorted, Claimable(line, used, LineThreshold));
    RowsFromStep(remaining, used, lstsq, sorted, line, claimed);
    SortBySorted(remaining, Top);
    if claimed != [] {
      RunGroup(sorted, all);
      RemainderWithin(sorted, claimed, all);
    } else {
      TopWithin(sorted, all);
    }
  }

  /** The candidate run of a sorted list drawn from all is a row group. */
  lemma RunGroup(sorted: seq<Box>, all: seq<Box>)
    requires sorted != [] && SortedBy(sorted, Top) && multiset(sorted) <= multiset(all)
    ensures RowGroup(CandidateRun(sorted, CandidateThreshold), all)
  {
    var e := RunEnd(sorted, YCenter(sorted[0]), CandidateThreshold, 1);
    var part := sorted[..e];
    assert forall k :: 1 <= k < |part| ==> part[k] == sorted[k];
    CandidatesGroup(part, sorted, all);
  }

  /** What is left of a list drawn from all after claiming some of its boxes is still drawn from all. */
  lemma RemainderWithin(sorted: seq<Box>, claimed: seq<Box>, all: seq<Box>)
    requires multiset(claimed) <= multiset(sorted) && multiset(sorted) <= multiset(all)
    ensures multiset(RemoveAll(sorted, claimed)) <= multiset(all)
  {
    RemoveAllCounts(sorted, claimed);
  }

  /** The topmost box alone is a row group, and the boxes after it are still drawn from all. */
  lemma TopWithin(sorted: seq<Box>, all: seq<Box>)
    requires sorted != [] && multiset(sorted) <= multiset(all)
    ensures RowGroup([sorted[0]], all)
    ensures multiset(sorted[1..]) <= multiset(all)
  {
    assert sorted == [sorted[0]] + sorted[1..];
    InAll(sorted[0], sorted, all);
    SingleGroup(sorted[0], all);
  }

  /** The ids a claiming round marks used are those of the boxes it takes off the unassigned list. */
  lemma ClaimedIds(remaining: seq<Box>, sorted: seq<Box>, claimed: seq<Box>, used: set<BoxId>)
    requires multiset(sorted) == multiset(remaining) && multiset(claimed) <= multiset(sorted)
    ensures (used + Ids(claimed)) + Ids(RemoveAll(sorted, claimed)) == used + Ids(remaining)
  {
    RemoveAllCounts(sorted, claimed);
    IdsOfParts(RemoveAll(sorted, claimed), claimed, sorted);
    IdsSame(sorted, remaining);
  }

  /** The same for a round that makes the topmost box a row of its own. */
  lemma TopIds(remaining: seq<Box>, sorted: seq<Box>, used: set<BoxId>)
    requires sorted != [] && multiset(sorted) == multiset(remaining)
    ensures (used + {sorted[0].id}) + Ids(sorted[1..]) == used + Ids(remaining)
  {
    assert sorted == [sorted[0]] + sorted[1..];
    IdsOfParts(sorted[1..], [sorted[0]], sorted);
    IdsSame(sorted, remaining);
  }



  /**
    A row's box list as detect_rows builds it: a non-empty run of the
    manager's boxes in order of y1, each with its vertical centre within the
    candidate threshold of the first one's.
   */
  ghost predicate RowGroup(boxes: seq<Box>, all: seq<Box>) {
    && boxes != []
    && (forall b :: b in boxes ==> b in all)
    && SortedBy(boxes, Top)
    && forall k :: 0 <= k < |boxes| ==> Abs(YCenter(boxes[k]) - YCenter(boxes[0])) < CandidateThreshold
  }

  ghost predicate RowsDrawnFrom(rows: seq<RowLine>, all: seq<Box>) {
    forall r :: r in rows ==> RowGroup(r.boxes, all)
  }

  /**
    The state of the claiming loop after the first k boxes of the row: those
    boxes are out of the unassigned list, one occurrence each, and their ids
    are added to the used ones.
   */
  ghost predicate ClaimedPrefix(remaining: seq<Box>, rowBoxes: seq<Box>, k: nat, used0: set<BoxId>, rest: seq<Box>, used: set<BoxId>) {
    && k <= |rowBoxes|
    && multiset(rowBoxes[..k]) <= multiset(remaining)
    && rest == RemoveAll(remaining, rowBoxes[..k])
    && used == used0 + Ids(rowBoxes[..k])
  }

  lemma ClaimStart(remaining: seq<Box>, rowBoxes: seq<Box>, used0: set<BoxId>)
    ensures ClaimedPrefix(remaining, rowBoxes, 0, used0, remaining, used0)
  {
    assert rowBoxes[..0] == [];
  }

  lemma ClaimEnd(remaining: seq<Box>, rowBoxes: seq<Box>, used0: set<BoxId>, rest: seq<Box>, used: set<BoxId>)
    requires multiset(rowBoxes) <= multiset(remaining)
    requires ClaimedPrefix(remaining, rowBoxes, |rowBoxes|, used0, rest, used)
    ensures rest == RemoveAll(remaining, rowBoxes) && used == used0 + Ids(rowBoxes)
  {
    assert rowBoxes[..|rowBoxes|] == rowBoxes;
  }

  /** One box moves from the unassigned list to the claimed ones. */
  lemma ClaimStep(remaining: seq<Box>, rowBoxes: seq<Box>, k: nat, used0: set<BoxId>, rest: seq<Box>, used: set<BoxId>)
    requires k < |rowBoxes| && multiset(rowBoxes) <= multiset(remaining)
    requires ClaimedPrefix(remaining, rowBoxes, k, used0, rest, used)
    ensures rowBoxes[k] in rest
    ensures ClaimedPrefix(remaining, rowBoxes, k + 1, used0, RemoveFirst(rest, rowBoxes[k]), used + {rowBoxes[k].id})
  {
    var box := rowBoxes[k];
    assert rowBoxes == rowBoxes[..k] + [box] + rowBoxes[k + 1..];
    assert multiset(rowBoxes) == multiset(rowBoxes[..k]) + multiset{box} + multiset(rowBoxes[k + 1..]);
    assert rowBoxes[..k + 1] == rowBoxes[..k] + [box];
    assert rowBoxes[..k + 1][..k] == rowBoxes[..k];
    RemoveAllCounts(remaining, rowBoxes[..k]);
    assert multiset(rest)[box] == multiset(remaining)[box] - multiset(rowBoxes[..k])[box] >= 1;
    IdsSnoc(rowBoxes[..k], box);
  }

  lemma InAll(b: Box, s: seq<Box>, all: seq<Box>)
    requires b in s && multiset(s) <= multiset(all)
    ensures b in all && b.id in Ids(all)
  {
    assert b in multiset(s);
  }

  /** The candidate run taken from the sorted unassigned boxes is a row group. */
  lemma CandidatesGroup(part: seq<Box>, s: seq<Box>, all: seq<Box>)
    requires 1 <= |part| <= |s| && part == s[..|part|]
    requires SortedBy(s, Top)
    requires forall k :: 1 <= k < |part| ==> Abs(YCenter(part[k]) - YCenter(s[0])) < CandidateThreshold
    requires multiset(s) <= multiset(all)
    ensures RowGroup(part, all)
  {
    forall b | b in part
      ensures b in all
    {
      assert b in multiset(s);
    }
  }

  lemma SingleGroup(b: Box, all: seq<Box>)
    requires b in all
    ensures RowGroup([b], all)
  {
  }

  lemma IdsSnoc(s: seq<Box>, b: Box)
    ensures Ids(s + [b]) == Ids(s) + {b.id}
  {
  }

}
