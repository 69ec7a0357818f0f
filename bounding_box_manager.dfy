/**
  BoundingBoxManager: the editable list of boxes of the current image, each
  stored as a bare (x1, y1, x2, y2) tuple.
 */
module BoxManager {
  import opened Geometry
  import opened Sequences

  /** The hit test of remove_box: x1 <= x <= x2 and y1 <= y <= y2. */
  predicate Hit(box: Rect, x: real, y: real) {
    ContainsPoint(box, x, y, 0.0)
  }

  class BoundingBoxManager {
    var boxes: seq<Rect>

    constructor ()
      ensures boxes == []
    {
      boxes := [];
    }

    /** add_box: appends the tuple at the end. */
    method AddBox(x1: real, y1: real, x2: real, y2: real)
      modifies this
      ensures boxes == old(boxes) + [Rect(x1, y1, x2, y2)]
      ensures |boxes| == |old(boxes)| + 1
    {
      boxes := boxes + [Rect(x1, y1, x2, y2)];
    }

    /**
      remove_box: scans the list in order and removes the first box that
      holds the point (list.remove of that tuple), then stops. A point that
      no box holds leaves the list as it was.
     */
    method RemoveBox(x: real, y: real)
      modifies this
      ensures (forall k :: 0 <= k < |old(boxes)| ==> !Hit(old(boxes)[k], x, y)) ==> boxes == old(boxes)
      ensures forall k :: 0 <= k < |old(boxes)| && Hit(old(boxes)[k], x, y)
                && (forall m :: 0 <= m < k ==> !Hit(old(boxes)[m], x, y))
                ==> boxes == old(boxes)[..k] + old(boxes)[k + 1..]
    {
      var i := 0;
      while i < |boxes|
        invariant 0 <= i <= |boxes| && boxes == old(boxes)
        invariant forall m :: 0 <= m < i ==> !Hit(boxes[m], x, y)
      {
        var box := boxes[i];
        if Hit(box, x, y) {
          // no earlier tuple equals box: it would have been hit first
          RemoveFirstAt(boxes, i);
          boxes := RemoveFirst(boxes, box);
          break;
        }
        i := i + 1;
      }
    }

    /** edit_box: replaces the tuple at index when 0 <= index < len, otherwise does nothing. */
    method EditBox(index: int, nx1: real, ny1: real, nx2: real, ny2: real)
      modifies this
      ensures 0 <= index < |old(boxes)| ==> boxes == old(boxes)[index := Rect(nx1, ny1, nx2, ny2)]
      ensures !(0 <= index < |old(boxes)|) ==> boxes == old(boxes)
      ensures |boxes| == |old(boxes)|
    {
      if 0 <= index < |boxes| {
        boxes := boxes[index := Rect(nx1, ny1, nx2, ny2)];
      }
    }

    /** get_boxes: the list itself, entry for entry. */
    function GetBoxes(): (r: seq<Rect>)
      reads this
      ensures |r| == |boxes| && forall k :: 0 <= k < |r| ==> r[k] == boxes[k]
    {
      boxes
    }
  }

  /**
    The three edits of the file's own self-test, replayed on a fresh
    manager: two boxes are added, the one hit at (15, 15) is removed and the
    other is edited, leaving the single edited box.
   */
  method SelfTest() returns (boxes: seq<Rect>)
    ensures boxes == [Rect(70.0, 70.0, 120.0, 120.0)]
  {
    var manager := new BoundingBoxManager();
    manager.AddBox(10.0, 10.0, 50.0, 50.0);
    manager.AddBox(60.0, 60.0, 100.0, 100.0);
    assert |manager.GetBoxes()| == 2;
    assert Hit(manager.GetBoxes()[0], 15.0, 15.0);
    manager.RemoveBox(15.0, 15.0);
    assert |manager.GetBoxes()| == 1;
    manager.EditBox(0, 70.0, 70.0, 120.0, 120.0);
    boxes := manager.GetBoxes();
  }
}
