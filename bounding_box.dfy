/**
  BoundingBox: one annotated specimen region. Its four coordinates are kept
  normalised (x1 < x2, y1 < y2) by the constructor and by update, which both
  reject a zero width or height; move and resize change them in place.
 */
module BoundingBoxes {
  import opened Wrappers
  import opened Geometry

  /** The box's uuid4 string; the model takes a fresh one from the caller. */
  type BoxId = string

  /** A box as the row detector and the cropper read it: id and coordinates. */
  datatype Box = Box(id: BoxId, x1: real, y1: real, x2: real, y2: real)

  /** The ValueError raised for a box of zero width or zero height. */
  datatype BoxError = ZeroWidthOrHeight

  /** The dictionary written by to_dict and read by from_dict. */
  datatype BoxDict = BoxDict(id: BoxId, x1: real, y1: real, x2: real, y2: real, boxLabel: Option<string>)

  /**
    The check and the normalisation shared by the constructor and update:
    the error when x1 == x2 or y1 == y2, otherwise each coordinate pair
    sorted ascending.
   */
  function Normalize(x1: real, y1: real, x2: real, y2: real): (r: Result<Rect, BoxError>)
    ensures r.Err? <==> (x1 == x2 || y1 == y2)
    ensures r.Ok? ==> Normalized(r.value)
    ensures r.Ok? ==> {r.value.x1, r.value.x2} == {x1, x2} && {r.value.y1, r.value.y2} == {y1, y2}
  {
    if x1 == x2 || y1 == y2 then Err(ZeroWidthOrHeight)
    else Ok(Rect(Min(x1, x2), Min(y1, y2), Max(x1, x2), Max(y1, y2)))
  }

  /** Coordinates that are already normalised pass through unchanged. */
  lemma NormalizeFixesNormalized(r: Rect)
    requires Normalized(r)
    ensures Normalize(r.x1, r.y1, r.x2, r.y2) == Ok(r)
  {
  }

  /** Normalisation does not depend on which corner of a pair comes first. */
  lemma NormalizeOrderFree(x1: real, y1: real, x2: real, y2: real)
    ensures Normalize(x1, y1, x2, y2) == Normalize(x2, y1, x1, y2) == Normalize(x1, y2, x2, y1)
  {
  }

  /**
    The geometry of resize: the new width is c - a, the new height d - b,
    laid out around the old centre. The input is neither checked nor sorted.
   */
  function Resized(r: Rect, a: real, b: real, c: real, d: real): (n: Rect)
  {
    var cx, cy := (r.x1 + r.x2) / 2.0, (r.y1 + r.y2) / 2.0;
    var w, h := c - a, d - b;
    Rect(cx - w / 2.0, cy - h / 2.0, cx + w / 2.0, cy + h / 2.0)
  }

  /** resize keeps the centre and takes its width and height from the arguments. */
  lemma ResizedGeometry(r: Rect, a: real, b: real, c: real, d: real)
    ensures var n := Resized(r, a, b, c, d);
      && n.x1 + n.x2 == r.x1 + r.x2 && n.y1 + n.y2 == r.y1 + r.y2
      && Width(n) == c - a && Height(n) == d - b
  {
  }

  /** resize yields a normalised box exactly when c - a and d - b are positive. */
  lemma ResizedNormalized(r: Rect, a: real, b: real, c: real, d: real)
    ensures Normalized(Resized(r, a, b, c, d)) <==> (a < c && b < d)
  {
    ResizedGeometry(r, a, b, c, d);
  }

  class BoundingBox {
    var x1: real
    var y1: real
    var x2: real
    var y2: real
    var boxLabel: Option<string>
    const id: BoxId

    /** get_coordinates: the tuple (x1, y1, x2, y2). */
    function GetCoordinates(): (r: Rect)
      reads this
      ensures Normalized(r) <==> x1 < x2 && y1 < y2
    {
      Rect(x1, y1, x2, y2)
    }

    /** The state every constructor and successful update leave behind. */
    predicate Valid()
      reads this
    {
      Normalized(GetCoordinates())
    }

    /** The assignments of __init__ once the coordinates passed its check. */
    constructor (coords: Rect, boxLabel: Option<string>, id: BoxId)
      requires Normalized(coords)
      ensures Valid()
      ensures GetCoordinates() == coords && this.boxLabel == boxLabel && this.id == id
    {
      x1, y1, x2, y2 := coords.x1, coords.y1, coords.x2, coords.y2;
      this.boxLabel := boxLabel;
      this.id := id;
    }

    /** __init__: rejects a zero width or height, otherwise a normalised new box. */
    static method Create(x1: real, y1: real, x2: real, y2: real, boxLabel: Option<string>, id: BoxId)
      returns (r: Result<BoundingBox, BoxError>)
      ensures r.Err? <==> (x1 == x2 || y1 == y2)
      ensures r.Ok? ==> fresh(r.value) && r.value.Valid()
      ensures r.Ok? ==> Normalize(x1, y1, x2, y2) == Ok(r.value.GetCoordinates())
      ensures r.Ok? ==> r.value.boxLabel == boxLabel && r.value.id == id
    {
      var n := Normalize(x1, y1, x2, y2);
      if n.Err? {
        return Err(n.error);
      }
      var b := new BoundingBox(n.value, boxLabel, id);
      return Ok(b);
    }

    /**
      update: on a zero width or height the error is raised before any
      field is assigned; otherwise the sorted coordinates are stored.
     */
    method Update(nx1: real, ny1: real, nx2: real, ny2: real) returns (outcome: Outcome<BoxError>)
      modifies this
      ensures outcome.Fail? <==> (nx1 == nx2 || ny1 == ny2)
      ensures outcome.Fail? ==> GetCoordinates() == old(GetCoordinates())
      ensures outcome.Pass? ==> Normalize(nx1, ny1, nx2, ny2) == Ok(GetCoordinates()) && Valid()
      ensures boxLabel == old(boxLabel)
    {
      var n := Normalize(nx1, ny1, nx2, ny2);
      if n.Err? {
        return Fail(n.error);
      }
      x1, y1, x2, y2 := n.value.x1, n.value.y1, n.value.x2, n.value.y2;
      return Pass;
    }

    /** contains: the point lies in the box grown by the tolerance, edges included. */
    predicate Contains(x: real, y: real, tolerance: real)
      reads this
      ensures tolerance >= 0.0 && x1 <= x <= x2 && y1 <= y <= y2 ==> Contains(x, y, tolerance)
    {
      ContainsPoint(GetCoordinates(), x, y, tolerance)
    }

    /** width: positive for every valid box. */
    function Width(): (w: real)
      reads this
      ensures Valid() ==> w > 0.0
    {
      x2 - x1
    }

    /** height: positive for every valid box. */
    function Height(): (h: real)
      reads this
      ensures Valid() ==> h > 0.0
    {
      y2 - y1
    }

    /** area: width times height, positive for every valid box. */
    function Area(): (a: real)
      reads this
      ensures a == Width() * Height()
      ensures Valid() ==> a > 0.0
    {
      Geometry.Area(GetCoordinates())
    }

    /** aspect_ratio: width / height (a zero height raises ZeroDivisionError). */
    function AspectRatio(): (q: real)
      reads this
      requires Height() != 0.0
      ensures q * Height() == Width()
      ensures Valid() ==> q > 0.0
    {
      Width() / Height()
    }

    /** move: shifts all four coordinates by (dx, dy). */
    method Move(dx: real, dy: real)
      modifies this
      ensures GetCoordinates() == Translate(old(GetCoordinates()), dx, dy)
      ensures Width() == old(Width()) && Height() == old(Height())
      ensures old(Valid()) ==> Valid()
      ensures boxLabel == old(boxLabel)
    {
      x1 := x1 + dx;
      x2 := x2 + dx;
      y1 := y1 + dy;
      y2 := y2 + dy;
    }

    /** resize: keeps the centre, takes width c - a and height d - b; nothing is checked. */
    method Resize(a: real, b: real, c: real, d: real)
      modifies this
      ensures GetCoordinates() == Resized(old(GetCoordinates()), a, b, c, d)
      ensures x1 + x2 == old(x1 + x2) && y1 + y2 == old(y1 + y2)
      ensures Width() == c - a && Height() == d - b
      ensures boxLabel == old(boxLabel)
    {
      var centerX := (x1 + x2) / 2.0;
      var centerY := (y1 + y2) / 2.0;
      var newWidth := c - a;
      var newHeight := d - b;
      x1 := centerX - newWidth / 2.0;
      x2 := centerX + newWidth / 2.0;
      y1 := centerY - newHeight / 2.0;
      y2 := centerY + newHeight / 2.0;
    }

    /** to_dict: the id, the four coordinates and the label. */
    function ToDict(): (d: BoxDict)
      reads this
      ensures d.id == id && d.boxLabel == boxLabel
      ensures Rect(d.x1, d.y1, d.x2, d.y2) == GetCoordinates()
    {
      BoxDict(id, x1, y1, x2, y2, boxLabel)
    }

    /** from_dict: builds a box through the constructor; the stored id is ignored. */
    static method FromDict(d: BoxDict, newId: BoxId) returns (r: Result<BoundingBox, BoxError>)
      ensures r.Err? <==> (d.x1 == d.x2 || d.y1 == d.y2)
      ensures r.Ok? ==> fresh(r.value) && r.value.Valid() && r.value.id == newId
      ensures r.Ok? ==> Normalize(d.x1, d.y1, d.x2, d.y2) == Ok(r.value.GetCoordinates())
      ensures r.Ok? ==> r.value.boxLabel == d.boxLabel
    {
      r := Create(d.x1, d.y1, d.x2, d.y2, d.boxLabel, newId);
    }
  }

  /** from_dict(to_dict(b)) gives a new box with b's coordinates and label and the new id. */
  method DictRoundTrip(b: BoundingBox, newId: BoxId) returns (c: BoundingBox)
    requires b.Valid()
    ensures fresh(c) && c.id == newId
    ensures c.GetCoordinates() == b.GetCoordinates() && c.boxLabel == b.boxLabel
  {
    var r := BoundingBox.FromDict(b.ToDict(), newId);
    NormalizeFixesNormalized(b.GetCoordinates());
    c := r.value;
  }
}
