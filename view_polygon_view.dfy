/** view/PolygonView.java: a landscape view of a set size that outlines a polygon and frames it. */
module ViewPolygonView {
  import opened Wrappers
  import opened JavaInt
  import opened Openalpr
  import opened ViewGeometry

  /** onMeasure's size: as set when either side is 0, else the larger side first. */
  function Landscape(width: Int32, height: Int32): (r: (Int32, Int32))
    ensures width == 0 || height == 0 ==> r == (width, height)
    ensures multiset{r.0, r.1} == multiset{width, height}
    ensures width != 0 && height != 0 ==> r.0 >= r.1
  {
    if width == 0 || height == 0 then (width, height)
    else if width > height then (width, height)
    else (height, width)
  }

  /** The view state the logic touches; the float dividers are kept only as whether they are
      zero, and invalidate() is counted. */
  class PolygonView {
    var widthDividerIsZero: bool
    var heightDividerIsZero: bool
    var width: Int32
    var height: Int32
    var polygon: Option<seq<Point>>
    var measuredWidth: Int32
    var measuredHeight: Int32
    var invalidations: nat

    constructor ()
      ensures width == 0 && height == 0 && polygon == None && widthDividerIsZero && heightDividerIsZero
      ensures measuredWidth == 0 && measuredHeight == 0 && invalidations == 0
    {
      widthDividerIsZero, heightDividerIsZero := true, true;
      width, height := 0, 0;
      polygon := None;
      measuredWidth, measuredHeight := 0, 0;
      invalidations := 0;
    }

    /** setViewSize stores both values as given. */
    method SetViewSize(width: Int32, height: Int32)
      modifies this
      ensures this.width == width && this.height == height
      ensures polygon == old(polygon) && widthDividerIsZero == old(widthDividerIsZero) && heightDividerIsZero == old(heightDividerIsZero)
      ensures measuredWidth == old(measuredWidth) && measuredHeight == old(measuredHeight) && invalidations == old(invalidations)
    {
      this.width := width;
      this.height := height;
    }

    /** setPolygon: the dividers are the set view size over the source size. */
    method SetPolygon(sourceWidth: Int32, sourceHeight: Int32, polygon: Option<seq<Point>>)
      modifies this
      ensures this.polygon == polygon
      ensures widthDividerIsZero == ScaleIsZero(width, sourceWidth) && heightDividerIsZero == ScaleIsZero(height, sourceHeight)
      ensures invalidations == old(invalidations) + 1
      ensures width == old(width) && height == old(height)
      ensures measuredWidth == old(measuredWidth) && measuredHeight == old(measuredHeight)
    {
      this.polygon := polygon;
      widthDividerIsZero := ScaleIsZero(width, sourceWidth);
      heightDividerIsZero := ScaleIsZero(height, sourceHeight);
      invalidations := invalidations + 1;
    }

    /** clear: drops the polygon and invalidates, unless there was none; a second clear does
        nothing. */
    method Clear()
      modifies this
      ensures polygon == None
      ensures invalidations == old(invalidations) + (if old(polygon).Some? then 1 else 0)
      ensures widthDividerIsZero == old(widthDividerIsZero) && heightDividerIsZero == old(heightDividerIsZero)
      ensures width == old(width) && height == old(height)
      ensures measuredWidth == old(measuredWidth) && measuredHeight == old(measuredHeight)
    {
      if polygon != None {
        polygon := None;
        invalidations := invalidations + 1;
      }
    }

    /** onMeasure: the set size, turned to landscape. */
    method OnMeasure()
      modifies this
      ensures (measuredWidth, measuredHeight) == Landscape(width, height)
      ensures width == old(width) && height == old(height) && polygon == old(polygon)
      ensures widthDividerIsZero == old(widthDividerIsZero) && heightDividerIsZero == old(heightDividerIsZero)
      ensures invalidations == old(invalidations)
    {
      if width == 0 || height == 0 {
        measuredWidth, measuredHeight := width, height;
      } else {
        if width > height {
          measuredWidth, measuredHeight := width, height;
        } else {
          measuredWidth, measuredHeight := height, width;
        }
      }
    }

    predicate Drawable()
      reads this
    {
      polygon.Some? && |polygon.value| >= 2 && !widthDividerIsZero && !heightDividerIsZero
    }

    /** onDraw: the lines stroked, in order, and whether the frame rectangle follows them. */
    method OnDraw() returns (segments: seq<Segment>, framed: bool)
      ensures framed <==> Drawable()
      ensures !Drawable() ==> segments == []
      ensures Drawable() ==> segments == ClosedOutline(polygon.value)
    {
      if polygon == None || |polygon.value| < 2 || widthDividerIsZero || heightDividerIsZero {
        return [], false;
      }
      var p := polygon.value;
      segments := [];
      var i := 0;
      while i < |p| - 1
        invariant 0 <= i <= |p| - 1
        invariant |segments| == i
        invariant forall k :: 0 <= k < i ==> segments[k] == Segment(p[k], p[k + 1])
      {
        segments := segments + [Segment(p[i], p[i + 1])];
        i := i + 1;
      }
      i := |p| - 1;
      segments := segments + [Segment(p[i], p[0])];
      framed := true;
    }
  }
}
