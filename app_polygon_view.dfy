/** dashi/PolygonView.java: a view keeping an aspect ratio that outlines a recognised plate. */
module AppPolygonView {
  import opened Wrappers
  import opened JavaInt
  import opened Openalpr
  import opened ViewGeometry

  /** The view state the logic touches. The float scale factors `wc` and `hc` are kept only as
      whether they are zero; invalidate() and requestLayout() are counted. */
  class PolygonView {
    var ratioWidth: Int32
    var ratioHeight: Int32
    var polygon: Option<seq<Point>>
    var wcIsZero: bool
    var hcIsZero: bool
    var measuredWidth: Int32
    var measuredHeight: Int32
    var invalidations: nat
    var layoutRequests: nat

    /** A new view: no ratio, no polygon, and both scale factors at their default 0f. */
    constructor ()
      ensures ratioWidth == 0 && ratioHeight == 0 && polygon == None && wcIsZero && hcIsZero
      ensures measuredWidth == 0 && measuredHeight == 0 && invalidations == 0 && layoutRequests == 0
    {
      ratioWidth, ratioHeight := 0, 0;
      polygon := None;
      wcIsZero, hcIsZero := true, true;
      measuredWidth, measuredHeight := 0, 0;
      invalidations, layoutRequests := 0, 0;
    }

    /** setPolygon, with the view's current width and height as parameters. */
    method SetPolygon(sourceWidth: Int32, sourceHeight: Int32, polygon: Option<seq<Point>>, viewWidth: Int32, viewHeight: Int32)
      modifies this
      ensures this.polygon == polygon
      ensures wcIsZero == ScaleIsZero(viewWidth, sourceWidth) && hcIsZero == ScaleIsZero(viewHeight, sourceHeight)
      ensures invalidations == old(invalidations) + 1
      ensures ratioWidth == old(ratioWidth) && ratioHeight == old(ratioHeight) && layoutRequests == old(layoutRequests)
      ensures measuredWidth == old(measuredWidth) && measuredHeight == old(measuredHeight)
    {
      this.polygon := polygon;
      wcIsZero := ScaleIsZero(viewWidth, sourceWidth);
      hcIsZero := ScaleIsZero(viewHeight, sourceHeight);
      invalidations := invalidations + 1;
    }

    /** clear: drops the polygon and invalidates, unless there was none, in which case nothing
        changes; so a second clear does nothing. */
    method Clear()
      modifies this
      ensures polygon == None
      ensures invalidations == old(invalidations) + (if old(polygon).Some? then 1 else 0)
      ensures wcIsZero == old(wcIsZero) && hcIsZero == old(hcIsZero)
      ensures ratioWidth == old(ratioWidth) && ratioHeight == old(ratioHeight) && layoutRequests == old(layoutRequests)
      ensures measuredWidth == old(measuredWidth) && measuredHeight == old(measuredHeight)
    {
      if polygon != None {
        polygon := None;
        invalidations := invalidations + 1;
      }
    }

    /** setAspectRatio: a negative component throws and changes nothing; otherwise both are
        stored and a layout is requested. */
    method SetAspectRatio(width: Int32, height: Int32) returns (r: Result<()>)
      modifies this
      ensures r.Throws? <==> width < 0 || height < 0
      ensures r.Throws? ==> r.error == IllegalArgument(NEGATIVE_SIZE_MESSAGE) &&
                            ratioWidth == old(ratioWidth) && ratioHeight == old(ratioHeight) && layoutRequests == old(layoutRequests)
      ensures r.Ok? ==> ratioWidth == width && ratioHeight == height && layoutRequests == old(layoutRequests) + 1
      ensures polygon == old(polygon) && wcIsZero == old(wcIsZero) && hcIsZero == old(hcIsZero)
      ensures invalidations == old(invalidations)
      ensures measuredWidth == old(measuredWidth) && measuredHeight == old(measuredHeight)
    {
      if width < 0 || height < 0 {
        return Throws(IllegalArgument(NEGATIVE_SIZE_MESSAGE));
      }
      ratioWidth := width;
      ratioHeight := height;
      layoutRequests := layoutRequests + 1;
      return Ok(());
    }

    /** onMeasure, given the sizes of the two measure specs: the aspect-fit of the available size. */
    method OnMeasure(width: Int32, height: Int32)
      modifies this
      ensures (measuredWidth, measuredHeight) == AspectFit(width, height, ratioWidth, ratioHeight)
      ensures ratioWidth == old(ratioWidth) && ratioHeight == old(ratioHeight)
      ensures polygon == old(polygon) && wcIsZero == old(wcIsZero) && hcIsZero == old(hcIsZero)
      ensures invalidations == old(invalidations) && layoutRequests == old(layoutRequests)
    {
      if 0 == ratioWidth || 0 == ratioHeight {
        measuredWidth, measuredHeight := width, height;
      } else {
        if width < Div(Mul(height, ratioWidth), ratioHeight) {
          measuredWidth, measuredHeight := width, Div(Mul(width, ratioHeight), ratioWidth);
        } else {
          measuredWidth, measuredHeight := Div(Mul(height, ratioWidth), ratioHeight), height;
        }
      }
    }

    /** Whether onDraw strokes anything. */
    predicate Drawable()
      reads this
    {
      polygon.Some? && |polygon.value| >= 2 && !wcIsZero && !hcIsZero
    }

    /** onDraw: the lines stroked, in order; the closed outline of the polygon, or nothing. */
    method OnDraw() returns (segments: seq<Segment>)
      ensures !Drawable() ==> segments == []
      ensures Drawable() ==> segments == ClosedOutline(polygon.value)
    {
      if polygon == None || |polygon.value| < 2 || wcIsZero || hcIsZero {
        return [];
      }
      var p := polygon.value;
      segments := [];
      var i := 0;
      while i < |p| - 1
        invariant 0 <= i <= |p| - 1
        invariant |segments| == i
        invariant forall k :: 0 <= k < i ==> segments[k] == Segment(p[k], p[k + 1])
      {
        segments := segments + [Segment(p[i], p[i + 1])];
        i := i + 1;
      }
      i := |p| - 1;
      segments := segments + [Segment(p[i], p[0])];
    }
  }
}
