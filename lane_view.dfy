/** view/LaneView.java: a view keeping an aspect ratio that draws the two detected lane lines. */
module LaneViews {
  import opened Wrappers
  import opened JavaInt
  import opened Openalpr
  import opened ViewGeometry
  import Preconditions

  const WRONG_RESPONSE_MESSAGE: string := "Wrong LaneDetectorResult response"

  /** The view state the logic touches; the float scale factors are kept only as whether they
      are zero, and invalidate()/requestLayout() are counted. */
  class LaneView {
    var lanes: Option<LaneDetectorResult>
    var ratioHeight: Int32
    var ratioWidth: Int32
    var wcIsZero: bool
    var hcIsZero: bool
    var measuredWidth: Int32
    var measuredHeight: Int32
    var invalidations: nat
    var layoutRequests: nat

    constructor ()
      ensures lanes == None && ratioWidth == 0 && ratioHeight == 0 && wcIsZero && hcIsZero
      ensures measuredWidth == 0 && measuredHeight == 0 && invalidations == 0 && layoutRequests == 0
    {
      lanes := None;
      ratioHeight, ratioWidth := 0, 0;
      wcIsZero, hcIsZero := true, true;
      measuredWidth, measuredHeight := 0, 0;
      invalidations, layoutRequests := 0, 0;
    }

    /** setLanes, with the view's current width and height as parameters: null lanes throw and
        change nothing. */
    method SetLanes(sourceWidth: Int32, sourceHeight: Int32, lanes: Option<LaneDetectorResult>, viewWidth: Int32, viewHeight: Int32)
      returns (r: Result<()>)
      modifies this
      ensures r.Ok? <==> lanes.Some?
      ensures r.Throws? ==> r.error == IllegalArgument(Preconditions.NullReturnMessage(Some("lanes"))) &&
                            this.lanes == old(this.lanes) && wcIsZero == old(wcIsZero) && hcIsZero == old(hcIsZero) &&
                            invalidations == old(invalidations)
      ensures r.Ok? ==> this.lanes == lanes && wcIsZero == ScaleIsZero(viewWidth, sourceWidth) &&
                        hcIsZero == ScaleIsZero(viewHeight, sourceHeight) && invalidations == old(invalidations) + 1
      ensures ratioWidth == old(ratioWidth) && ratioHeight == old(ratioHeight) && layoutRequests == old(layoutRequests)
      ensures measuredWidth == old(measuredWidth) && measuredHeight == old(measuredHeight)
    {
      var checked := Preconditions.AssertReturnNotNull(lanes, Some("lanes"));
      if checked.Throws? {
        return Throws(checked.error);
      }
      this.lanes := lanes;
      wcIsZero := ScaleIsZero(viewWidth, sourceWidth);
      hcIsZero := ScaleIsZero(viewHeight, sourceHeight);
      invalidations := invalidations + 1;
      return Ok(());
    }

    /** clear: drops the lanes and invalidates, unless there were none; a second clear does
        nothing. */
    method Clear()
      modifies this
      ensures lanes == None
      ensures invalidations == old(invalidations) + (if old(lanes).Some? then 1 else 0)
      ensures wcIsZero == old(wcIsZero) && hcIsZero == old(hcIsZero)
      ensures ratioWidth == old(ratioWidth) && ratioHeight == old(ratioHeight) && layoutRequests == old(layoutRequests)
      ensures measuredWidth == old(measuredWidth) && measuredHeight == old(measuredHeight)
    {
      if lanes != None {
        lanes := None;
        invalidations := invalidations + 1;
      }
    }

    /** setAspectRatio: a negative component throws and changes nothing; otherwise both are
        stored and a layout is requested. */
    method SetAspectRatio(width: Int32, height: Int32) returns (r: Result<()>)
      modifies this
      ensures r.Throws? <==> width < 0 || height < 0
      ensures r.Throws? ==> r.error == IllegalArgument(NEGATIVE_SIZE_MESSAGE) &&
                            ratioWidth == old(ratioWidth) && ratioHeight == old(ratioHeight) && layoutRequests == old(layoutRequests)
      ensures r.Ok? ==> ratioWidth == width && ratioHeight == height && layoutRequests == old(layoutRequests) + 1
      ensures lanes == old(lanes) && wcIsZero == old(wcIsZero) && hcIsZero == old(hcIsZero)
      ensures invalidations == old(invalidations)
      ensures measuredWidth == old(measuredWidth) && measuredHeight == old(measuredHeight)
    {
      if width < 0 || height < 0 {
        return Throws(IllegalArgument(NEGATIVE_SIZE_MESSAGE));
      }
      ratioWidth := width;
      ratioHeight := height;
      layoutRequests := layoutRequests + 1;
      return Ok(());
    }

    /** onMeasure, given the sizes of the two measure specs: the aspect-fit of the available size. */
    method OnMeasure(width: Int32, height: Int32)
      modifies this
      ensures (measuredWidth, measuredHeight) == AspectFit(width, height, ratioWidth, ratioHeight)
      ensures ratioWidth == old(ratioWidth) && ratioHeight == old(ratioHeight)
      ensures lanes == old(lanes) && wcIsZero == old(wcIsZero) && hcIsZero == old(hcIsZero)
      ensures invalidations == old(invalidations) && layoutRequests == old(layoutRequests)
    {
      if 0 == ratioWidth || 0 == ratioHeight {
        measuredWidth, measuredHeight := width, height;
      } else {
        if width < Div(Mul(height, ratioWidth), ratioHeight) {
          measuredWidth, measuredHeight := width, Div(Mul(width, ratioHeight), ratioWidth);
        } else {
          measuredWidth, measuredHeight := Div(Mul(height, ratioWidth), ratioHeight), height;
        }
      }
    }

    /** The lane part of onDraw: nothing without lanes or with a zero scale; otherwise a result
        of exactly four points gives the segments 0-1 and 2-3, and any other count throws. */
    function OnDraw(): (r: Result<seq<Segment>>)
      reads this
      ensures (lanes.None? || wcIsZero || hcIsZero) ==> r == Ok([])
      ensures r.Throws? <==> lanes.Some? && !wcIsZero && !hcIsZero && |lanes.value.plateCoordinates| != 4
      ensures r.Throws? ==> r.error == Runtime(WRONG_RESPONSE_MESSAGE)
      ensures r.Ok? && lanes.Some? && !wcIsZero && !hcIsZero ==>
                var p := lanes.value.plateCoordinates;
                |r.value| == 2 && r.value[0] == Segment(p[0], p[1]) && r.value[1] == Segment(p[2], p[3])
    {
      if lanes == None || wcIsZero || hcIsZero then Ok([])
      else if |lanes.value.plateCoordinates| != 4 then Throws(Runtime(WRONG_RESPONSE_MESSAGE))
      else
        var points := lanes.value.plateCoordinates;
        Ok([Segment(points[0], points[1]), Segment(points[2], points[3])])
    }
  }
}
