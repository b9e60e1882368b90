/** Integer geometry shared by the overlay views: the aspect-fit of onMeasure, the zero test of
    the float scale factors, and the closed polygon outline onDraw strokes. */
module ViewGeometry {
  import opened JavaInt
  import opened Openalpr

  /** The message both aspect-ratio setters throw. */
  const NEGATIVE_SIZE_MESSAGE: string := "Size cannot be negative."

  /** The largest size of the given aspect ratio that fits the available size, in int arithmetic;
      a zero ratio component passes the available size through. */
  function AspectFit(width: Int32, height: Int32, ratioWidth: Int32, ratioHeight: Int32): (r: (Int32, Int32))
    ensures r.0 == width || r.1 == height
    ensures ratioWidth == 0 || ratioHeight == 0 ==> r == (width, height)
  {
    if 0 == ratioWidth || 0 == ratioHeight then (width, height)
    else if width < Div(Mul(height, ratioWidth), ratioHeight) then (width, Div(Mul(width, ratioHeight), ratioWidth))
    else (Div(Mul(height, ratioWidth), ratioHeight), height)
  }

  lemma FloorDivTimes(a: nat, b: nat)
    requires b > 0
    ensures (a / b) * b <= a
  {
  }

  lemma MulStrict(x: int, y: int, z: int)
    requires x < y && z > 0
    ensures x * z < y * z
  {
  }

  lemma MulLessCancel(x: int, y: int, z: int)
    requires x * z < y * z && z > 0
    ensures x < y
  {
  }

  /** When the width is below the height's ratio-scaled width, so is the width's ratio-scaled
      height below the height. */
  lemma NarrowFitsHeight(w: nat, h: nat, rw: nat, rh: nat)
    requires rw > 0 && rh > 0 && w < (h * rw) / rh
    ensures (w * rh) / rw < h
  {
    var t := (h * rw) / rh;
    var q := (w * rh) / rw;
    FloorDivTimes(h * rw, rh);
    FloorDivTimes(w * rh, rw);
    MulStrict(w, t, rh);
    assert w * rh == rh * w && t * rh == rh * t;
    MulLessCancel(q, h, rw);
  }

  lemma MulWithoutOverflow(a: Int32, b: Int32)
    requires INT_MIN <= a * b <= INT_MAX
    ensures Mul(a, b) == a * b
  {
  }

  /** The aspect-fit on unbounded naturals with floor division. */
  function ExactFit(width: nat, height: nat, ratioWidth: nat, ratioHeight: nat): (nat, nat)
    requires ratioWidth > 0 && ratioHeight > 0
  {
    var t := (height * ratioWidth) / ratioHeight;
    if width < t then (width, (width * ratioHeight) / ratioWidth) else (t, height)
  }

  lemma ExactFitWithin(width: nat, height: nat, ratioWidth: nat, ratioHeight: nat)
    requires ratioWidth > 0 && ratioHeight > 0
    ensures var (w, h) := ExactFit(width, height, ratioWidth, ratioHeight);
            w <= width && h <= height && (w == width || h == height)
  {
    if width < (height * ratioWidth) / ratioHeight {
      NarrowFitsHeight(width, height, ratioWidth, ratioHeight);
    }
  }

  /** Without overflow, onMeasure's int arithmetic is the exact fit. */
  lemma AspectFitWithoutOverflow(width: Int32, height: Int32, ratioWidth: Int32, ratioHeight: Int32)
    requires width >= 0 && height >= 0 && ratioWidth > 0 && ratioHeight > 0
    requires height * ratioWidth <= INT_MAX && width * ratioHeight <= INT_MAX
    ensures AspectFit(width, height, ratioWidth, ratioHeight) == ExactFit(width, height, ratioWidth, ratioHeight)
  {
    MulWithoutOverflow(height, ratioWidth);
    MulWithoutOverflow(width, ratioHeight);
    DivNonNegative(Mul(height, ratioWidth), ratioHeight);
    DivNonNegative(Mul(width, ratioHeight), ratioWidth);
  }

  /** With non-negative sizes, positive ratios and no int overflow, the fitted size never exceeds
      the available size and equals it in at least one dimension. */
  lemma AspectFitWithin(width: Int32, height: Int32, ratioWidth: Int32, ratioHeight: Int32)
    requires width >= 0 && height >= 0 && ratioWidth > 0 && ratioHeight > 0
    requires height * ratioWidth <= INT_MAX && width * ratioHeight <= INT_MAX
    ensures var (w, h) := AspectFit(width, height, ratioWidth, ratioHeight);
            0 <= w <= width && 0 <= h <= height && (w == width || h == height)
  {
    AspectFitWithoutOverflow(width, height, ratioWidth, ratioHeight);
    ExactFitWithin(width, height, ratioWidth, ratioHeight);
  }

  /** A scale factor `1f * viewExtent / sourceExtent` is zero exactly when the view extent is 0
      and the source extent is not (0f / 0 is NaN, which is not zero). */
  predicate ScaleIsZero(viewExtent: Int32, sourceExtent: Int32): (r: bool)
    ensures sourceExtent != 0 ==> (r <==> viewExtent as real / sourceExtent as real == 0.0)
    ensures sourceExtent == 0 ==> !r
  {
    viewExtent == 0 && sourceExtent != 0
  }

  /** A stroked line, from one polygon vertex to another, in source coordinates. */
  datatype Segment = Segment(from: Point, to: Point)

  /** The outline of a polygon: each vertex joined to the next, the last back to the first. */
  function ClosedOutline(polygon: seq<Point>): (r: seq<Segment>)
    requires |polygon| >= 2
    ensures |r| == |polygon|
    ensures forall i :: 0 <= i < |polygon| - 1 ==> r[i] == Segment(polygon[i], polygon[i + 1])
    ensures r[|polygon| - 1] == Segment(polygon[|polygon| - 1], polygon[0])
  {
    seq(|polygon|, i requires 0 <= i < |polygon| =>
      Segment(polygon[i], if i + 1 < |polygon| then polygon[i + 1] else polygon[0]))
  }

  /** The outline is one closed chain: every segment starts where the previous one ended, and
      every vertex starts exactly its own segment. */
  lemma ClosedOutlineIsChain(polygon: seq<Point>)
    requires |polygon| >= 2
    ensures var r := ClosedOutline(polygon);
            (forall i :: 0 < i < |r| ==> r[i].from == r[i - 1].to) && r[0].from == r[|r| - 1].to &&
            (forall i :: 0 <= i < |r| ==> r[i].from == polygon[i])
  {
  }
}
