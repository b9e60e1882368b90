/** camera/CameraUtils.java: JPEG orientation, dimension swapping and preview-size selection. */
module CameraUtils {
  import opened JavaInt

  /** android.util.Size. */
  datatype Size = Size(width: Int32, height: Int32)

  /** An aspect ratio: a size whose width can be divided by. */
  type AspectRatio = s: Size | s.width != 0 witness Size(1, 1)

  /** Values of android.view.Surface.ROTATION_*. */
  const ROTATION_0: int := 0
  const ROTATION_90: int := 1
  const ROTATION_180: int := 2
  const ROTATION_270: int := 3

  /** Max preview size guaranteed by the Camera API. */
  const MAX_PREVIEW_WIDTH: Int32 := 1920
  const MAX_PREVIEW_HEIGHT: Int32 := 1080

  /** Conversion from screen rotation to JPEG orientation. */
  const ORIENTATIONS: map<int, Int32> := map[ROTATION_0 := 90, ROTATION_90 := 0, ROTATION_180 := 270, ROTATION_270 := 180]

  /** SparseIntArray.get: 0 for a key that was never appended. */
  function OrientationOf(rotation: int): (r: Int32)
    ensures 0 <= r < 360 && r % 90 == 0
  {
    if rotation in ORIENTATIONS then ORIENTATIONS[rotation] else 0
  }

  /** getOrientation, with Java's wrapping `+` and sign-of-dividend `%`: whatever the sensor
      orientation, the result is less than a full turn either way. */
  function GetOrientation(rotation: Int32, orientation: Int32): (r: Int32)
    ensures -360 < r < 360
  {
    Rem(Wrap(Wrap(OrientationOf(rotation) + orientation) + 270), 360)
  }

  /** For a sensor orientation that does not overflow, the result is the plain sum modulo 360,
      so it lies in [0, 360) and never is 360 itself. */
  lemma GetOrientationRange(rotation: Int32, orientation: Int32)
    requires 0 <= orientation <= INT_MAX - 540
    ensures GetOrientation(rotation, orientation) == (OrientationOf(rotation) + orientation + 270) % 360
    ensures 0 <= GetOrientation(rotation, orientation) < 360
  {
  }

  /** Sensor orientation 90 keeps the table's value; 270 turns it by a further 180 degrees. */
  lemma GetOrientationForCommonSensors(rotation: Int32)
    ensures GetOrientation(rotation, 90) == OrientationOf(rotation)
    ensures GetOrientation(rotation, 270) == (OrientationOf(rotation) + 180) % 360
  {
    var o := OrientationOf(rotation);
    assert GetOrientation(rotation, 90) == (o + 360) % 360;
    assert GetOrientation(rotation, 270) == (o + 540) % 360;
  }

  /** A negative sensor orientation can give a negative result, as Java's `%` keeps the sign. */
  lemma GetOrientationNegativeSensor()
    ensures GetOrientation(ROTATION_90, -300) == -30
  {
  }

  /** isSwappedDimensions: whether the display rotation and the sensor orientation leave the
      width and height exchanged; only a valid rotation and a right-angle orientation can. */
  function IsSwappedDimensions(rotation: int, orientation: int): (r: bool)
    ensures r ==> 0 <= rotation <= 3 && 0 <= orientation < 360 && orientation % 90 == 0
  {
    if rotation == ROTATION_0 || rotation == ROTATION_180 then
      orientation == 90 || orientation == 270
    else if rotation == ROTATION_90 || rotation == ROTATION_270 then
      orientation == 0 || orientation == 180
    else
      false
  }

  /** The dimensions are swapped exactly when the display rotation and the sensor orientation
      are a quarter turn apart; an invalid rotation never swaps. */
  lemma {:induction false} SwappedIffQuarterTurnApart(rotation: int, orientation: int)
    ensures IsSwappedDimensions(rotation, orientation) <==>
              0 <= rotation <= 3 && orientation in {0, 90, 180, 270} && (rotation * 90 + orientation) % 180 == 90
    ensures !(0 <= rotation <= 3) ==> !IsSwappedDimensions(rotation, orientation)
  {
  }

  /** Resolutions for which some devices deliver garbage frames in YUV_420_888. */
  const BROKEN_RESOLUTIONS: set<Size> := {Size(1440, 1080), Size(4048, 3036), Size(4000, 3000)}

  /** skipThisChoice: every broken resolution is a 4:3 landscape size. */
  predicate SkipThisChoice(size: Size): (r: bool)
    ensures r ==> size.width > size.height && size.width * 3 == size.height * 4
  {
    size in BROKEN_RESOLUTIONS
  }

  lemma SkipsExactlyBrokenSizes(size: Size)
    ensures SkipThisChoice(size) <==>
              (size.width == 1440 && size.height == 1080) ||
              (size.width == 4048 && size.height == 3036) ||
              (size.width == 4000 && size.height == 3000)
  {
  }

  const LONG_MIN: int := -0x8000_0000_0000_0000
  const LONG_MAX: int := 0x7FFF_FFFF_FFFF_FFFF

  /** The area of a size, as the `long` product of its two ints. */
  function Area(s: Size): int
  {
    s.width * s.height
  }

  lemma MulMonotone(x: nat, y: nat, z: nat)
    requires x <= y
    ensures x * z <= y * z
  {
  }

  lemma ProductBounds(a: Int32, b: Int32)
    ensures -0x4000_0000_0000_0000 + 0x8000_0000 <= a * b <= 0x4000_0000_0000_0000
  {
    var p: nat := 0x8000_0000;
    var x: nat := Abs(a);
    var y: nat := Abs(b);
    assert x <= p && y <= p;
    MulMonotone(x, p, y);
    MulMonotone(y, p, p);
    assert x * y == y * x && p * y == y * p;
    if (a < 0) != (b < 0) {
      assert a * b == -(x * y);
      if a >= 0 {
        MulMonotone(x, p - 1, y);
        MulMonotone(y, p, p - 1);
        assert p * y == y * p && y * (p - 1) == (p - 1) * y;
      } else {
        MulMonotone(y, p - 1, x);
        MulMonotone(x, p, p - 1);
        assert p * x == x * p && x * (p - 1) == (p - 1) * x && x * y == y * x;
      }
    } else {
      assert a * b == x * y;
    }
  }

  /** The area difference the comparator takes never leaves the range of a `long`. */
  lemma AreaDifferenceFitsInLong(lhs: Size, rhs: Size)
    ensures LONG_MIN <= Area(lhs) - Area(rhs) <= LONG_MAX
  {
    ProductBounds(lhs.width, lhs.height);
    ProductBounds(rhs.width, rhs.height);
  }

  function Signum(x: int): int
  {
    if x > 0 then 1 else if x < 0 then -1 else 0
  }

  /** SIZE_COMPARATOR: the sign of the area difference. */
  function CompareBySize(lhs: Size, rhs: Size): (r: int)
    ensures r < 0 <==> Area(lhs) < Area(rhs)
    ensures r > 0 <==> Area(lhs) > Area(rhs)
    ensures r == 0 <==> Area(lhs) == Area(rhs)
    ensures -1 <= r <= 1
  {
    AreaDifferenceFitsInLong(lhs, rhs);
    Signum(Area(lhs) - Area(rhs))
  }

  /** The comparator is a total preorder: antisymmetric in sign and transitive. */
  lemma ComparatorLaws(a: Size, b: Size, c: Size)
    ensures CompareBySize(a, b) == -CompareBySize(b, a)
    ensures CompareBySize(a, b) <= 0 && CompareBySize(b, c) <= 0 ==> CompareBySize(a, c) <= 0
    ensures CompareBySize(a, b) == 0 ==> CompareBySize(a, c) == CompareBySize(b, c)
  {
  }

  /** Collections.min: the first element no later element is strictly smaller than. */
  function MinIndex(list: seq<Size>): (k: nat)
    requires |list| > 0
    ensures k < |list|
    ensures forall j :: 0 <= j < |list| ==> Area(list[k]) <= Area(list[j])
    ensures forall j :: 0 <= j < k ==> Area(list[j]) > Area(list[k])
  {
    if |list| == 1 then 0
    else
      var k := MinIndex(list[..|list| - 1]);
      if CompareBySize(list[|list| - 1], list[k]) < 0 then |list| - 1 else k
  }

  /** Collections.max: the first element no later element is strictly larger than. */
  function MaxIndex(list: seq<Size>): (k: nat)
    requires |list| > 0
    ensures k < |list|
    ensures forall j :: 0 <= j < |list| ==> Area(list[k]) >= Area(list[j])
    ensures forall j :: 0 <= j < k ==> Area(list[j]) < Area(list[k])
  {
    if |list| == 1 then 0
    else
      var k := MaxIndex(list[..|list| - 1]);
      if CompareBySize(list[|list| - 1], list[k]) > 0 then |list| - 1 else k
  }

  /** What the caller asks of a preview size. */
  datatype Request = Request(textureViewWidth: Int32, textureViewHeight: Int32,
                             maxWidth: Int32, maxHeight: Int32, aspectRatio: AspectRatio)

  /** Not broken, within the maximum, and of the requested aspect ratio as the int arithmetic
      `height == width * h / w` decides it. */
  predicate Compliant(option: Size, q: Request)
  {
    !SkipThisChoice(option) &&
    option.width <= q.maxWidth && option.height <= q.maxHeight &&
    option.height == Div(Mul(option.width, q.aspectRatio.height), q.aspectRatio.width)
  }

  predicate BigEnough(option: Size, q: Request)
  {
    option.width >= q.textureViewWidth && option.height >= q.textureViewHeight
  }

  /** One of the two lists the loop collects: compliant options that are big enough (`big`)
      or not, in the order of `choices`. */
  function Collected(choices: seq<Size>, q: Request, big: bool): seq<Size>
  {
    if choices == [] then []
    else
      var x := choices[|choices| - 1];
      Collected(choices[..|choices| - 1], q, big) +
      (if Kept(x, q, big) then [x] else [])
  }

  predicate Kept(x: Size, q: Request, big: bool)
  {
    Compliant(x, q) && BigEnough(x, q) == big
  }

  /** Reference definition over `choices` itself: the index of the first kept option of least
      (`least`) or greatest area, or -1 when no option is kept. */
  function FirstExtreme(choices: seq<Size>, q: Request, big: bool, least: bool): (k: int)
    ensures -1 <= k < |choices|
  {
    if choices == [] then -1
    else
      var n := |choices| - 1;
      var b := FirstExtreme(choices[..n], q, big, least);
      if !Kept(choices[n], q, big) then b
      else if b == -1 then n
      else if least && Area(choices[n]) < Area(choices[b]) then n
      else if !least && Area(choices[n]) > Area(choices[b]) then n
      else b
  }

  /** FirstExtreme finds what its name says: nothing when no option is kept; otherwise a kept
      option of extreme area that no earlier kept option ties. */
  lemma {:induction false} FirstExtremeIsFirstOfExtremeArea(choices: seq<Size>, q: Request, big: bool, least: bool)
    ensures var k := FirstExtreme(choices, q, big, least);
            (k == -1 <==> forall j :: 0 <= j < |choices| ==> !Kept(choices[j], q, big)) &&
            (k >= 0 ==>
               Kept(choices[k], q, big) &&
               (forall j :: 0 <= j < |choices| && Kept(choices[j], q, big) ==>
                  if least then Area(choices[k]) <= Area(choices[j]) else Area(choices[k]) >= Area(choices[j])) &&
               (forall j :: 0 <= j < k && Kept(choices[j], q, big) ==> Area(choices[j]) != Area(choices[k])))
  {
    if choices != [] {
      var n := |choices| - 1;
      var before := choices[..n];
      FirstExtremeIsFirstOfExtremeArea(before, q, big, least);
      assert forall j :: 0 <= j < n ==> before[j] == choices[j];
    }
  }

  /** MinIndex of a list grown by one element moves to that element only when it is strictly
      smaller. */
  lemma MinIndexAppend(list: seq<Size>, x: Size)
    requires list != []
    ensures var k := MinIndex(list + [x]);
            k == (if Area(x) < Area(list[MinIndex(list)]) then |list| else MinIndex(list)) &&
            (list + [x])[k] == (if k == |list| then x else list[k])
  {
    assert (list + [x])[..|list|] == list;
  }

  /** Collections.min of a collected list picks the option FirstExtreme names. */
  lemma {:induction false} MinOfCollected(choices: seq<Size>, q: Request, big: bool)
    ensures var c := Collected(choices, q, big);
            var k := FirstExtreme(choices, q, big, true);
            (c == [] <==> k == -1) && (c != [] ==> c[MinIndex(c)] == choices[k])
  {
    if choices != [] {
      var n := |choices| - 1;
      MinOfCollected(choices[..n], q, big);
      var c0 := Collected(choices[..n], q, big);
      var c := Collected(choices, q, big);
      if Kept(choices[n], q, big) {
        assert c == c0 + [choices[n]];
        if c0 != [] {
          MinIndexAppend(c0, choices[n]);
        }
      } else {
        assert c == c0;
      }
    }
  }

  /** MaxIndex of a list grown by one element moves to that element only when it is strictly
      larger. */
  lemma MaxIndexAppend(list: seq<Size>, x: Size)
    requires list != []
    ensures var k := MaxIndex(list + [x]);
            k == (if Area(x) > Area(list[MaxIndex(list)]) then |list| else MaxIndex(list)) &&
            (list + [x])[k] == (if k == |list| then x else list[k])
  {
    assert (list + [x])[..|list|] == list;
  }

  /** Collections.max of a collected list picks the option FirstExtreme names. */
  lemma {:induction false} MaxOfCollected(choices: seq<Size>, q: Request, big: bool)
    ensures var c := Collected(choices, q, big);
            var k := FirstExtreme(choices, q, big, false);
            (c == [] <==> k == -1) && (c != [] ==> c[MaxIndex(c)] == choices[k])
  {
    if choices != [] {
      var n := |choices| - 1;
      MaxOfCollected(choices[..n], q, big);
      var c0 := Collected(choices[..n], q, big);
      var c := Collected(choices, q, big);
      if Kept(choices[n], q, big) {
        assert c == c0 + [choices[n]];
        if c0 != [] {
          MaxIndexAppend(c0, choices[n]);
        }
      } else {
        assert c == c0;
      }
    }
  }

  /** chooseOptimalSize: the smallest compliant option that covers the view, else the largest
      compliant one, else the first option. */
  method ChooseOptimalSize(choices: seq<Size>, q: Request) returns (r: Size)
    requires |choices| > 0
    ensures r in choices
    ensures var k := FirstExtreme(choices, q, true, true);
            k >= 0 ==> r == choices[k]
    ensures var k := FirstExtreme(choices, q, false, false);
            FirstExtreme(choices, q, true, true) == -1 && k >= 0 ==> r == choices[k]
    ensures FirstExtreme(choices, q, true, true) == -1 && FirstExtreme(choices, q, false, false) == -1 ==>
              r == choices[0]
    ensures (exists j :: 0 <= j < |choices| && Kept(choices[j], q, true)) ==>
              Kept(r, q, true) && forall j :: 0 <= j < |choices| && Kept(choices[j], q, true) ==> Area(r) <= Area(choices[j])
    ensures (forall j :: 0 <= j < |choices| ==> !Kept(choices[j], q, true)) &&
            (exists j :: 0 <= j < |choices| && Compliant(choices[j], q)) ==>
              Compliant(r, q) && forall j :: 0 <= j < |choices| && Compliant(choices[j], q) ==> Area(r) >= Area(choices[j])
    ensures (forall j :: 0 <= j < |choices| ==> !Compliant(choices[j], q)) ==> r == choices[0]
    ensures SkipThisChoice(r) ==> r == choices[0] && forall j :: 0 <= j < |choices| ==> !Compliant(choices[j], q)
  {
    var bigEnough: seq<Size> := [];
    var notBigEnough: seq<Size> := [];
    var i := 0;
    while i < |choices|
      invariant 0 <= i <= |choices|
      invariant bigEnough == Collected(choices[..i], q, true)
      invariant notBigEnough == Collected(choices[..i], q, false)
    {
      var option := choices[i];
      assert choices[..i + 1][..i] == choices[..i];
      if SkipThisChoice(option) {
        i := i + 1;
        continue;
      }
      if option.width <= q.maxWidth && option.height <= q.maxHeight &&
         option.height == Div(Mul(option.width, q.aspectRatio.height), q.aspectRatio.width) {
        if option.width >= q.textureViewWidth && option.height >= q.textureViewHeight {
          bigEnough := bigEnough + [option];
        } else {
          notBigEnough := notBigEnough + [option];
        }
      }
      i := i + 1;
    }
    assert choices[..i] == choices;
    MinOfCollected(choices, q, true);
    MaxOfCollected(choices, q, false);
    FirstExtremeIsFirstOfExtremeArea(choices, q, true, true);
    FirstExtremeIsFirstOfExtremeArea(choices, q, false, false);
    if |bigEnough| > 0 {
      r := bigEnough[MinIndex(bigEnough)];
    } else if |notBigEnough| > 0 {
      r := notBigEnough[MaxIndex(notBigEnough)];
    } else {
      r := choices[0];
    }
  }

  /** The swap-and-clamp block of initCameraConfig: the requested preview size and the display
      size are turned to sensor coordinates, then the bound is clamped to 1920x1080. */
  method PreviewBounds(swappedDimensions: bool, width: Int32, height: Int32, displayX: Int32, displayY: Int32)
    returns (rotatedPreviewWidth: Int32, rotatedPreviewHeight: Int32, maxPreviewWidth: Int32, maxPreviewHeight: Int32)
    ensures (rotatedPreviewWidth, rotatedPreviewHeight) == if swappedDimensions then (height, width) else (width, height)
    ensures var (dx, dy) := if swappedDimensions then (displayY, displayX) else (displayX, displayY);
            maxPreviewWidth == (if dx > MAX_PREVIEW_WIDTH then MAX_PREVIEW_WIDTH else dx) &&
            maxPreviewHeight == (if dy > MAX_PREVIEW_HEIGHT then MAX_PREVIEW_HEIGHT else dy)
    ensures maxPreviewWidth <= MAX_PREVIEW_WIDTH && maxPreviewHeight <= MAX_PREVIEW_HEIGHT
  {
    rotatedPreviewWidth := width;
    rotatedPreviewHeight := height;
    maxPreviewWidth := displayX;
    maxPreviewHeight := displayY;
    if swappedDimensions {
      rotatedPreviewWidth := height;
      rotatedPreviewHeight := width;
      maxPreviewWidth := displayY;
      maxPreviewHeight := displayX;
    }
    if maxPreviewWidth > MAX_PREVIEW_WIDTH {
      maxPreviewWidth := MAX_PREVIEW_WIDTH;
    }
    if maxPreviewHeight > MAX_PREVIEW_HEIGHT {
      maxPreviewHeight := MAX_PREVIEW_HEIGHT;
    }
  }
}
