/**
 * The visual position service: it crops a region of interest out of a captured
 * frame, keeps the largest green contour found there as the map arrow, remembers
 * one origin point, and turns the offset from the arrow to that origin into a
 * left-stick command.
 *
 * The OpenCV pipeline (BGR to HSV, the in-range mask, the 5x5 dilation, contour
 * extraction, contour area, minimum enclosing circle, bounding rectangle) is not
 * modelled: a frame carries the summaries of the contours that pipeline finds in
 * its region of interest, in region-local coordinates and in OpenCV's order.
 */
module VisualPosition {
  import opened Wrappers

  const MinContourArea: real := 30.0
  const MaxStickValue: int := 32767
  const MovementThreshold: int := 10
  const SlowDownDistance: int := 200
  const MinStickStrength: real := 0.75

  /** The lowest strength a correction outside the dead zone can have. */
  const MinStrength: real := MinStickStrength * MaxStickValue as real

  datatype Point = Point(x: int, y: int)
  datatype PointF = PointF(x: real, y: real)
  datatype Rect = Rect(x: int, y: int, width: int, height: int)

  /** One external contour of the dilated mask, as OpenCV measures it. */
  datatype ContourSummary = ContourSummary(area: real, circleCenter: PointF, boundingRect: Rect)

  /** A captured frame: its size, and the contours found in its region of interest. */
  datatype Frame = Frame(width: nat, height: nat, contours: seq<ContourSummary>)

  /** The result of one locate call: the arrow's centre if found, and its bounding box. */
  datatype Detection = Detection(center: Option<Point>, boundingBox: Rect)

  /** A correction: stick components and the distance to the origin. */
  datatype Correction = Correction(stickX: int, stickY: int, distance: real)

  const NoCorrection: Correction := Correction(0, 0, 0.0)

  // ---------------------------------------------------------------------------
  // Region of interest
  // ---------------------------------------------------------------------------

  predicate InsideFrame(r: Rect, width: nat, height: nat) {
    0 <= r.x && 0 <= r.y && 0 <= r.width && 0 <= r.height &&
    r.x + r.width <= width && r.y + r.height <= height
  }

  /**
   * The search region: 20% of the width off each side and 15% of the height
   * off the top and the bottom, each margin truncated to whole pixels; the
   * whole frame when what is left would be empty.
   */
  function RegionOfInterest(width: nat, height: nat): (roi: Rect)
    ensures InsideFrame(roi, width, height)
    ensures width > 0 && height > 0 ==>
      && 5 * roi.x <= width < 5 * (roi.x + 1)
      && 100 * roi.y <= 15 * height < 100 * (roi.y + 1)
      && roi.x + roi.width + roi.x == width
      && roi.y + roi.height + roi.y == height
      && roi.width > 0 && roi.height > 0
    ensures width == 0 || height == 0 ==> roi == Rect(0, 0, width, height)
  {
    var ignoreTop := height * 15 / 100;
    var ignoreBottom := height * 15 / 100;
    var roiHeight := height - ignoreTop - ignoreBottom;
    var ignoreLeft := width * 20 / 100;
    var ignoreRight := width * 20 / 100;
    var roiWidth := width - ignoreLeft - ignoreRight;
    if roiHeight > 0 && roiWidth > 0 then Rect(ignoreLeft, ignoreTop, roiWidth, roiHeight)
    else Rect(0, 0, width, height)
  }

  // ---------------------------------------------------------------------------
  // Selecting the arrow among the contours
  // ---------------------------------------------------------------------------

  /**
   * Contour i is the one the selection keeps: it is above the area threshold,
   * every earlier contour is strictly smaller and no later one is larger.
   */
  ghost predicate IsFirstLargest(cs: seq<ContourSummary>, i: nat) {
    && i < |cs|
    && cs[i].area > MinContourArea
    && (forall j | 0 <= j < i :: cs[j].area < cs[i].area)
    && (forall j | i < j < |cs| :: cs[j].area <= cs[i].area)
  }

  /** The running maximum of the selection loop: 0 until some contour is kept. */
  function KeptArea(cs: seq<ContourSummary>, kept: Option<nat>): real
    requires kept.Some? ==> kept.value < |cs|
  {
    if kept.Some? then cs[kept.value].area else 0.0
  }

  /**
   * The index of the contour the selection loop keeps after visiting cs in
   * order: a contour replaces the current choice only when its area is above
   * the threshold and strictly above the area kept so far.
   */
  function Winner(cs: seq<ContourSummary>): (w: Option<nat>)
    ensures w.Some? ==> IsFirstLargest(cs, w.value)
    ensures w.None? <==> forall j | 0 <= j < |cs| :: cs[j].area <= MinContourArea
  {
    if cs == [] then None
    else
      var prev := Winner(cs[..|cs| - 1]);
      var last := cs[|cs| - 1];
      if last.area > MinContourArea && last.area > KeptArea(cs, prev) then Some(|cs| - 1)
      else prev
  }

  /** One more iteration of the selection loop, seen on the specification. */
  lemma WinnerStep(cs: seq<ContourSummary>, k: nat)
    requires k < |cs|
    ensures var prev := Winner(cs[..k]);
      Winner(cs[..k + 1]) ==
        if cs[k].area > MinContourArea && cs[k].area > KeptArea(cs, prev) then Some(k) else prev
  {
    assert cs[..k + 1][..k] == cs[..k];
    var prev := Winner(cs[..k]);
    assert prev.Some? ==> cs[..k + 1][prev.value] == cs[prev.value];
  }

  /** The first largest contour is unique, so the choice among equal areas is determined. */
  lemma FirstLargestUnique(cs: seq<ContourSummary>, i: nat, j: nat)
    requires IsFirstLargest(cs, i) && IsFirstLargest(cs, j)
    ensures i == j
  {
  }

  /** Of two qualifying contours with the same area, the earlier one is kept. */
  lemma EqualAreaKeepsFirst(a: ContourSummary, b: ContourSummary)
    requires a.area > MinContourArea && a.area == b.area
    ensures Winner([a, b]) == Some(0)
  {
    assert [a, b][..1] == [a];
    assert [a] [..0] == [];
  }

  /** t is x truncated toward zero: the integer between zero and x that is less than one away from x. */
  predicate Truncates(t: int, x: real) {
    && (0.0 <= x ==> t as real <= x < t as real + 1.0)
    && (x < 0.0 ==> t as real - 1.0 < x <= t as real)
  }

  /** C#'s conversion of a floating value to int: truncation toward zero. */
  function TruncateToInt(x: real): (r: int)
    ensures Truncates(r, x)
  {
    if x >= 0.0 then x.Floor else -((-x).Floor)
  }

  /** A region-local centre moved into frame coordinates, then truncated. */
  function CenterInFrame(c: PointF, roi: Rect): Point {
    Point(TruncateToInt(c.x + roi.x as real), TruncateToInt(c.y + roi.y as real))
  }

  /** A region-local bounding box moved into frame coordinates. */
  function BoxInFrame(r: Rect, roi: Rect): Rect {
    Rect(r.x + roi.x, r.y + roi.y, r.width, r.height)
  }

  /**
   * What locating the arrow reports for a frame: the centre and box of the
   * first largest contour above 30 px, shifted by the region's origin; no
   * centre and an empty box when no contour is above the threshold.
   */
  function Locate(frame: Frame): (d: Detection)
    ensures d.center.Some? <==>
      exists j | 0 <= j < |frame.contours| :: frame.contours[j].area > MinContourArea
    ensures d.center.None? ==> d.boundingBox == Rect(0, 0, 0, 0)
    ensures d.center.Some? ==>
      var roi := RegionOfInterest(frame.width, frame.height);
      exists i: nat ::
        && IsFirstLargest(frame.contours, i)
        && d.center.value == CenterInFrame(frame.contours[i].circleCenter, roi)
        && d.boundingBox == BoxInFrame(frame.contours[i].boundingRect, roi)
  {
    var roi := RegionOfInterest(frame.width, frame.height);
    match Winner(frame.contours)
    case None => Detection(None, Rect(0, 0, 0, 0))
    case Some(i) =>
      var c := frame.contours[i];
      Detection(Some(CenterInFrame(c.circleCenter, roi)), BoxInFrame(c.boundingRect, roi))
  }

  /**
   * The locate step of the service: crop, then walk the contours keeping the
   * largest one above the threshold, then translate the winner to frame
   * coordinates.
   */
  method LocateMarker(frame: Frame) returns (d: Detection)
    ensures d == Locate(frame)
  {
    var roi := RegionOfInterest(frame.width, frame.height);
    var maxArea, circleCenter, finalRect, kept := KeepLargest(frame.contours, roi);
    var finalCenter: Option<Point> := None;
    if maxArea > 0.0 {
      finalCenter := Some(Point(TruncateToInt(circleCenter.x + roi.x as real), TruncateToInt(circleCenter.y + roi.y as real)));
    }
    d := Detection(finalCenter, finalRect);
    match kept
    case None =>
      assert d == Detection(None, Rect(0, 0, 0, 0));
    case Some(i) =>
      assert d == Detection(Some(CenterInFrame(frame.contours[i].circleCenter, roi)), BoxInFrame(frame.contours[i].boundingRect, roi));
  }

  /**
   * The contour loop of the locate step: the largest area seen so far, with
   * the centre and frame-shifted box of the contour that had it.
   */
  method KeepLargest(cs: seq<ContourSummary>, roi: Rect)
    returns (maxArea: real, circleCenter: PointF, finalRect: Rect, ghost kept: Option<nat>)
    ensures kept == Winner(cs)
    ensures kept.Some? ==> kept.value < |cs|
    ensures maxArea > 0.0 <==> kept.Some?
    ensures kept.None? ==> finalRect == Rect(0, 0, 0, 0)
    ensures kept.Some? ==>
      circleCenter == cs[kept.value].circleCenter &&
      finalRect == BoxInFrame(cs[kept.value].boundingRect, roi)
  {
    finalRect := Rect(0, 0, 0, 0);
    circleCenter := PointF(0.0, 0.0);
    maxArea := 0.0;
    kept := None;
    var k := 0;
    while k < |cs|
      invariant 0 <= k <= |cs|
      invariant kept == Winner(cs[..k])
      invariant kept.Some? ==> kept.value < k
      invariant maxArea == KeptArea(cs, kept)
      invariant kept.None? ==> finalRect == Rect(0, 0, 0, 0)
      invariant kept.Some? ==>
        circleCenter == cs[kept.value].circleCenter &&
        finalRect == BoxInFrame(cs[kept.value].boundingRect, roi)
    {
      WinnerStep(cs, k);
      var area := cs[k].area;
      if area > MinContourArea && area > maxArea {
        maxArea := area;
        circleCenter := cs[k].circleCenter;
        var relativeRect := cs[k].boundingRect;
        finalRect := Rect(relativeRect.x + roi.x, relativeRect.y + roi.y, relativeRect.width, relativeRect.height);
        kept := Some(k);
      }
      k := k + 1;
    }
    assert cs[..k] == cs;
  }

  // ---------------------------------------------------------------------------
  // Correction vector
  // ---------------------------------------------------------------------------

  /** f behaves as the square root on non-negative reals (Math.Sqrt, without rounding). */
  ghost predicate IsSqrt(f: real -> real) {
    forall x: real {:trigger f(x)} :: 0.0 <= x ==> 0.0 <= f(x) && f(x) * f(x) == x
  }

  function Min(a: real, b: real): real { if a <= b then a else b }
  function Max(a: real, b: real): real { if a >= b then a else b }

  /**
   * The stick strength for a distance: the distance over 200 capped at 1,
   * raised to at least 0.75, times the full stick value. It is flat at 0.75
   * up to 150 and full from 200 on.
   */
  function Strength(distance: real): (s: real)
    ensures MinStrength <= s <= MaxStickValue as real
    ensures distance <= 150.0 ==> s == MinStrength
    ensures 150.0 <= distance <= 200.0 ==> s == distance / 200.0 * MaxStickValue as real
    ensures distance >= 200.0 ==> s == MaxStickValue as real
  {
    var strengthRatio := Min(distance / SlowDownDistance as real, 1.0);
    Max(strengthRatio, MinStickStrength) * MaxStickValue as real
  }

  /** A longer way to go never gives a weaker push. */
  lemma StrengthMonotone(d1: real, d2: real)
    requires d1 <= d2
    ensures Strength(d1) <= Strength(d2)
  {
  }

  function SquaredDistance(p: Point, q: Point): int {
    (p.x - q.x) * (p.x - q.x) + (p.y - q.y) * (p.y - q.y)
  }

  /** t has the sign of a, or is zero; it is zero when a is. */
  predicate Follows(t: int, a: int) {
    (a > 0 ==> t >= 0) && (a < 0 ==> t <= 0) && (a == 0 ==> t == 0)
  }

  /**
   * The stick (x, y) for an offset (right, up) at the given distance: each
   * component is the offset's share of the distance times Strength, truncated
   * toward zero.
   */
  predicate Scaled(x: int, y: int, right: int, up: int, distance: real)
    requires 0.0 < distance
  {
    && Truncates(x, right as real / distance * Strength(distance))
    && Truncates(y, up as real / distance * Strength(distance))
  }

  /**
   * The stick command for an offset outside the dead zone, given in stick axes:
   * right is dx, and up is -dy, because screen y grows downward and stick y
   * upward. The stick points along (right, up) with the length given by
   * Strength, and each component is truncated toward zero. cos(atan2(-dy, dx))
   * is written as right / distance and sin(atan2(-dy, dx)) as up / distance.
   */
  function StickFor(right: int, up: int, distance: real): (stick: (int, int))
    requires MovementThreshold as real <= distance
    requires distance * distance == (right * right + up * up) as real
    ensures -MaxStickValue <= stick.0 <= MaxStickValue && -MaxStickValue <= stick.1 <= MaxStickValue
    ensures Follows(stick.0, right) && Follows(stick.1, up)
    ensures stick.0 != 0 || stick.1 != 0
    ensures Scaled(stick.0, stick.1, right, up, distance)
  {
    StickFacts(right, up, distance);
    (Component(right as real, distance, Strength(distance)), Component(up as real, distance, Strength(distance)))
  }

  /** The promises of StickFor, on the two components at the strength for the distance. */
  lemma StickFacts(right: int, up: int, distance: real)
    requires MovementThreshold as real <= distance
    requires distance * distance == (right * right + up * up) as real
    ensures var x, y := Component(right as real, distance, Strength(distance)), Component(up as real, distance, Strength(distance));
      && -MaxStickValue <= x <= MaxStickValue && -MaxStickValue <= y <= MaxStickValue
      && Follows(x, right) && Follows(y, up)
      && (x != 0 || y != 0)
      && Scaled(x, y, right, up, distance)
  {
    ComponentFacts(right, up, distance, Strength(distance));
    ComponentsScaled(right, up, distance);
  }

  /** Each component is its share of the strength, truncated toward zero. */
  lemma ComponentsScaled(right: int, up: int, distance: real)
    requires 0.0 < distance
    ensures Scaled(Component(right as real, distance, Strength(distance)), Component(up as real, distance, Strength(distance)), right, up, distance)
  {
  }

  /** One stick component: the offset's share of the distance, times the strength, truncated. */
  function Component(offset: real, distance: real, strength: real): int
    requires 0.0 < distance
  {
    TruncateToInt(offset / distance * strength)
  }

  /** What StickFor promises, proved on the two components. */
  lemma ComponentFacts(a: int, b: int, d: real, s: real)
    requires 10.0 <= d && d * d == (a * a + b * b) as real
    requires MinStrength <= s <= MaxStickValue as real
    ensures var x := Component(a as real, d, s);
      -MaxStickValue <= x <= MaxStickValue && Follows(x, a)
    ensures var y := Component(b as real, d, s);
      -MaxStickValue <= y <= MaxStickValue && Follows(y, b)
    ensures Component(a as real, d, s) != 0 || Component(b as real, d, s) != 0
  {
    SquaresAsReal(a, b);
    TruncatedComponent(a as real, b as real, d, s);
    TruncatedComponent(b as real, a as real, d, s);
    StickNotNeutral(a as real, b as real, d, s);
  }

  /**
   * The correction from the marker at current to the origin at target: the
   * offset is target - current, the distance its Euclidean length; inside the
   * dead zone (distance below 10) the stick stays at rest, outside it the stick
   * is pushed toward the origin.
   */
  function CorrectionFor(target: Point, current: Point, sqrt: real -> real): (c: Correction)
    requires IsSqrt(sqrt)
    ensures 0.0 <= c.distance
    ensures c.distance * c.distance == SquaredDistance(target, current) as real
    ensures c.distance < MovementThreshold as real <==> SquaredDistance(target, current) < 100
    ensures SquaredDistance(target, current) < 100 ==> c.stickX == 0 && c.stickY == 0
    ensures SquaredDistance(target, current) >= 100 ==>
      && -MaxStickValue <= c.stickX <= MaxStickValue
      && -MaxStickValue <= c.stickY <= MaxStickValue
      && (c.stickX != 0 || c.stickY != 0)
      && Follows(c.stickX, target.x - current.x)
      && Follows(c.stickY, current.y - target.y)
      && Scaled(c.stickX, c.stickY, target.x - current.x, current.y - target.y, c.distance)
  {
    var dx := target.x - current.x;
    var dy := target.y - current.y;
    var sq := SquaredDistance(target, current);
    var distance := sqrt(sq as real);
    SquareRootBelow(distance, sq);
    if distance < MovementThreshold as real then Correction(0, 0, distance)
    else
      var up := current.y - target.y;
      assert up * up == dy * dy;
      var stick := StickFor(dx, up, distance);
      Correction(stick.0, stick.1, distance)
  }

  /** For a root d of sq: d < 10 exactly when sq < 100. */
  lemma SquareRootBelow(d: real, sq: int)
    requires 0.0 <= d && d * d == sq as real
    ensures d < 10.0 <==> sq < 100
  {
    if d < 10.0 {
      MulMonotone(d, d, 10.0);
      MulMonotone(10.0, d, 10.0);
    } else {
      MulMonotone(d, 10.0, d);
      MulMonotone(10.0, 10.0, d);
    }
  }

  lemma MulMonotone(x: real, y: real, z: real)
    requires 0.0 <= x && y <= z
    ensures x * y <= x * z
  {
  }

  /** u is non-negative when its product with a positive v is. */
  lemma NonNegFactor(u: real, v: real)
    requires 0.0 < v && 0.0 <= u * v
    ensures 0.0 <= u
  {
  }

  /** A leg of a right triangle is no longer than its hypotenuse. */
  lemma LegAtMostRoot(a: real, b: real, d: real)
    requires 0.0 <= d && d * d == a * a + b * b
    ensures a <= d
  {
    assert (d - a) * (d + a) == b * b;
    assert 0.0 <= b * b;
    if 0.0 < d + a {
      NonNegFactor(d - a, d + a);
    }
  }

  /** Square roots preserve order: d^2 <= e^2 gives d <= e for non-negative d, e. */
  lemma RootMonotone(d: real, e: real)
    requires 0.0 <= d && 0.0 <= e && d * d <= e * e
    ensures d <= e
  {
    assert (e - d) * (e + d) == e * e - d * d;
    if 0.0 < e + d {
      NonNegFactor(e - d, e + d);
    }
  }

  /** a / d lies in [-1, 1] when |a| <= d. */
  lemma RatioBounded(a: real, d: real)
    requires 0.0 < d && -d <= a <= d
    ensures -1.0 <= a / d <= 1.0
  {
    var q := a / d;
    assert q * d == a;
    NonNegFactor(1.0 - q, d);
    NonNegFactor(q + 1.0, d);
  }

  /** Integer squares seen as reals. */
  lemma SquaresAsReal(x: int, y: int)
    ensures (x * x + y * y) as real == (x as real) * (x as real) + (y as real) * (y as real)
  {
  }

  /** A stick component lies within the strength and follows the sign of its offset. */
  lemma StickComponentBounds(a: real, b: real, d: real, s: real)
    requires 0.0 < d && d * d == a * a + b * b
    requires 0.0 <= s <= MaxStickValue as real
    ensures var x := a / d * s;
      -s <= x <= s && (0.0 < a ==> 0.0 <= x) && (a < 0.0 ==> x <= 0.0) && (a == 0.0 ==> x == 0.0)
  {
    LegAtMostRoot(a, b, d);
    assert (-a) * (-a) == a * a;
    LegAtMostRoot(-a, b, d);
    RatioBounded(a, d);
    var q := a / d;
    assert q * d == a;
    if 0.0 <= q {
      MulMonotone(s, q, 1.0);
      MulMonotone(s, 0.0, q);
    } else {
      MulMonotone(s, -1.0, q);
      MulMonotone(s, q, 0.0);
    }
    if 0.0 < a {
      NonNegFactor(q, d);
    } else if a < 0.0 {
      assert (-q) * d == -a;
      NonNegFactor(-q, d);
    }
  }

  /** The truncated stick component: within the stick range and following its offset's sign. */
  lemma TruncatedComponent(a: real, b: real, d: real, s: real)
    requires 0.0 < d && d * d == a * a + b * b
    requires 0.0 <= s <= MaxStickValue as real
    ensures var t := Component(a, d, s);
      -MaxStickValue <= t <= MaxStickValue && (0.0 < a ==> 0 <= t) && (a < 0.0 ==> t <= 0) && (a == 0.0 ==> t == 0)
  {
    StickComponentBounds(a, b, d, s);
  }

  /** Of two legs, the longer one is at least half the hypotenuse. */
  lemma LongerLegBound(a: real, d: real, m: real)
    requires 0.0 < d && d * d <= 2.0 * (a * a)
    requires m == if a >= 0.0 then a else -a
    ensures 0.5 <= m / d
  {
    assert m * m == a * a;
    assert d * d <= (2.0 * m) * (2.0 * m);
    RootMonotone(d, 2.0 * m);
    var r := m / d;
    assert r * d == m;
    assert (r - 0.5) * d == m - 0.5 * d;
    NonNegFactor(r - 0.5, d);
  }

  /** A component whose leg is at least half the hypotenuse is not truncated to zero. */
  lemma LongLegMoves(a: real, d: real, s: real)
    requires 0.0 < d && d * d <= 2.0 * (a * a)
    requires MinStrength <= s
    ensures Component(a, d, s) != 0
  {
    var m := if a >= 0.0 then a else -a;
    LongerLegBound(a, d, m);
    var q := a / d;
    if a >= 0.0 {
      assert q == m / d;
      MulMonotone(s, 0.5, q);
    } else {
      assert q == -(m / d);
      MulMonotone(s, q, -0.5);
    }
  }

  /** Outside the dead zone the strength is large enough that some component is not zero. */
  lemma StickNotNeutral(a: real, b: real, d: real, s: real)
    requires 0.0 < d && d * d == a * a + b * b
    requires MinStrength <= s
    ensures Component(a, d, s) != 0 || Component(b, d, s) != 0
  {
    if a * a >= b * b {
      LongLegMoves(a, d, s);
    } else {
      LongLegMoves(b, d, s);
    }
  }

  /** Setting the origin on a frame and correcting on an identical frame asks for no movement. */
  lemma OriginRoundTrip(p: Point, sqrt: real -> real)
    requires IsSqrt(sqrt)
    ensures CorrectionFor(p, p, sqrt) == NoCorrection
  {
    var d := sqrt(0.0);
    assert 0.0 <= d && d * d == 0.0;
    RootMonotone(d, 0.0);
    assert SquaredDistance(p, p) == 0;
  }

  // ---------------------------------------------------------------------------
  // The service object: a single origin slot
  // ---------------------------------------------------------------------------

  class PositionTracker {
    /** The origin the arrow is steered back to, if one is recorded. */
    var target: Option<Point>

    constructor ()
      ensures target == None
    {
      target := None;
    }

    predicate IsTargetSet()
      reads this
    {
      target.Some?
    }

    /** Records the arrow's current centre as the origin when it is found. */
    method SetCurrentAsTarget(frame: Frame) returns (found: bool)
      modifies this
      ensures found <==> Locate(frame).center.Some?
      ensures found ==> IsTargetSet() && target == Locate(frame).center
      ensures !found ==> target == old(target)
    {
      var result := LocateMarker(frame);
      if result.center.Some? {
        target := result.center;
        return true;
      }
      return false;
    }

    /** Clears the origin; doing it twice is the same as doing it once. */
    method ResetTarget()
      modifies this
      ensures !IsTargetSet() && target == None
    {
      target := None;
    }

    /**
     * The correction toward the origin. With no origin it does not locate at
     * all; with an origin but no arrow it reports the same neutral result.
     */
    method CalculateCorrectionVector(frame: Frame, sqrt: real -> real) returns (c: Correction)
      requires IsSqrt(sqrt)
      ensures target.None? ==> c == NoCorrection
      ensures target.Some? && Locate(frame).center.None? ==> c == NoCorrection
      ensures target.Some? && Locate(frame).center.Some? ==>
        c == CorrectionFor(target.value, Locate(frame).center.value, sqrt)
    {
      if target.None? {
        return NoCorrection;
      }
      var result := LocateMarker(frame);
      if result.center.None? {
        return NoCorrection;
      }
      c := CorrectionFor(target.value, result.center.value, sqrt);
    }

    /** The bounding box of the arrow, for the overlay. */
    method GetDetectedRect(frame: Frame) returns (r: Rect)
      ensures r == Locate(frame).boundingBox
    {
      var result := LocateMarker(frame);
      r := result.boundingBox;
    }
  }
}
