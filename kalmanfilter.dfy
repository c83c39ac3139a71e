/** The extended Kalman filter over the 13 joint depths: the state transition `fx`
    (each joint's depth pulled onto the sphere its bone length allows around its parent,
    then smoothed with a bounded step), the identity measurement `hx`, and the filter
    object whose `predict` and `update` replace its state and covariance. */
module KalmanFilter {
  import opened Numeric
  import opened Constants
  import opened MathUtils

  // ---------------------------------------------------------------------------
  // projectToSphere

  /** Squared length of the planar offset `(dx, dy)`. */
  function PlanarSq(dx: real, dy: real): (d: real)
    ensures 0.0 <= d
  {
    MulNonNegative(Abs(dx), Abs(dx));
    MulNonNegative(Abs(dy), Abs(dy));
    assert Abs(dx) * Abs(dx) == dx * dx && Abs(dy) * Abs(dy) == dy * dy;
    dx * dx + dy * dy
  }

  /** `projectToSphere(x, y, cx, cy, r)`: a point farther than `r` from the centre is
      pulled along its ray onto the circle of radius `r`; a point inside is returned as is.
      Either way the result lies in the disc of radius `r`. */
  function ProjectToSphere(sqrt: real -> real, x: real, y: real, cx: real, cy: real, r: real): (p: (real, real))
    requires IsSqrt(sqrt)
    ensures PlanarSq(p.0 - cx, p.1 - cy) <= r * r
    ensures PlanarSq(x - cx, y - cy) <= r * r ==> p == (x, y)
  {
    var dx, dy := x - cx, y - cy;
    var distSq := PlanarSq(dx, dy);
    if distSq > r * r then
      assert 0.0 <= r * r by { MulNonNegative(Abs(r), Abs(r)); assert Abs(r) * Abs(r) == r * r; }
      SqrtPositive(sqrt, distSq);
      var scale := r / sqrt(distSq);
      RescaledOffset(dx, dy, sqrt(distSq), r);
      assert cx + dx * scale - cx == dx * scale && cy + dy * scale - cy == dy * scale;
      (cx + dx * scale, cy + dy * scale)
    else
      (x, y)
  }

  /** A point outside the disc lands on the boundary circle, on the same line through the
      centre, and on the same side of it when `r >= 0`. */
  lemma ProjectToSphereLandsInDisc(sqrt: real -> real, x: real, y: real, cx: real, cy: real, r: real)
    requires IsSqrt(sqrt)
    ensures var p := ProjectToSphere(sqrt, x, y, cx, cy, r);
      PlanarSq(x - cx, y - cy) > r * r ==> PlanarSq(p.0 - cx, p.1 - cy) == r * r
    ensures var p := ProjectToSphere(sqrt, x, y, cx, cy, r);
      (p.0 - cx) * (y - cy) == (p.1 - cy) * (x - cx)
    ensures var p := ProjectToSphere(sqrt, x, y, cx, cy, r);
      0.0 <= r ==> 0.0 <= (p.0 - cx) * (x - cx) + (p.1 - cy) * (y - cy)
  {
    var dx, dy := x - cx, y - cy;
    var distSq := PlanarSq(dx, dy);
    if distSq > r * r {
      var dist := sqrt(distSq);
      SqrtPositive(sqrt, distSq);
      RescaledOffset(dx, dy, dist, r);
    }
  }

  /** Rescaling an offset of length `dist` by `r / dist` gives length `r`, along the same
      line, and in the same direction when `r >= 0`. */
  lemma RescaledOffset(dx: real, dy: real, dist: real, r: real)
    requires 0.0 < dist && dist * dist == PlanarSq(dx, dy)
    ensures var scale := r / dist;
      PlanarSq(dx * scale, dy * scale) == r * r &&
      (dx * scale) * dy == (dy * scale) * dx &&
      (0.0 <= r ==> 0.0 <= (dx * scale) * dx + (dy * scale) * dy)
  {
    var scale := r / dist;
    assert scale * dist == r;
    calc {
      PlanarSq(dx * scale, dy * scale);
      (scale * scale) * PlanarSq(dx, dy);
      (scale * dist) * (scale * dist);
    }
    assert (dx * scale) * dx + (dy * scale) * dy == scale * PlanarSq(dx, dy);
    if 0.0 <= r {
      MulNonNegative(scale, PlanarSq(dx, dy));
    }
  }

  // ---------------------------------------------------------------------------
  // smoothTransition

  /** The depth `sqrt(deltaSq)` away from `ref`, on the side of the raw depth `joint`
      (on neither side when `joint == ref`). */
  function Predicted(sqrt: real -> real, deltaSq: real, ref: real, joint: real): real
    requires IsSqrt(sqrt) && 0.0 <= deltaSq
  {
    ref + Sign(joint - ref) * sqrt(deltaSq)
  }

  /** `|ref| / sqrt(deltaSq)`, or 0 when `deltaSq` is 0. */
  function DistanceRatio(sqrt: real -> real, deltaSq: real, ref: real): (ratio: real)
    requires IsSqrt(sqrt) && 0.0 <= deltaSq
    ensures 0.0 <= ratio
    ensures deltaSq == 0.0 ==> ratio == 0.0
  {
    if deltaSq > 0.0 then
      SqrtPositive(sqrt, deltaSq);
      Abs(ref) / sqrt(deltaSq)
    else
      0.0
  }

  /** The weight kept on the current depth: 0.01 when the ratio exceeds 0.75,
      0.3 when it is at most 0.25, otherwise 0.1. */
  function BlendWeight(ratio: real): (alpha: real)
    ensures 0.0 < alpha < 1.0
  {
    if ratio > 0.75 then 0.01 else if ratio <= 0.25 then 0.3 else 0.1
  }

  /** The step from the current depth, cut to `[-maxStep, maxStep]`. */
  function ClampStep(diff: real, maxStep: real): (d: real)
  {
    if diff > maxStep then maxStep else if diff < -maxStep then -maxStep else diff
  }

  /** The unclamped new value: `alpha * current + (1 - alpha) * predicted`. */
  function SmoothTarget(sqrt: real -> real, current: real, deltaSq: real, ref: real, joint: real): real
    requires IsSqrt(sqrt) && 0.0 <= deltaSq
  {
    var alpha := BlendWeight(DistanceRatio(sqrt, deltaSq, ref));
    alpha * current + (1.0 - alpha) * Predicted(sqrt, deltaSq, ref, joint)
  }

  /** `smoothTransition(current, deltaSq, ref, joint, maxStep)`: the reference itself when
      `deltaSq` is negative, otherwise the current depth moved toward the blended target by
      at most `maxStep`. */
  function SmoothTransition(sqrt: real -> real, current: real, deltaSq: real, ref: real, joint: real,
                            maxStep: real): (v: real)
    requires IsSqrt(sqrt)
    ensures deltaSq < 0.0 ==> v == ref
    ensures 0.0 <= deltaSq && 0.0 <= maxStep ==> Abs(v - current) <= maxStep
  {
    if deltaSq < 0.0 then ref
    else current + ClampStep(SmoothTarget(sqrt, current, deltaSq, ref, joint) - current, maxStep)
  }

  /** The predicted depth lies exactly `sqrt(deltaSq)` from the reference, on the side of
      the raw depth; it is the reference itself when the raw depth equals it. */
  lemma PredictedOffset(sqrt: real -> real, deltaSq: real, ref: real, joint: real)
    requires IsSqrt(sqrt) && 0.0 <= deltaSq
    ensures var p := Predicted(sqrt, deltaSq, ref, joint);
      joint != ref ==> (p - ref) * (p - ref) == deltaSq
    ensures joint == ref ==> Predicted(sqrt, deltaSq, ref, joint) == ref
    ensures 0.0 < deltaSq ==> Sign(Predicted(sqrt, deltaSq, ref, joint) - ref) == Sign(joint - ref)
  {
    var root, s := sqrt(deltaSq), Sign(joint - ref);
    var p := Predicted(sqrt, deltaSq, ref, joint);
    assert p - ref == s * root;
    if joint != ref {
      assert s * s == 1.0;
      calc {
        (s * root) * (s * root);
        (s * s) * (root * root);
        deltaSq;
      }
    }
    if 0.0 < deltaSq {
      SqrtPositive(sqrt, deltaSq);
      if s == 1.0 {
        assert p - ref == root;
      } else if s == -1.0 {
        assert p - ref == -root;
      }
    }
  }

  /** A larger distance ratio never gives the current depth more weight. */
  lemma BlendWeightMonotone(ratio1: real, ratio2: real)
    requires ratio1 <= ratio2
    ensures BlendWeight(ratio2) <= BlendWeight(ratio1)
  {
  }

  /** The blended target lies between the current and the predicted depth. */
  lemma SmoothTargetBetween(sqrt: real -> real, current: real, deltaSq: real, ref: real, joint: real)
    requires IsSqrt(sqrt) && 0.0 <= deltaSq
    ensures var t, p := SmoothTarget(sqrt, current, deltaSq, ref, joint), Predicted(sqrt, deltaSq, ref, joint);
      (current <= p ==> current <= t <= p) && (p <= current ==> p <= t <= current)
  {
    var alpha := BlendWeight(DistanceRatio(sqrt, deltaSq, ref));
    var p := Predicted(sqrt, deltaSq, ref, joint);
    assert SmoothTarget(sqrt, current, deltaSq, ref, joint) == Lerp(p, current, alpha);
    LerpBetween(p, current, alpha);
  }

  /** With a non-negative `deltaSq` and step bound, the result moves from the current depth
      toward the target, never past it, and reaches it when it is within `maxStep`. */
  lemma SmoothTransitionTowardTarget(sqrt: real -> real, current: real, deltaSq: real, ref: real,
                                     joint: real, maxStep: real)
    requires IsSqrt(sqrt) && 0.0 <= deltaSq && 0.0 <= maxStep
    ensures var v, t := SmoothTransition(sqrt, current, deltaSq, ref, joint, maxStep),
                        SmoothTarget(sqrt, current, deltaSq, ref, joint);
      (current <= t ==> current <= v <= t) && (t <= current ==> t <= v <= current)
    ensures var v, t := SmoothTransition(sqrt, current, deltaSq, ref, joint, maxStep),
                        SmoothTarget(sqrt, current, deltaSq, ref, joint);
      Abs(t - current) <= maxStep ==> v == t
  {
  }

  // ---------------------------------------------------------------------------
  // fx: the depth transition

  /** The largest change `fx` allows in one joint's depth per call. */
  const MaxDepthStep: real := 0.05

  /** One frame of measurements: each joint's image `(x, y)` with its raw depth `z`, and
      the reference depth of each joint. */
  datatype Measurement = Measurement(joints: seq<Point3>, refDepths: seq<real>)

  predicate ValidMeasurement(meas: Measurement)
  {
    |meas.joints| == NumJoints && |meas.refDepths| == NumJoints
  }

  /** The sphere `fx` projects joint `i` onto: centred on the parent joint's measured
      `(x, y)` with the bone length as radius, or on the image origin when there is no parent. */
  datatype Anchor = Anchor(parent: Option<nat>, radius: real)

  /** The parent/radius table of `fx`: the face and both hips have no parent and the
      half-pelvis radius; an index outside the skeleton gets no parent and radius 0. */
  function JointAnchor(i: nat): (a: Anchor)
    ensures a.parent.Some? ==> a.parent.value < NumJoints && a.parent.value != i
    ensures a.parent.None? <==> i == 0 || i == LeftHip || i == RightHip || NumJoints <= i
    ensures 0.0 < a.radius <==> i < NumJoints
  {
    if i == 0 then Anchor(None, R11)
    else if i == 7 then Anchor(None, R11)
    else if i == 8 then Anchor(None, R11)
    else if i == 1 then Anchor(Some(7), R6)
    else if i == 9 then Anchor(Some(7), R9)
    else if i == 3 then Anchor(Some(1), R5)
    else if i == 11 then Anchor(Some(9), R10)
    else if i == 5 then Anchor(Some(3), R4)
    else if i == 2 then Anchor(Some(8), R3)
    else if i == 10 then Anchor(Some(8), R7)
    else if i == 4 then Anchor(Some(2), R2)
    else if i == 12 then Anchor(Some(10), R8)
    else if i == 6 then Anchor(Some(4), R1)
    else Anchor(None, 0.0)
  }

  /** `order` visits every parent before its children, and each anchor's radius is positive. */
  lemma ParentBeforeChild(i: nat)
    requires i < NumJoints
    ensures JointAnchor(i).parent.Some? ==> OrderPosition(JointAnchor(i).parent.value) < OrderPosition(i)
    ensures 0.0 < JointAnchor(i).radius
    ensures JointAnchor(i).parent.None? <==> i == 0 || i == LeftHip || i == RightHip
  {
  }

  /** `Order[k]` is at position `k`. */
  lemma OrderPositionOfOrder(k: nat)
    requires k < |Order|
    ensures Order[k] < NumJoints && OrderPosition(Order[k]) == k
  {
  }

  /** `deltaSq` of joint `i` before `Math.max(., 0)`: the squared radius minus the squared
      planar distance of the projected point from the sphere's centre. */
  function RawDeltaSq(sqrt: real -> real, meas: Measurement, i: nat): real
    requires IsSqrt(sqrt) && ValidMeasurement(meas) && i < NumJoints
  {
    AnchorDeltaSq(sqrt, meas, i, JointAnchor(i))
  }

  /** `deltaSq` of joint `i` for the sphere given by anchor `a`. */
  function AnchorDeltaSq(sqrt: real -> real, meas: Measurement, i: nat, a: Anchor): real
    requires IsSqrt(sqrt) && ValidMeasurement(meas) && i < NumJoints
    requires a.parent.Some? ==> a.parent.value < NumJoints
  {
    var c := meas.joints[i];
    match a.parent
    case None =>
      var proj := ProjectToSphere(sqrt, c.x, c.y, 0.0, 0.0, a.radius);
      a.radius * a.radius - (proj.0 * proj.0 + proj.1 * proj.1)
    case Some(p) =>
      var px, py := meas.joints[p].x, meas.joints[p].y;
      var proj := ProjectToSphere(sqrt, c.x, c.y, px, py, a.radius);
      var dx, dy := proj.0 - px, proj.1 - py;
      a.radius * a.radius - (dx * dx + dy * dy)
  }

  /** The depth joint `i` is smoothed toward: its reference depth when it has no parent,
      otherwise the parent's depth in `state`. */
  function RefDepth(meas: Measurement, state: Vector, i: nat): real
    requires ValidMeasurement(meas) && i < NumJoints && NumJoints <= |state|
  {
    AnchorRefDepth(meas, state, i, JointAnchor(i))
  }

  function AnchorRefDepth(meas: Measurement, state: Vector, i: nat, a: Anchor): real
    requires ValidMeasurement(meas) && i < NumJoints && NumJoints <= |state|
    requires a.parent.Some? ==> a.parent.value < NumJoints
  {
    match a.parent
    case None => meas.refDepths[i]
    case Some(p) => state[p]
  }

  /** The new depth of joint `i` from its old depth and the depth it is smoothed toward. */
  function JointStep(sqrt: real -> real, meas: Measurement, i: nat, oldZ: real, refZ: real): real
    requires IsSqrt(sqrt) && ValidMeasurement(meas) && i < NumJoints
  {
    SmoothTransition(sqrt, oldZ, Max(RawDeltaSq(sqrt, meas, i), 0.0), refZ, meas.joints[i].z, MaxDepthStep)
  }

  /** The state after the first `k` joints of `Order` have been updated in place. */
  function TransitionUpTo(sqrt: real -> real, meas: Measurement, state: Vector, k: nat): (r: Vector)
    requires IsSqrt(sqrt) && ValidMeasurement(meas) && NumJoints <= |state| && k <= |Order|
    ensures |r| == |state|
  {
    if k == 0 then state
    else
      var s := TransitionUpTo(sqrt, meas, state, k - 1);
      var i := Order[k - 1];
      s[i := JointStep(sqrt, meas, i, s[i], RefDepth(meas, s, i))]
  }

  /** One more joint of `Order`, unfolded. */
  lemma TransitionUpToNext(sqrt: real -> real, meas: Measurement, state: Vector, k: nat)
    requires IsSqrt(sqrt) && ValidMeasurement(meas) && NumJoints <= |state| && k < |Order|
    ensures var s, i := TransitionUpTo(sqrt, meas, state, k), Order[k];
      TransitionUpTo(sqrt, meas, state, k + 1) == s[i := JointStep(sqrt, meas, i, s[i], RefDepth(meas, s, i))]
  {
  }

  /** `fx(state)` with the measurement of the current frame. */
  function Transition(sqrt: real -> real, meas: Measurement, state: Vector): (r: Vector)
    requires IsSqrt(sqrt) && ValidMeasurement(meas) && NumJoints <= |state|
    ensures |r| == |state|
  {
    TransitionUpTo(sqrt, meas, state, |Order|)
  }

  /** `fx`: a copy of the state whose joints are updated in `order`, each child reading the
      depth its parent has just been given. */
  method Fx(sqrt: real -> real, meas: Measurement, state: Vector) returns (newState: Vector)
    requires IsSqrt(sqrt) && ValidMeasurement(meas) && NumJoints <= |state|
    ensures newState == Transition(sqrt, meas, state)
  {
    newState := state;
    for k := 0 to |Order|
      invariant newState == TransitionUpTo(sqrt, meas, state, k)
    {
      OrderPositionOfOrder(k);
      newState := UpdateJoint(sqrt, meas, newState, Order[k]);
      TransitionUpToNext(sqrt, meas, state, k);
    }
  }

  /** The body of `fx`'s loop for joint `i`: project onto the joint's sphere, clamp
      `deltaSq` at 0, smooth the depth toward the reference or the parent's current depth. */
  method UpdateJoint(sqrt: real -> real, meas: Measurement, newState: Vector, i: nat) returns (r: Vector)
    requires IsSqrt(sqrt) && ValidMeasurement(meas) && NumJoints <= |newState| && i < NumJoints
    ensures r == newState[i := JointStep(sqrt, meas, i, newState[i], RefDepth(meas, newState, i))]
  {
    var c := meas.joints[i];
    var rawZ, oldZ, refZValue := c.z, newState[i], meas.refDepths[i];
    var anchor := JointAnchor(i);
    var radius := anchor.radius;
    var px, py := 0.0, 0.0;
    if anchor.parent.Some? {
      px, py := meas.joints[anchor.parent.value].x, meas.joints[anchor.parent.value].y;
    }
    var proj := ProjectToSphere(sqrt, c.x, c.y, px, py, radius);
    if anchor.parent.None? {
      var deltaSq := radius * radius - (proj.0 * proj.0 + proj.1 * proj.1);
      var safeDeltaSq := Max(deltaSq, 0.0);
      RootDeltaSq(sqrt, meas, i, anchor, proj, deltaSq);
      assert refZValue == RefDepth(meas, newState, i);
      r := newState[i := SmoothTransition(sqrt, oldZ, safeDeltaSq, refZValue, rawZ, MaxDepthStep)];
    } else {
      var dx, dy := proj.0 - px, proj.1 - py;
      var deltaSq := radius * radius - (dx * dx + dy * dy);
      var safeDeltaSq := Max(deltaSq, 0.0);
      var parentZ := newState[anchor.parent.value];
      ChildDeltaSq(sqrt, meas, i, anchor, px, py, proj, dx, dy, deltaSq);
      assert parentZ == RefDepth(meas, newState, i);
      r := newState[i := SmoothTransition(sqrt, oldZ, safeDeltaSq, parentZ, rawZ, MaxDepthStep)];
    }
  }

  /** The `deltaSq` the loop body computes for a joint without a parent is `RawDeltaSq`. */
  lemma RootDeltaSq(sqrt: real -> real, meas: Measurement, i: nat, a: Anchor, proj: (real, real), deltaSq: real)
    requires IsSqrt(sqrt) && ValidMeasurement(meas) && i < NumJoints && a == JointAnchor(i) && a.parent.None?
    requires proj == ProjectToSphere(sqrt, meas.joints[i].x, meas.joints[i].y, 0.0, 0.0, a.radius)
    requires deltaSq == a.radius * a.radius - (proj.0 * proj.0 + proj.1 * proj.1)
    ensures deltaSq == RawDeltaSq(sqrt, meas, i)
  {
  }

  /** The `deltaSq` the loop body computes for a joint with a parent is `RawDeltaSq`. */
  lemma ChildDeltaSq(sqrt: real -> real, meas: Measurement, i: nat, a: Anchor, px: real, py: real,
                     proj: (real, real), dx: real, dy: real, deltaSq: real)
    requires IsSqrt(sqrt) && ValidMeasurement(meas) && i < NumJoints && a == JointAnchor(i) && a.parent.Some?
    requires px == meas.joints[a.parent.value].x && py == meas.joints[a.parent.value].y
    requires proj == ProjectToSphere(sqrt, meas.joints[i].x, meas.joints[i].y, px, py, a.radius)
    requires dx == proj.0 - px && dy == proj.1 - py && deltaSq == a.radius * a.radius - (dx * dx + dy * dy)
    ensures deltaSq == RawDeltaSq(sqrt, meas, i)
  {
  }

  /** After `k` steps, a joint not yet visited still has its input value, and a visited
      joint keeps the value it was given when visited. */
  lemma {:induction false} TransitionUpToFrame(sqrt: real -> real, meas: Measurement, state: Vector, k: nat)
    requires IsSqrt(sqrt) && ValidMeasurement(meas) && NumJoints <= |state| && k <= |Order|
    ensures forall j :: 0 <= j < |state| && (j >= NumJoints || OrderPosition(j) >= k) ==>
      TransitionUpTo(sqrt, meas, state, k)[j] == state[j]
    ensures forall j :: 0 <= j < NumJoints && OrderPosition(j) < k ==>
      TransitionUpTo(sqrt, meas, state, k)[j] == TransitionUpTo(sqrt, meas, state, OrderPosition(j) + 1)[j]
  {
    if k > 0 {
      TransitionUpToFrame(sqrt, meas, state, k - 1);
      OrderPositionOfOrder(k - 1);
      var s, i := TransitionUpTo(sqrt, meas, state, k - 1), Order[k - 1];
      assert TransitionUpTo(sqrt, meas, state, k) == s[i := JointStep(sqrt, meas, i, s[i], RefDepth(meas, s, i))];
    }
  }

  /** The transition in closed form: each joint's new depth is one smoothing step from its
      old depth toward its reference depth, or, for a joint with a parent, toward the
      parent's NEW depth. Entries past the 13 joints are copied. */
  lemma TransitionClosedForm(sqrt: real -> real, meas: Measurement, state: Vector, i: nat)
    requires IsSqrt(sqrt) && ValidMeasurement(meas) && NumJoints <= |state| && i < |state|
    ensures var r := Transition(sqrt, meas, state);
      r[i] == if i < NumJoints then JointStep(sqrt, meas, i, state[i], RefDepth(meas, r, i)) else state[i]
  {
    var r := Transition(sqrt, meas, state);
    TransitionUpToFrame(sqrt, meas, state, |Order|);
    if i < NumJoints {
      var t := OrderPosition(i);
      var u := TransitionUpTo(sqrt, meas, state, t);
      TransitionUpToFrame(sqrt, meas, state, t);
      assert Order[t] == i;
      assert r[i] == TransitionUpTo(sqrt, meas, state, t + 1)[i];
      ParentBeforeChild(i);
      if JointAnchor(i).parent.Some? {
        var p := JointAnchor(i).parent.value;
        assert u[p] == r[p];
      }
      assert RefDepth(meas, u, i) == RefDepth(meas, r, i);
    }
  }

  /** No joint depth moves by more than `MaxDepthStep` in one transition, and entries past
      the 13 joints are left alone. */
  lemma TransitionStepBounded(sqrt: real -> real, meas: Measurement, state: Vector)
    requires IsSqrt(sqrt) && ValidMeasurement(meas) && NumJoints <= |state|
    ensures var r := Transition(sqrt, meas, state);
      forall i :: 0 <= i < |state| ==> Abs(r[i] - state[i]) <= MaxDepthStep
  {
    var r := Transition(sqrt, meas, state);
    forall i | 0 <= i < |state|
      ensures Abs(r[i] - state[i]) <= MaxDepthStep
    {
      TransitionClosedForm(sqrt, meas, state, i);
    }
  }

  /** The image point of joint `i` lies outside its sphere's circle. */
  predicate OutsideSphere(meas: Measurement, i: nat)
    requires ValidMeasurement(meas) && i < NumJoints
  {
    AnchorOutside(meas, i, JointAnchor(i))
  }

  predicate AnchorOutside(meas: Measurement, i: nat, a: Anchor)
    requires ValidMeasurement(meas) && i < NumJoints
    requires a.parent.Some? ==> a.parent.value < NumJoints
  {
    var c := meas.joints[i];
    match a.parent
    case None => PlanarSq(c.x, c.y) > a.radius * a.radius
    case Some(p) => PlanarSq(c.x - meas.joints[p].x, c.y - meas.joints[p].y) > a.radius * a.radius
  }

  /** Over exact reals the projection keeps `deltaSq` non-negative, so `Math.max(deltaSq, 0)`
      never changes it; a point that had to be projected gives exactly 0. */
  lemma RawDeltaSqNonNegative(sqrt: real -> real, meas: Measurement, i: nat)
    requires IsSqrt(sqrt) && ValidMeasurement(meas) && i < NumJoints
    ensures 0.0 <= RawDeltaSq(sqrt, meas, i)
    ensures Max(RawDeltaSq(sqrt, meas, i), 0.0) == RawDeltaSq(sqrt, meas, i)
    ensures OutsideSphere(meas, i) ==> RawDeltaSq(sqrt, meas, i) == 0.0
  {
    AnchorDeltaSqNonNegative(sqrt, meas, i, JointAnchor(i));
  }

  lemma AnchorDeltaSqNonNegative(sqrt: real -> real, meas: Measurement, i: nat, a: Anchor)
    requires IsSqrt(sqrt) && ValidMeasurement(meas) && i < NumJoints
    requires a.parent.Some? ==> a.parent.value < NumJoints
    ensures 0.0 <= AnchorDeltaSq(sqrt, meas, i, a)
    ensures AnchorOutside(meas, i, a) ==> AnchorDeltaSq(sqrt, meas, i, a) == 0.0
  {
    if a.parent.None? {
      RootAnchorDeltaSq(sqrt, meas, i, a);
    } else {
      ChildAnchorDeltaSq(sqrt, meas, i, a);
    }
  }

  /** The case of a sphere centred on the image origin. */
  lemma RootAnchorDeltaSq(sqrt: real -> real, meas: Measurement, i: nat, a: Anchor)
    requires IsSqrt(sqrt) && ValidMeasurement(meas) && i < NumJoints && a.parent.None?
    ensures 0.0 <= AnchorDeltaSq(sqrt, meas, i, a)
    ensures AnchorOutside(meas, i, a) ==> AnchorDeltaSq(sqrt, meas, i, a) == 0.0
  {
    var c := meas.joints[i];
    var proj := ProjectToSphere(sqrt, c.x, c.y, 0.0, 0.0, a.radius);
    DiscSlack(sqrt, c.x, c.y, 0.0, 0.0, a.radius);
    assert proj.0 - 0.0 == proj.0 && proj.1 - 0.0 == proj.1;
    assert c.x - 0.0 == c.x && c.y - 0.0 == c.y;
  }

  /** The case of a sphere centred on the parent joint. */
  lemma ChildAnchorDeltaSq(sqrt: real -> real, meas: Measurement, i: nat, a: Anchor)
    requires IsSqrt(sqrt) && ValidMeasurement(meas) && i < NumJoints && a.parent.Some? && a.parent.value < NumJoints
    ensures 0.0 <= AnchorDeltaSq(sqrt, meas, i, a)
    ensures AnchorOutside(meas, i, a) ==> AnchorDeltaSq(sqrt, meas, i, a) == 0.0
  {
    var c, q := meas.joints[i], meas.joints[a.parent.value];
    DiscSlack(sqrt, c.x, c.y, q.x, q.y, a.radius);
  }

  /** The slack `r^2 - |p - c|^2` left by the projection `p` is non-negative, and 0 for a
      point that had to be projected. */
  lemma DiscSlack(sqrt: real -> real, x: real, y: real, cx: real, cy: real, r: real)
    requires IsSqrt(sqrt)
    ensures var p := ProjectToSphere(sqrt, x, y, cx, cy, r);
      var dx, dy := p.0 - cx, p.1 - cy;
      0.0 <= r * r - (dx * dx + dy * dy) &&
      (PlanarSq(x - cx, y - cy) > r * r ==> r * r - (dx * dx + dy * dy) == 0.0)
  {
    ProjectToSphereLandsInDisc(sqrt, x, y, cx, cy, r);
  }

  /** The square root of 0 is 0. */
  lemma SqrtZero(sqrt: real -> real)
    requires IsSqrt(sqrt)
    ensures sqrt(0.0) == 0.0
  {
    MulZero(sqrt(0.0), sqrt(0.0));
  }

  /** A joint whose image point lay outside its sphere is pulled toward its reference with
      weight 0.7: the prediction is the reference itself and the distance ratio is 0. */
  lemma OutsideJointPulledToReference(sqrt: real -> real, meas: Measurement, i: nat, oldZ: real, refZ: real)
    requires IsSqrt(sqrt) && ValidMeasurement(meas) && i < NumJoints && OutsideSphere(meas, i)
    ensures JointStep(sqrt, meas, i, oldZ, refZ) ==
      oldZ + ClampStep(0.3 * oldZ + 0.7 * refZ - oldZ, MaxDepthStep)
  {
    RawDeltaSqNonNegative(sqrt, meas, i);
    SqrtZero(sqrt);
    assert Predicted(sqrt, 0.0, refZ, meas.joints[i].z) == refZ;
  }

  // ---------------------------------------------------------------------------
  // hx

  /** `hx(x)`: the measurement function is the identity, returned as a copy. */
  function Hx(x: Vector): (z: Vector)
    ensures |z| == |x| && forall i :: 0 <= i < |x| ==> z[i] == x[i]
  {
    x[..]
  }

  // ---------------------------------------------------------------------------
  // The filter object

  /** `fx` with the frame's measurement fixed, as the function `numericalJacobian` differentiates. */
  function TransitionOf(sqrt: real -> real, meas: Measurement): (f: (Vector, real) --> Vector)
  {
    (v: Vector, dt: real) requires IsSqrt(sqrt) && ValidMeasurement(meas) && NumJoints <= |v| =>
      Transition(sqrt, meas, v)
  }

  /** `fx` can be differentiated numerically at every state long enough for it. */
  lemma TransitionDifferentiable(sqrt: real -> real, meas: Measurement, x: Vector, dt: real)
    requires IsSqrt(sqrt) && ValidMeasurement(meas) && NumJoints <= |x|
    ensures JacobianDefined(TransitionOf(sqrt, meas), x, dt, JacobianEpsilon)
    ensures IsMatrix(Jacobian(TransitionOf(sqrt, meas), x, dt, JacobianEpsilon), |x|, |x|)
  {
    var f := TransitionOf(sqrt, meas);
    forall j | 0 <= j < |x|
      ensures f.requires(Perturb(x, j, JacobianEpsilon), dt)
      ensures |f(x, dt)| <= |f(Perturb(x, j, JacobianEpsilon), dt)|
    {
    }
  }

  /** `I - K`, entry by entry. */
  function IdentityMinus(K: Matrix): (D: Matrix)
    requires IsMatrix(K, |K|, |K|)
    ensures IsMatrix(D, |K|, |K|)
  {
    seq(|K|, i requires 0 <= i < |K| =>
      seq(|K|, j requires 0 <= j < |K| => Identity(|K|)[i][j] - K[i][j]))
  }

  /** The Kalman gain `P (P + R)^-1`, when `P + R` can be inverted. */
  function Gain(P: Matrix, R: Matrix): (K: Result<Matrix>)
    requires 0 < |P| && IsMatrix(P, |P|, |P|) && IsMatrix(R, |P|, |P|)
    ensures K.Ok? ==> IsMatrix(K.value, |P|, |P|)
  {
    match Inverse(Add(P, R))
    case SingularMatrixError => SingularMatrixError
    case Ok(SInv) => Ok(Mul(P, SInv))
  }

  /** The covariance of `predict`, `F P F^T + Q`, is symmetric when `P` and `Q` are. */
  lemma PredictedCovarianceSymmetric(F: Matrix, P: Matrix, Q: Matrix)
    requires 0 < |F| && IsMatrix(F, |F|, |F|) && IsMatrix(P, |F|, |F|) && IsMatrix(Q, |F|, |F|)
    requires Symmetric(P) && Symmetric(Q)
    ensures Symmetric(Add(Mul(Mul(F, P), Transpose(F)), Q))
  {
    var Ft := Transpose(F);
    var M := Mul(Mul(F, P), Ft);
    SymmetricIffTransposeFixed(P);
    TransposeMul(Mul(F, P), Ft);
    TransposeInvolution(F);
    TransposeMul(F, P);
    MulAssociative(F, P, Ft);
    assert Transpose(M) == M;
    SymmetricIffTransposeFixed(M);
  }

  /** The gain of `update` solves `K (P + R) = P`. */
  lemma GainSolvesInnovation(P: Matrix, R: Matrix)
    requires 0 < |P| && IsMatrix(P, |P|, |P|) && IsMatrix(R, |P|, |P|) && Gain(P, R).Ok?
    ensures Mul(Gain(P, R).value, Add(P, R)) == P
  {
    var S := Add(P, R);
    var SInv := Inverse(S).value;
    InverseIsLeftInverse(S);
    MulAssociative(P, SInv, S);
    MulIdentityRight(P);
  }

  /** A measurement that equals the current state leaves the state where it is. */
  lemma UpdateAtStateKeepsState(K: Matrix, x: Vector)
    requires IsMatrix(K, |x|, |x|)
    ensures VecAdd(x, MatVec(K, VecSub(x, Hx(x)))) == x
  {
    var y := VecSub(x, Hx(x));
    forall i | 0 <= i < |x|
      ensures MatVec(K, y)[i] == 0.0
    {
      DotUpToZero(y, K[i], |x|);
      DotUpToCommutes(y, K[i], |x|);
    }
  }

  /** The filter: state `x`, its covariance `P`, process noise `Q`, measurement noise `R`. */
  class ExtendedKalmanFilter {
    const dimX: nat
    const dimZ: nat
    var x: Vector
    var P: Matrix
    var Q: Matrix
    var R: Matrix

    ghost predicate Valid()
      reads this
    {
      |x| == dimX && IsMatrix(P, dimX, dimX) && IsMatrix(Q, dimX, dimX) && IsMatrix(R, dimZ, dimZ)
    }

    /** Zero state, identity covariance and process noise, measurement noise `0.1 I`. */
    constructor(dimX: nat, dimZ: nat)
      requires 0 < dimZ
      ensures Valid() && this.dimX == dimX && this.dimZ == dimZ
      ensures x == seq(dimX, _ => 0.0)
      ensures P == Identity(dimX) && Q == Identity(dimX) && R == ScalarMul(Identity(dimZ), 0.1)
    {
      var I := MatIdentity(dimX);
      var Iz := MatIdentity(dimZ);
      var R0 := MatScalarMultiply(Iz, 0.1);
      this.dimX := dimX;
      this.dimZ := dimZ;
      x := seq(dimX, _ => 0.0);
      P := I;
      Q := I;
      R := R0;
    }

    /** `predict(dt)`: the state goes through `fx`; the covariance becomes `F P F^T + Q`
        with `F` the numerical Jacobian of `fx` taken at the NEW state. */
    method Predict(sqrt: real -> real, meas: Measurement, dt: real)
      requires Valid() && IsSqrt(sqrt) && ValidMeasurement(meas) && NumJoints <= dimX
      modifies this
      ensures Valid() && Q == old(Q) && R == old(R)
      ensures x == Transition(sqrt, meas, old(x))
      ensures TransitionDifferentiableAt(sqrt, meas, x, dt)
      ensures var F := Jacobian(TransitionOf(sqrt, meas), x, dt, JacobianEpsilon);
        P == Add(Mul(Mul(F, old(P)), Transpose(F)), Q)
    {
      var newX := Fx(sqrt, meas, x);
      x := newX;
      TransitionDifferentiable(sqrt, meas, x, dt);
      var F := NumericalJacobian(TransitionOf(sqrt, meas), x, dt, JacobianEpsilon);
      var Ft := MatTranspose(F);
      var FP := MatMult(F, P);
      var FPFt := MatMult(FP, Ft);
      P := MatAdd(FPFt, Q);
    }

    /** `update(z)`: with `S = P + R` and `K = P S^-1`, the state moves by `K (z - hx(x))`
        and the covariance becomes `(I - K) P`. When `S` is singular the exception leaves the
        filter unchanged; here that is a `false` result. */
    method Update(z: Vector) returns (success: bool)
      requires Valid() && 0 < dimX && dimZ == dimX && |z| == dimX
      modifies this
      ensures Valid() && Q == old(Q) && R == old(R)
      ensures success <==> Gain(old(P), R).Ok?
      ensures success ==> var K := Gain(old(P), R).value;
        x == VecAdd(old(x), MatVec(K, VecSub(z, Hx(old(x))))) && P == Mul(IdentityMinus(K), old(P))
      ensures !success ==> x == old(x) && P == old(P)
    {
      var hxVal := Hx(x);
      var y := VecSub(z, hxVal);
      var S := MatAdd(P, R);
      var SInv := MatInverse(S);
      if SInv.SingularMatrixError? {
        return false;
      }
      var K := MatMult(P, SInv.value);
      var Ky := MatVecMult(K, y);
      x := VecAdd(x, Ky);
      var I := MatIdentity(dimX);
      var IK := IdentityMinusLoop(I, K);
      P := MatMult(IK, P);
      success := true;
    }
  }

  /** `fx` can be differentiated numerically at `x`. */
  ghost predicate TransitionDifferentiableAt(sqrt: real -> real, meas: Measurement, x: Vector, dt: real)
  {
    JacobianDefined(TransitionOf(sqrt, meas), x, dt, JacobianEpsilon)
  }

  /** The loop of `update` filling `IK[i][j] = I[i][j] - K[i][j]`. */
  method IdentityMinusLoop(I: Matrix, K: Matrix) returns (IK: Matrix)
    requires 0 < |K| && IsMatrix(K, |K|, |K|) && I == Identity(|K|)
    ensures IK == IdentityMinus(K)
  {
    var n := |I|;
    IK := [];
    for i := 0 to n
      invariant |IK| == i
      invariant forall r :: 0 <= r < i ==> IK[r] == IdentityMinus(K)[r]
    {
      var row: Vector := [];
      for j := 0 to |I[0]|
        invariant |row| == j
        invariant forall c :: 0 <= c < j ==> row[c] == I[i][c] - K[i][c]
      {
        row := row + [I[i][j] - K[i][j]];
      }
      IK := IK + [row];
    }
  }
}
