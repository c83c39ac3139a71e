/** `computeRemappedPositions`, the forward-kinematics remapper. The hips are placed `R11`
    either side of their measured midpoint. Every other joint is then put at its canonical
    bone length from its already placed parent, along the measured bone direction. */
module SkeletonMapping {
  import opened Numeric
  import opened Constants
  import KalmanFilter

  /** Below this magnitude a measured direction is treated as zero. */
  const DirectionEpsilon: real := 0.000001

  /** One entry of the kinematic table: the parent joint (none for a root) and the bone length. */
  datatype Bone = Bone(parent: Option<nat>, length: real)

  /** The table `kinMap`; a joint it does not list has no entry. Every parent is a joint,
      and every bone below a parent has a positive length. */
  function KinMap(j: nat): (b: Option<Bone>)
    ensures b.Some? <==> j < NumJoints
    ensures b.Some? && b.value.parent.Some? ==> b.value.parent.value < NumJoints && 0.0 < b.value.length
    ensures b.Some? && b.value.parent.None? ==> b.value.length == 0.0
  {
    match j
    case 0 => Some(Bone(None, 0.0))
    case 7 => Some(Bone(None, 0.0))
    case 8 => Some(Bone(None, 0.0))
    case 1 => Some(Bone(Some(7), R6))
    case 9 => Some(Bone(Some(7), R9))
    case 3 => Some(Bone(Some(1), R5))
    case 11 => Some(Bone(Some(9), R10))
    case 5 => Some(Bone(Some(3), R4))
    case 2 => Some(Bone(Some(8), R3))
    case 10 => Some(Bone(Some(8), R7))
    case 4 => Some(Bone(Some(2), R2))
    case 12 => Some(Bone(Some(10), R8))
    case 6 => Some(Bone(Some(4), R1))
    case _ => None
  }

  /** `Object.keys(kinMap)` without the hips. Integer keys enumerate in ascending order,
      whatever order the table is written in. */
  const VisitOrder: seq<nat> := [0, 1, 2, 3, 4, 5, 6, 9, 10, 11, 12]

  /** Where joint `j` comes in `VisitOrder`. */
  function VisitPosition(j: nat): (k: nat)
    requires j < NumJoints && j != LeftHip && j != RightHip
    ensures k < |VisitOrder| && VisitOrder[k] == j
  {
    if j < LeftHip then j else j - 2
  }

  /** The visit order is the ascending list of the table's keys other than the hips. */
  lemma VisitOrderIsKeyOrder()
    ensures forall a, b :: 0 <= a < b < |VisitOrder| ==> VisitOrder[a] < VisitOrder[b]
    ensures forall j: nat :: j in VisitOrder <==> KinMap(j).Some? && j != LeftHip && j != RightHip
  {
    forall j: nat | KinMap(j).Some? && j != LeftHip && j != RightHip
      ensures j in VisitOrder
    {
      var _ := VisitPosition(j);
    }
  }

  /** Every parent is a hip or is visited earlier, so the remapped parent is always there
      when its child is placed. */
  lemma ParentVisitedFirst(k: nat)
    requires k < |VisitOrder|
    requires KinMap(VisitOrder[k]).value.parent.Some?
    ensures var p := KinMap(VisitOrder[k]).value.parent.value;
      p == LeftHip || p == RightHip || (p != LeftHip && p != RightHip && VisitPosition(p) < k)
  {
  }

  /** The table gives every joint the parent and bone length the depth filter uses; the
      roots, which the filter anchors at `R11`, have length 0 here. */
  lemma KinMapMatchesAnchors(j: nat)
    requires j < NumJoints
    ensures KinMap(j).value.parent == KalmanFilter.JointAnchor(j).parent
    ensures KinMap(j).value.parent.Some? ==> KinMap(j).value.length == KalmanFilter.JointAnchor(j).radius
  {
  }

  /** Every bone of the table is one of the bones the renderer draws. */
  lemma BonesAreDrawn(j: nat)
    requires j < NumJoints && KinMap(j).value.parent.Some?
    ensures var p := KinMap(j).value.parent.value;
      (j, p) in ConnectionsInternal || (p, j) in ConnectionsInternal
  {
  }

  // ---------------------------------------------------------------------------
  // Specification

  /** Both hips were measured. */
  predicate HipsPresent(m: seq<Option<Point3>>)
  {
    RightHip < |m| && m[LeftHip].Some? && m[RightHip].Some?
  }

  /** All thirteen joints were measured. */
  predicate Complete(m: seq<Option<Point3>>)
  {
    NumJoints <= |m| && forall j :: 0 <= j < NumJoints ==> m[j].Some?
  }

  /** What the remapper needs: once both hips are there, every joint is. */
  predicate Remappable(m: seq<Option<Point3>>)
  {
    HipsPresent(m) ==> Complete(m)
  }

  function Midpoint(l: Point3, r: Point3): Point3
  {
    Point3((l.x + r.x) / 2.0, (l.y + r.y) / 2.0, (l.z + r.z) / 2.0)
  }

  /** The direction from the left to the right hip, or the x axis when they nearly coincide. */
  function HipAxis(sqrt: real -> real, l: Point3, r: Point3): Point3
  {
    var d := Minus(r, l);
    var dMag := sqrt(NormSq(d));
    if dMag < DirectionEpsilon then Point3(1.0, 0.0, 0.0)
    else Point3(d.x / dMag, d.y / dMag, d.z / dMag)
  }

  function LeftHipPlaced(sqrt: real -> real, l: Point3, r: Point3): Point3
  {
    Minus(Midpoint(l, r), Scaled(HipAxis(sqrt, l, r), R11))
  }

  function RightHipPlaced(sqrt: real -> real, l: Point3, r: Point3): Point3
  {
    Plus(Midpoint(l, r), Scaled(HipAxis(sqrt, l, r), R11))
  }

  /** The output after the hip step: `n` slots, empty but for the two placed hips. */
  function Hipped(n: nat, lh: Point3, rh: Point3): (out: seq<Option<Point3>>)
    ensures |out| == n
  {
    seq(n, i => if i == LeftHip then Some(lh) else if i == RightHip then Some(rh) else None)
  }

  /** The new position of joint `j` given the output `out` built so far: a root is copied;
      a child goes from its placed parent (or, failing that, the measured one) along the
      measured bone, rescaled to the bone's length, or onto the parent when that bone is
      shorter than `DirectionEpsilon`. */
  function PlaceJoint(sqrt: real -> real, m: seq<Option<Point3>>, out: seq<Option<Point3>>, j: nat): (r: Option<Point3>)
    requires Complete(m) && |out| == |m| && j < NumJoints
    ensures r.Some?
  {
    match KinMap(j).value.parent
    case None => m[j]
    case Some(p) =>
      var parentPos := if out[p].Some? then out[p].value else m[p].value;
      var d := Minus(m[j].value, m[p].value);
      var mag := sqrt(NormSq(d));
      if mag < DirectionEpsilon then Some(parentPos)
      else Some(Plus(parentPos, Scaled(d, KinMap(j).value.length / mag)))
  }

  /** The output once the hips are at `lh` and `rh` and the first `k` joints of the visit
      order have been placed. */
  function RemapUpTo(sqrt: real -> real, m: seq<Option<Point3>>, lh: Point3, rh: Point3, k: nat): (out: seq<Option<Point3>>)
    requires Complete(m) && k <= |VisitOrder|
    ensures |out| == |m|
  {
    if k == 0 then Hipped(|m|, lh, rh)
    else
      var s := RemapUpTo(sqrt, m, lh, rh, k - 1);
      s[VisitOrder[k - 1] := PlaceJoint(sqrt, m, s, VisitOrder[k - 1])]
  }

  /** `computeRemappedPositions`: the input itself when a hip is missing. */
  function Remapped(sqrt: real -> real, m: seq<Option<Point3>>): (out: seq<Option<Point3>>)
    requires Remappable(m)
    ensures |out| == |m|
  {
    if HipsPresent(m) then
      var l, r := m[LeftHip].value, m[RightHip].value;
      RemapUpTo(sqrt, m, LeftHipPlaced(sqrt, l, r), RightHipPlaced(sqrt, l, r), |VisitOrder|)
    else m
  }

  // ---------------------------------------------------------------------------
  // The remapper

  method ComputeRemappedPositions(sqrt: real -> real, measured: seq<Option<Point3>>)
    returns (remapped: seq<Option<Point3>>)
    requires Remappable(measured)
    ensures remapped == Remapped(sqrt, measured)
  {
    if !(RightHip < |measured| && measured[LeftHip].Some? && measured[RightHip].Some?) {
      return measured;
    }
    var lh, rh := HipPair(sqrt, measured[LeftHip].value, measured[RightHip].value);
    remapped := PlaceAll(sqrt, measured, lh, rh);
  }

  /** Step 1's arithmetic: midpoint, hip axis with its fallback, and the two hips. */
  method HipPair(sqrt: real -> real, l: Point3, r: Point3) returns (lh: Point3, rh: Point3)
    ensures lh == LeftHipPlaced(sqrt, l, r) && rh == RightHipPlaced(sqrt, l, r)
  {
    var center := Point3((l.x + r.x) / 2.0, (l.y + r.y) / 2.0, (l.z + r.z) / 2.0);
    var d := Minus(r, l);
    var dMag := sqrt(NormSq(d));
    if dMag < DirectionEpsilon {
      d, dMag := Point3(1.0, 0.0, 0.0), 1.0;
    }
    var unit := Point3(d.x / dMag, d.y / dMag, d.z / dMag);
    assert center == Midpoint(l, r) && unit == HipAxis(sqrt, l, r);
    lh := Minus(center, Scaled(unit, R11));
    rh := Plus(center, Scaled(unit, R11));
  }

  /** The output array: the hips stored first, then every joint of the visit order placed
      from its parent's slot. */
  method PlaceAll(sqrt: real -> real, measured: seq<Option<Point3>>, lh: Point3, rh: Point3)
    returns (remapped: seq<Option<Point3>>)
    requires Complete(measured)
    ensures remapped == RemapUpTo(sqrt, measured, lh, rh, |VisitOrder|)
  {
    var out := new Option<Point3>[|measured|](_ => None);
    out[LeftHip] := Some(lh);
    out[RightHip] := Some(rh);
    forall i | 0 <= i < out.Length
      ensures out[i] == Hipped(|measured|, lh, rh)[i]
    {
    }
    var i := 0;
    while i < |VisitOrder|
      invariant 0 <= i <= |VisitOrder|
      invariant out[..] == RemapUpTo(sqrt, measured, lh, rh, i)
    {
      PlaceJointAt(sqrt, measured, out, VisitOrder[i]);
      RemapUpToNext(sqrt, measured, lh, rh, i);
      i := i + 1;
    }
    remapped := out[..];
  }

  lemma RemapUpToNext(sqrt: real -> real, m: seq<Option<Point3>>, lh: Point3, rh: Point3, k: nat)
    requires Complete(m) && k < |VisitOrder|
    ensures var s := RemapUpTo(sqrt, m, lh, rh, k);
      RemapUpTo(sqrt, m, lh, rh, k + 1) == s[VisitOrder[k] := PlaceJoint(sqrt, m, s, VisitOrder[k])]
  {
  }

  /** One pass of the loop: writes the new position of joint `idx`. */
  method PlaceJointAt(sqrt: real -> real, measured: seq<Option<Point3>>, out: array<Option<Point3>>, idx: nat)
    requires Complete(measured) && out.Length == |measured| && idx < NumJoints
    modifies out
    ensures out[..] == old(out[..])[idx := PlaceJoint(sqrt, measured, old(out[..]), idx)]
  {
    var bone := KinMap(idx).value;
    if bone.parent.None? {
      out[idx] := measured[idx];
    } else {
      var parentIdx := bone.parent.value;
      var parentPos := if out[parentIdx].Some? then out[parentIdx].value else measured[parentIdx].value;
      var child, parent := measured[idx].value, measured[parentIdx].value;
      var d := Minus(child, parent);
      var mag := sqrt(NormSq(d));
      if mag < DirectionEpsilon {
        out[idx] := Some(parentPos);
      } else {
        var scale := bone.length / mag;
        out[idx] := Some(Plus(parentPos, Scaled(d, scale)));
      }
    }
  }

  // ---------------------------------------------------------------------------
  // Properties of the sweep, for any hip placement

  lemma VisitPositionOfVisit(k: nat)
    requires k < |VisitOrder|
    ensures VisitOrder[k] < NumJoints && VisitOrder[k] != LeftHip && VisitOrder[k] != RightHip
    ensures VisitPosition(VisitOrder[k]) == k
  {
  }

  /** Joint `j` is among the first `k` of the visit order. */
  predicate VisitedBefore(j: nat, k: nat)
  {
    j < NumJoints && j != LeftHip && j != RightHip && VisitPosition(j) < k
  }

  /** Each slot is written once: an unvisited slot still holds what the hip step left there,
      a visited one what its own visit wrote. */
  lemma {:induction false} RemapUpToFrame(sqrt: real -> real, m: seq<Option<Point3>>, lh: Point3, rh: Point3, k: nat, j: nat)
    requires Complete(m) && k <= |VisitOrder| && j < |m|
    ensures !VisitedBefore(j, k) ==> RemapUpTo(sqrt, m, lh, rh, k)[j] == Hipped(|m|, lh, rh)[j]
    ensures VisitedBefore(j, k) ==>
      RemapUpTo(sqrt, m, lh, rh, k)[j] == RemapUpTo(sqrt, m, lh, rh, VisitPosition(j) + 1)[j]
  {
    if k > 0 {
      RemapUpToFrame(sqrt, m, lh, rh, k - 1, j);
      VisitPositionOfVisit(k - 1);
    }
  }

  /** When a joint is placed, its parent's slot already holds the parent's final position,
      so the fallback to the measured parent is never taken. */
  lemma ParentPlacedFirst(sqrt: real -> real, m: seq<Option<Point3>>, lh: Point3, rh: Point3, k: nat)
    requires Complete(m) && k < |VisitOrder|
    requires KinMap(VisitOrder[k]).value.parent.Some?
    ensures var p := KinMap(VisitOrder[k]).value.parent.value;
      && RemapUpTo(sqrt, m, lh, rh, k)[p].Some?
      && RemapUpTo(sqrt, m, lh, rh, k)[p] == RemapUpTo(sqrt, m, lh, rh, |VisitOrder|)[p]
  {
    var p := KinMap(VisitOrder[k]).value.parent.value;
    ParentVisitedFirst(k);
    RemapUpToFrame(sqrt, m, lh, rh, k, p);
    RemapUpToFrame(sqrt, m, lh, rh, |VisitOrder|, p);
    if VisitedBefore(p, k) {
      RemapUpToNext(sqrt, m, lh, rh, VisitPosition(p));
    }
  }

  /** The final slot of a non-hip joint is what its visit wrote. */
  lemma SweptJoint(sqrt: real -> real, m: seq<Option<Point3>>, lh: Point3, rh: Point3, j: nat)
    requires Complete(m) && j < NumJoints && j != LeftHip && j != RightHip
    ensures RemapUpTo(sqrt, m, lh, rh, |VisitOrder|)[j]
      == PlaceJoint(sqrt, m, RemapUpTo(sqrt, m, lh, rh, VisitPosition(j)), j)
  {
    RemapUpToFrame(sqrt, m, lh, rh, |VisitOrder|, j);
    RemapUpToNext(sqrt, m, lh, rh, VisitPosition(j));
  }

  /** The hips, the head and the slots past the thirteen joints after the sweep. */
  lemma SweptHipsHeadAndTail(sqrt: real -> real, m: seq<Option<Point3>>, lh: Point3, rh: Point3)
    requires Complete(m)
    ensures var out := RemapUpTo(sqrt, m, lh, rh, |VisitOrder|);
      && out[LeftHip] == Some(lh) && out[RightHip] == Some(rh)
      && out[0] == m[0]
      && forall j :: NumJoints <= j < |m| ==> out[j].None?
  {
    RemapUpToFrame(sqrt, m, lh, rh, |VisitOrder|, LeftHip);
    RemapUpToFrame(sqrt, m, lh, rh, |VisitOrder|, RightHip);
    SweptJoint(sqrt, m, lh, rh, 0);
    forall j | NumJoints <= j < |m|
      ensures RemapUpTo(sqrt, m, lh, rh, |VisitOrder|)[j].None?
    {
      RemapUpToFrame(sqrt, m, lh, rh, |VisitOrder|, j);
    }
  }

  /** A bone after the sweep: rescaled to its canonical length along the measured direction,
      or collapsed onto its parent when the measured bone is shorter than `DirectionEpsilon`. */
  lemma SweptBone(sqrt: real -> real, m: seq<Option<Point3>>, lh: Point3, rh: Point3, j: nat)
    requires IsSqrt(sqrt) && Complete(m)
    requires j < NumJoints && KinMap(j).value.parent.Some?
    ensures var p, len := KinMap(j).value.parent.value, KinMap(j).value.length;
      var out, d := RemapUpTo(sqrt, m, lh, rh, |VisitOrder|), Minus(m[j].value, m[p].value);
      var mag := sqrt(NormSq(d));
      && out[j].Some? && out[p].Some?
      && (mag < DirectionEpsilon ==> out[j] == out[p])
      && (DirectionEpsilon <= mag ==>
            && 0.0 < len / mag
            && Minus(out[j].value, out[p].value) == Scaled(d, len / mag)
            && NormSq(Minus(out[j].value, out[p].value)) == len * len)
  {
    var p, len := KinMap(j).value.parent.value, KinMap(j).value.length;
    var d := Minus(m[j].value, m[p].value);
    var mag := sqrt(NormSq(d));
    var k := VisitPosition(j);
    ParentPlacedFirst(sqrt, m, lh, rh, k);
    SweptJoint(sqrt, m, lh, rh, j);
    if DirectionEpsilon <= mag {
      assert 0.0 <= mag * mag == NormSq(d);
      RescaledLength(d, mag, len);
    }
  }

  /** Rescaling a vector of length `mag` by `len / mag` gives length `len`. */
  lemma RescaledLength(d: Point3, mag: real, len: real)
    requires 0.0 < mag && mag * mag == NormSq(d) && 0.0 < len
    ensures 0.0 < len / mag && NormSq(Scaled(d, len / mag)) == len * len
  {
    var q := len / mag;
    NormSqScaled(d, q);
    assert q * mag == len;
    assert (q * q) * (mag * mag) == (q * mag) * (q * mag);
  }

  // ---------------------------------------------------------------------------
  // The hip step

  /** The hip axis has unit length. */
  lemma HipAxisIsUnit(sqrt: real -> real, l: Point3, r: Point3)
    requires IsSqrt(sqrt)
    ensures NormSq(HipAxis(sqrt, l, r)) == 1.0
  {
    var d := Minus(r, l);
    var dMag := sqrt(NormSq(d));
    if DirectionEpsilon <= dMag {
      var q := 1.0 / dMag;
      assert HipAxis(sqrt, l, r) == Scaled(d, q);
      NormSqScaled(d, q);
      assert q * dMag == 1.0;
      assert (q * q) * (dMag * dMag) == (q * dMag) * (q * dMag);
    }
  }

  /** Two points `R11` either side of `c` along `u`. */
  lemma SymmetricPair(c: Point3, u: Point3, lh: Point3, rh: Point3)
    requires lh == Minus(c, Scaled(u, R11)) && rh == Plus(c, Scaled(u, R11))
    ensures Midpoint(lh, rh) == c
    ensures Minus(lh, c) == Scaled(u, -R11) && Minus(rh, c) == Scaled(u, R11)
    ensures Minus(rh, lh) == Scaled(u, 2.0 * R11)
  {
  }

  /** The same pair when `u` has unit length: `R11` from `c` and `2 R11` apart. */
  lemma UnitPair(c: Point3, u: Point3, lh: Point3, rh: Point3)
    requires NormSq(u) == 1.0
    requires lh == Minus(c, Scaled(u, R11)) && rh == Plus(c, Scaled(u, R11))
    ensures NormSq(Minus(lh, c)) == R11 * R11 && NormSq(Minus(rh, c)) == R11 * R11
    ensures NormSq(Minus(rh, lh)) == (2.0 * R11) * (2.0 * R11)
  {
    SymmetricPair(c, u, lh, rh);
    NormSqScaled(u, R11);
    NormSqScaled(u, -R11);
    NormSqScaled(u, 2.0 * R11);
  }

  /** The hip step: the hips are symmetric about the measured midpoint, `R11` from it and
      `2 R11` apart. */
  lemma HipsSymmetric(sqrt: real -> real, l: Point3, r: Point3)
    requires IsSqrt(sqrt)
    ensures var lh, rh, c := LeftHipPlaced(sqrt, l, r), RightHipPlaced(sqrt, l, r), Midpoint(l, r);
      && Midpoint(lh, rh) == c
      && NormSq(Minus(lh, c)) == R11 * R11 && NormSq(Minus(rh, c)) == R11 * R11
      && NormSq(Minus(rh, lh)) == (2.0 * R11) * (2.0 * R11)
  {
    var u, c := HipAxis(sqrt, l, r), Midpoint(l, r);
    HipAxisIsUnit(sqrt, l, r);
    SymmetricPair(c, u, LeftHipPlaced(sqrt, l, r), RightHipPlaced(sqrt, l, r));
    UnitPair(c, u, LeftHipPlaced(sqrt, l, r), RightHipPlaced(sqrt, l, r));
  }

  /** When the measured hips nearly coincide, the hip axis falls back to x. */
  lemma FallbackAxis(sqrt: real -> real, l: Point3, r: Point3)
    requires sqrt(NormSq(Minus(r, l))) < DirectionEpsilon
    ensures HipAxis(sqrt, l, r) == Point3(1.0, 0.0, 0.0)
  {
  }

  /** ... and the hips are then placed `2 R11` apart along x. */
  lemma HipsFallbackAxis(sqrt: real -> real, l: Point3, r: Point3)
    requires sqrt(NormSq(Minus(r, l))) < DirectionEpsilon
    ensures Minus(RightHipPlaced(sqrt, l, r), LeftHipPlaced(sqrt, l, r)) == Point3(2.0 * R11, 0.0, 0.0)
  {
    FallbackAxis(sqrt, l, r);
  }

  /** Otherwise they are placed along the measured hip axis, in its direction. */
  lemma HipsAlongAxis(sqrt: real -> real, l: Point3, r: Point3)
    requires DirectionEpsilon <= sqrt(NormSq(Minus(r, l)))
    ensures var d := Minus(r, l);
      Minus(RightHipPlaced(sqrt, l, r), LeftHipPlaced(sqrt, l, r)) == Scaled(d, 2.0 * R11 / sqrt(NormSq(d)))
    ensures 0.0 < 2.0 * R11 / sqrt(NormSq(Minus(r, l)))
  {
    var d, u := Minus(r, l), HipAxis(sqrt, l, r);
    var dMag := sqrt(NormSq(d));
    assert u == Point3(d.x / dMag, d.y / dMag, d.z / dMag);
    SymmetricPair(Midpoint(l, r), u, LeftHipPlaced(sqrt, l, r), RightHipPlaced(sqrt, l, r));
    AxisRescaled(d, dMag, u);
  }

  lemma AxisRescaled(d: Point3, dMag: real, u: Point3)
    requires dMag != 0.0 && u == Point3(d.x / dMag, d.y / dMag, d.z / dMag)
    ensures Scaled(u, 2.0 * R11) == Scaled(d, 2.0 * R11 / dMag)
  {
  }

  // ---------------------------------------------------------------------------
  // What `computeRemappedPositions` promises

  /** With a hip missing the input comes back untouched; otherwise the hips are placed by
      the hip step, the head is copied, and the slots past the thirteen joints stay empty. */
  lemma RemappedHipsHeadAndTail(sqrt: real -> real, m: seq<Option<Point3>>)
    requires Remappable(m)
    ensures !HipsPresent(m) ==> Remapped(sqrt, m) == m
    ensures HipsPresent(m) ==>
      var l, r, out := m[LeftHip].value, m[RightHip].value, Remapped(sqrt, m);
      && out[LeftHip] == Some(LeftHipPlaced(sqrt, l, r))
      && out[RightHip] == Some(RightHipPlaced(sqrt, l, r))
      && out[0] == m[0]
      && forall j :: NumJoints <= j < |m| ==> out[j].None?
  {
    if HipsPresent(m) {
      var l, r := m[LeftHip].value, m[RightHip].value;
      SweptHipsHeadAndTail(sqrt, m, LeftHipPlaced(sqrt, l, r), RightHipPlaced(sqrt, l, r));
    }
  }

  // ---------------------------------------------------------------------------
  // Idempotence

  /** The bone above joint `j` has its canonical length, or has collapsed onto its parent. */
  predicate BoneSettled(m: seq<Option<Point3>>, j: nat)
    requires Complete(m) && j < NumJoints && KinMap(j).value.parent.Some?
  {
    var p, len := KinMap(j).value.parent.value, KinMap(j).value.length;
    m[j] == m[p] || NormSq(Minus(m[j].value, m[p].value)) == len * len
  }

  /** A pose the remapper leaves alone: all joints present, the hips `2 R11` apart, every
      bone settled, and nothing past the thirteen joints. */
  predicate Settled(m: seq<Option<Point3>>)
  {
    && Complete(m)
    && NormSq(Minus(m[RightHip].value, m[LeftHip].value)) == (2.0 * R11) * (2.0 * R11)
    && (forall j :: 0 <= j < NumJoints && KinMap(j).value.parent.Some? ==> BoneSettled(m, j))
    && (forall j :: NumJoints <= j < |m| ==> m[j].None?)
  }

  /** Hips already `2 R11` apart are placed where they are. */
  lemma CanonicalHips(sqrt: real -> real, l: Point3, r: Point3)
    requires IsSqrt(sqrt)
    requires NormSq(Minus(r, l)) == (2.0 * R11) * (2.0 * R11)
    ensures LeftHipPlaced(sqrt, l, r) == l && RightHipPlaced(sqrt, l, r) == r
  {
    var d := Minus(r, l);
    SqrtOfSquare(sqrt, 2.0 * R11);
    assert sqrt(NormSq(d)) == 2.0 * R11;
    assert HipAxis(sqrt, l, r) == Point3(d.x / (2.0 * R11), d.y / (2.0 * R11), d.z / (2.0 * R11));
    CanonicalPair(l, r, HipAxis(sqrt, l, r));
  }

  lemma CanonicalPair(l: Point3, r: Point3, u: Point3)
    requires u == Point3((r.x - l.x) / (2.0 * R11), (r.y - l.y) / (2.0 * R11), (r.z - l.z) / (2.0 * R11))
    ensures Minus(Midpoint(l, r), Scaled(u, R11)) == l && Plus(Midpoint(l, r), Scaled(u, R11)) == r
  {
  }

  /** A settled joint whose parent's slot holds the parent's own position is placed where it is. */
  lemma SettledJoint(sqrt: real -> real, m: seq<Option<Point3>>, s: seq<Option<Point3>>, j: nat)
    requires IsSqrt(sqrt) && Settled(m) && |s| == |m| && j < NumJoints
    requires KinMap(j).value.parent.Some? ==> s[KinMap(j).value.parent.value] == m[KinMap(j).value.parent.value]
    ensures PlaceJoint(sqrt, m, s, j) == m[j]
  {
    if KinMap(j).value.parent.Some? {
      var p, len := KinMap(j).value.parent.value, KinMap(j).value.length;
      var d := Minus(m[j].value, m[p].value);
      assert BoneSettled(m, j);
      if m[j] == m[p] {
        assert d == Point3(0.0, 0.0, 0.0);
        SqrtOfSquare(sqrt, 0.0);
        assert sqrt(NormSq(d)) == 0.0;
      } else {
        SqrtOfSquare(sqrt, len);
        assert sqrt(NormSq(d)) == len;
        UnitRescale(m[p].value, m[j].value, len);
      }
    }
  }

  lemma UnitRescale(a: Point3, b: Point3, len: real)
    requires len != 0.0
    ensures Plus(a, Scaled(Minus(b, a), len / len)) == b
  {
    assert len / len == 1.0;
  }

  /** Slot `i` is a hip, lies past the thirteen joints, or was visited among the first `k`. */
  predicate Covered(i: nat, k: nat)
  {
    i == LeftHip || i == RightHip || NumJoints <= i || VisitedBefore(i, k)
  }

  /** Writing a slot's own value at visit `k` extends agreement from the first `k` visits
      to the first `k + 1`. */
  lemma CoveredStep(m: seq<Option<Point3>>, s: seq<Option<Point3>>, k: nat, x: Option<Point3>)
    requires |s| == |m| && k < |VisitOrder| && VisitOrder[k] < |m| && x == m[VisitOrder[k]]
    requires forall i :: 0 <= i < |m| && Covered(i, k) ==> s[i] == m[i]
    ensures forall i :: 0 <= i < |m| && Covered(i, k + 1) ==> s[VisitOrder[k] := x][i] == m[i]
  {
    VisitPositionOfVisit(k);
  }

  /** Every joint is placed where it is as soon as its parent's slot holds the parent's
      own position. */
  ghost predicate JointsFixed(sqrt: real -> real, m: seq<Option<Point3>>)
    requires Complete(m)
  {
    forall s: seq<Option<Point3>>, j: nat | |s| == |m| && j < NumJoints &&
      (KinMap(j).value.parent.Some? ==> s[KinMap(j).value.parent.value] == m[KinMap(j).value.parent.value]) ::
      PlaceJoint(sqrt, m, s, j) == m[j]
  }

  lemma SettledJointsFixed(sqrt: real -> real, m: seq<Option<Point3>>)
    requires IsSqrt(sqrt) && Settled(m)
    ensures JointsFixed(sqrt, m)
  {
    forall s: seq<Option<Point3>>, j: nat | |s| == |m| && j < NumJoints &&
      (KinMap(j).value.parent.Some? ==> s[KinMap(j).value.parent.value] == m[KinMap(j).value.parent.value])
      ensures PlaceJoint(sqrt, m, s, j) == m[j]
    {
      SettledJoint(sqrt, m, s, j);
    }
  }

  /** When every joint is fixed, the sweep with the hips left where they are changes
      nothing it visits. */
  lemma {:induction false} FixedSweep(sqrt: real -> real, m: seq<Option<Point3>>, k: nat)
    requires Complete(m) && JointsFixed(sqrt, m) && k <= |VisitOrder|
    requires forall j :: NumJoints <= j < |m| ==> m[j].None?
    ensures forall i :: 0 <= i < |m| && Covered(i, k) ==>
      RemapUpTo(sqrt, m, m[LeftHip].value, m[RightHip].value, k)[i] == m[i]
  {
    var lh, rh := m[LeftHip].value, m[RightHip].value;
    if k > 0 {
      FixedSweep(sqrt, m, k - 1);
      var v, s := VisitOrder[k - 1], RemapUpTo(sqrt, m, lh, rh, k - 1);
      if KinMap(v).value.parent.Some? {
        ParentVisitedFirst(k - 1);
      }
      assert PlaceJoint(sqrt, m, s, v) == m[v];
      RemapUpToNext(sqrt, m, lh, rh, k - 1);
      CoveredStep(m, s, k - 1, PlaceJoint(sqrt, m, s, v));
    }
  }

  /** The sweep leaves a settled pose unchanged when the hips are left where they are. */
  lemma SettledSweepFixed(sqrt: real -> real, m: seq<Option<Point3>>)
    requires IsSqrt(sqrt) && Settled(m)
    ensures RemapUpTo(sqrt, m, m[LeftHip].value, m[RightHip].value, |VisitOrder|) == m
  {
    SettledJointsFixed(sqrt, m);
    FixedSweep(sqrt, m, |VisitOrder|);
    forall i | 0 <= i < |m|
      ensures Covered(i, |VisitOrder|)
    {
      if i < NumJoints && i != LeftHip && i != RightHip {
        var _ := VisitPosition(i);
      }
    }
  }

  /** A settled pose is a fixed point of the remapper. */
  lemma SettledIsFixed(sqrt: real -> real, m: seq<Option<Point3>>)
    requires IsSqrt(sqrt) && Settled(m)
    ensures Remappable(m) && Remapped(sqrt, m) == m
  {
    CanonicalHips(sqrt, m[LeftHip].value, m[RightHip].value);
    SettledSweepFixed(sqrt, m);
  }

  /** Whatever the hips, if they end up `2 R11` apart the sweep produces a settled pose. */
  lemma SweepIsSettled(sqrt: real -> real, m: seq<Option<Point3>>, lh: Point3, rh: Point3)
    requires IsSqrt(sqrt) && Complete(m)
    requires NormSq(Minus(rh, lh)) == (2.0 * R11) * (2.0 * R11)
    ensures Settled(RemapUpTo(sqrt, m, lh, rh, |VisitOrder|))
  {
    var out := RemapUpTo(sqrt, m, lh, rh, |VisitOrder|);
    SweptHipsHeadAndTail(sqrt, m, lh, rh);
    forall j | 0 <= j < NumJoints
      ensures out[j].Some?
    {
      if j != LeftHip && j != RightHip {
        SweptJoint(sqrt, m, lh, rh, j);
      }
    }
    forall j | 0 <= j < NumJoints && KinMap(j).value.parent.Some?
      ensures BoneSettled(out, j)
    {
      SweptBone(sqrt, m, lh, rh, j);
    }
  }

  /** The remapper's output is settled. */
  lemma RemappedIsSettled(sqrt: real -> real, m: seq<Option<Point3>>)
    requires IsSqrt(sqrt) && HipsPresent(m) && Complete(m)
    ensures Settled(Remapped(sqrt, m))
  {
    var l, r := m[LeftHip].value, m[RightHip].value;
    HipsSymmetric(sqrt, l, r);
    SweepIsSettled(sqrt, m, LeftHipPlaced(sqrt, l, r), RightHipPlaced(sqrt, l, r));
  }

  /** Remapping twice is remapping once. */
  lemma RemapIdempotent(sqrt: real -> real, m: seq<Option<Point3>>)
    requires IsSqrt(sqrt) && Remappable(m)
    ensures Remappable(Remapped(sqrt, m))
    ensures Remapped(sqrt, Remapped(sqrt, m)) == Remapped(sqrt, m)
  {
    if HipsPresent(m) {
      RemappedIsSettled(sqrt, m);
      SettledIsFixed(sqrt, Remapped(sqrt, m));
    }
  }
}
