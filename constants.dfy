/** The kinematic tables: canonical bone lengths (metres), the landmark mapping,
    the parent-before-child traversal order and the bone list used for drawing. */
module Constants {

  const R1: real := 0.19   // right wrist to right elbow
  const R2: real := 0.21   // right elbow to right shoulder
  const R3: real := 0.53   // right shoulder to right hip
  const R4: real := 0.19   // left wrist to left elbow
  const R5: real := 0.21   // left elbow to left shoulder
  const R6: real := 0.53   // left shoulder to left hip
  const R7: real := 0.40   // right hip to right knee
  const R8: real := 0.32   // right knee to right ankle
  const R9: real := 0.40   // left hip to left knee
  const R10: real := 0.32  // left knee to left ankle
  const R11: real := 0.11  // half the pelvis width: each hip to the pelvis centre

  /** Internal joints: 0 face, 1/2 left/right shoulder, 3/4 elbow, 5/6 wrist,
      7/8 hip, 9/10 knee, 11/12 ankle. */
  const NumJoints: nat := 13
  const LeftHip: nat := 7
  const RightHip: nat := 8

  /** Number of landmarks the pose estimator reports per frame. */
  const NumLandmarks: nat := 33

  /** `Mapping[i]` is the pose-landmark index of internal joint `i`. */
  const Mapping: seq<nat> := [0, 11, 12, 13, 14, 15, 16, 23, 24, 25, 26, 27, 28]

  /** Parent-before-child order in which the depth transition visits the joints. */
  const Order: seq<nat> := [0, 7, 8, 1, 9, 3, 11, 5, 2, 10, 4, 12, 6]

  /** Bones drawn by the renderer, as pairs of internal joint indices. */
  const ConnectionsInternal: seq<(nat, nat)> :=
    [(6, 4), (4, 2), (2, 1), (1, 3), (3, 5), (2, 8),
     (1, 7), (8, 7), (8, 10), (7, 9), (10, 12), (9, 11)]

  /** `s` lists every joint index exactly once. */
  predicate IsJointPermutation(s: seq<nat>)
  {
    && |s| == NumJoints
    && (forall k :: 0 <= k < |s| ==> s[k] < NumJoints)
    && (forall k, l :: 0 <= k < l < |s| ==> s[k] != s[l])
  }

  /** Position of joint `j` in `Order`. */
  function OrderPosition(j: nat): (k: nat)
    requires j < NumJoints
    ensures k < |Order| && Order[k] == j
  {
    match j
    case 0 => 0
    case 7 => 1
    case 8 => 2
    case 1 => 3
    case 9 => 4
    case 3 => 5
    case 11 => 6
    case 5 => 7
    case 2 => 8
    case 10 => 9
    case 4 => 10
    case 12 => 11
    case 6 => 12
  }

  lemma OrderIsPermutation()
    ensures IsJointPermutation(Order)
    ensures forall j :: 0 <= j < NumJoints ==> j in Order
  {
    forall j | 0 <= j < NumJoints
      ensures j in Order
    {
      var _ := OrderPosition(j);
    }
  }

  lemma MappingIsValid()
    ensures |Mapping| == NumJoints
    ensures forall i :: 0 <= i < |Mapping| ==> Mapping[i] < NumLandmarks
    ensures forall i, j :: 0 <= i < j < |Mapping| ==> Mapping[i] != Mapping[j]
  {
  }

  lemma ConnectionsInRange()
    ensures |ConnectionsInternal| == 12
    ensures forall k :: 0 <= k < |ConnectionsInternal| ==>
      ConnectionsInternal[k].0 < NumJoints && ConnectionsInternal[k].1 < NumJoints
  {
  }

  lemma BoneLengthsPositiveAndSymmetric()
    ensures 0.0 < R1 && 0.0 < R2 && 0.0 < R3 && 0.0 < R4 && 0.0 < R5 && 0.0 < R6
    ensures 0.0 < R7 && 0.0 < R8 && 0.0 < R9 && 0.0 < R10 && 0.0 < R11
    ensures R1 == R4 && R2 == R5 && R3 == R6 && R7 == R9 && R8 == R10
  {
  }
}
