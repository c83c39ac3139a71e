# WebPose3D kinematic depth filter, in Dafny

WebPose3D lifts a 2-D body pose into 3-D. Each frame gives 13 body joints: the face,
shoulders, elbows, wrists, hips, knees and ankles. Two parts of the engine fix up the
depth of those joints. This project models both, together with their matrix kernel and
their kinematic tables, and proves what each part promises.

- **Depth filter.** The state transition `fx` makes one pass over the joints in parent-first
  order. It projects each joint's image point into the disc its bone length allows around
  its parent. The depth the bone can still take is then blended toward the parent's
  already-updated depth, moving at most 0.05 per call. An extended Kalman filter runs `fx`
  in `predict` and uses an identity measurement in `update`.
- **Forward-kinematics remapper** (`computeRemappedPositions`). It places the two hips `r11`
  either side of their measured midpoint. It then walks the kinematic tree and puts every
  other joint at its canonical bone length from its already placed parent, along the
  measured bone direction.

Files:

- `numeric.dfy`: absolute value, `Math.sign`, `Math.max`, 3-D points, and the facts about
  square roots that the rest uses.
- `constants.dfy`: the bone lengths `r1`–`r11`, `mapping`, `order`, `connectionsInternal`
  and their table facts.
- `mathutils.dfy`: the matrix kernel.
  - Each loop-filled operation is a method proved equal to a specification function.
  - Gauss-Jordan inversion runs in place on an `array` of rows. It is proved equal to a
    functional elimination that fails exactly where the original throws. Its result is
    proved to be a left inverse.
  - The forward-difference Jacobian.
- `kalmanfilter.dfy`: `projectToSphere`, `smoothTransition`, `fx` as a loop over `Order`
  proved equal to the specification `Transition`, `hx`, and the class
  `ExtendedKalmanFilter` with fields `x`, `P`, `Q`, `R`.
- `skeletonmapping.dfy`: the remapper. It allocates an array of optional points, writes the
  hips and then every other joint in ascending key order. It is proved equal to the
  specification `Remapped`, which is shown to be idempotent.

`Math.sqrt` is a parameter `sqrt` of every member that needs it, constrained by
`IsSqrt(sqrt)`: the exact non-negative square root on non-negative arguments. `fx` reads
the current measurement from a module global in the original. Here the measurement is an
explicit parameter `meas`, so `fx` and its Jacobian are ordinary functions of their
arguments.

## Model

| member | source | states |
|---|---|---|
| Numeric.Sign | js/kalmanfilter.js:22 | `Math.sign`: the result is -1, 0 or 1, is 0 exactly at 0, and `sign(x)·x = abs(x)` |
| Numeric.Max | js/kalmanfilter.js:81-86 | `Math.max(a, b)` is at least both arguments and equals one of them |
| Constants.OrderPosition | js/constants.js:24 | every joint 0..12 occurs in `order`, at the returned position |
| Constants.OrderIsPermutation | js/constants.js:24 | `order` is a permutation of 0..12 |
| Constants.MappingIsValid | js/constants.js:20 | `mapping` has 13 distinct entries, each a pose-landmark index below 33 |
| Constants.ConnectionsInRange | js/constants.js:28-41 | `connectionsInternal` has 12 pairs, all joint indices below 13 |
| Constants.BoneLengthsPositiveAndSymmetric | js/constants.js:2-12 | every bone length is positive; left and right lengths match: r1=r4, r2=r5, r3=r6, r7=r9, r8=r10 |
| MathUtils.Lerp | js/mathutils.js:2-4 | `lerp` gives `a` at t = 0 and `b` at t = 1 |
| MathUtils.LerpBetween | js/mathutils.js:2-4 | for t in [0, 1] the result lies between `a` and `b` |
| MathUtils.MatIdentity | js/mathutils.js:6-15 | an n×n matrix with 1 exactly on the diagonal and 0 elsewhere |
| MathUtils.MatAdd | js/mathutils.js:17-27 | the shape of `A`, entrywise `A[i][j] + B[i][j]` |
| MathUtils.MatMult | js/mathutils.js:29-43 | an m×p matrix whose entry (i, j) is row i of `A` dotted with column j of `B` |
| MathUtils.MulIdentityLeft | js/mathutils.js:29-43 | the identity is a left unit of the product |
| MathUtils.MulIdentityRight | js/mathutils.js:29-43 | the identity is a right unit of the product |
| MathUtils.MulAssociative | js/mathutils.js:29-43 | the product is associative: (AB)C = A(BC) |
| MathUtils.MatTranspose | js/mathutils.js:45-55 | an n×m matrix with `T[i][j] = A[j][i]` |
| MathUtils.TransposeInvolution | js/mathutils.js:45-55 | transposing twice gives back `A` |
| MathUtils.TransposeMul | js/mathutils.js:29-55 | the transpose of a product is the product of the transposes in reverse order |
| MathUtils.SymmetricIffTransposeFixed | js/mathutils.js:45-55 | a square matrix is symmetric exactly when it equals its transpose |
| MathUtils.MatScalarMultiply | js/mathutils.js:57-67 | the shape of `A`, entrywise `A[i][j]·scalar` |
| MathUtils.VecAdd | js/mathutils.js:69-71 | `vecAdd` maps over its first argument, so the result has that argument's length |
| MathUtils.VecSub | js/mathutils.js:73-75 | `vecSubtract` maps over its first argument, so the result has that argument's length |
| MathUtils.VecSubAddRoundTrip | js/mathutils.js:69-75 | `vecAdd` and `vecSubtract` undo each other; the output has the first argument's length |
| MathUtils.MatVecMult | js/mathutils.js:77-88 | a vector of length m whose entry i is row i of `M` dotted with `v` |
| MathUtils.FindSwapRowSkipsSmall | js/mathutils.js:103-106 | the swap scan stops at the first row below whose entry in column i has magnitude at least 1e-10, and runs off the end exactly when every such entry is smaller |
| MathUtils.PivotRow | js/mathutils.js:101-106 | the pivot row is row i itself or a row below it; a row below is chosen only when `abs(M[i][i]) < 1e-10`; the chosen entry has magnitude at least 1e-10 |
| MathUtils.PivotRowMissingIff | js/mathutils.js:101-107 | no pivot row exists exactly when the diagonal entry and every entry below it in column i are under 1e-10 |
| MathUtils.PivotStepFailsIff | js/mathutils.js:100-109 | a Gauss-Jordan step raises the singular-matrix error exactly when its column vanishes from the diagonal down |
| MathUtils.BringPivotUp | js/mathutils.js:110-113 | after the row swap the pivot has magnitude at least 1e-10, so the normalising division is never by a sub-threshold value |
| MathUtils.SwapInPivot | js/mathutils.js:101-113 | in place: reports failure exactly when the column vanishes, and then leaves the array unchanged; otherwise the array becomes the matrix with the pivot row swapped up |
| MathUtils.DivideRow | js/mathutils.js:115-117 | in place: row i is divided by the pivot and no other row changes |
| MathUtils.SubtractRowMultiple | js/mathutils.js:120-123 | in place: `factor` times row i is subtracted from row k and no other row changes |
| MathUtils.EliminateInPlace | js/mathutils.js:118-125 | in place: column i is cleared from every row but the pivot row |
| MathUtils.AugmentedCopy | js/mathutils.js:93-99 | a fresh array holding A with the identity appended to each row; `A` itself is a value and is never changed |
| MathUtils.RightHalfOf | js/mathutils.js:127-131 | the right n columns of the augmented matrix |
| MathUtils.ReduceFromKeeps | js/mathutils.js:100-126 | the elimination keeps every augmented row consistent (its right half times A is its left half) and the reduced columns unit columns |
| MathUtils.InverseIsLeftInverse | js/mathutils.js:90-132 | a successful inverse satisfies `inv·A = I` |
| MathUtils.MatInverse | js/mathutils.js:90-132 | the in-place elimination equals the functional Gauss-Jordan `Inverse`, which fails exactly where a column vanishes; on success the result is n×n and `inv·A = I` |
| MathUtils.Perturb | js/mathutils.js:143-144 | the perturbed input differs from `x` only at j, by epsilon |
| MathUtils.NumericalJacobian | js/mathutils.js:134-150 | a matrix with one row per output of f and one column per input with `J[i][j] = (f(x + ε·e_j)[i] − f(x)[i]) / ε` for the given ε ≠ 0; callers pass the default 1e-5 |
| MathUtils.JacobianOfLinearMap | js/mathutils.js:134-150 | for a linear map `v ↦ M·v` the forward difference gives back `M` exactly |
| KalmanFilter.ProjectToSphere | js/kalmanfilter.js:7-17 | the result lies within r of the centre, and a point already inside comes back unchanged |
| KalmanFilter.ProjectToSphereLandsInDisc | js/kalmanfilter.js:10-15 | a point outside lands exactly at distance r, on the same line through the centre and, for r ≥ 0, on the same side |
| KalmanFilter.DistanceRatio | js/kalmanfilter.js:23 | the ratio `abs(ref)/√deltaSq` is non-negative and is 0 when deltaSq = 0 |
| KalmanFilter.BlendWeight | js/kalmanfilter.js:24 | α lies strictly between 0 and 1 |
| KalmanFilter.BlendWeightMonotone | js/kalmanfilter.js:24 | a larger ratio never gives a larger α (0.3, then 0.1, then 0.01) |
| KalmanFilter.PredictedOffset | js/kalmanfilter.js:22 | the predicted value is `√deltaSq` from `ref`, on the joint's side of it, and is `ref` itself when joint = ref |
| KalmanFilter.SmoothTargetBetween | js/kalmanfilter.js:25 | the blended value lies between the current and the predicted value |
| KalmanFilter.SmoothTransition | js/kalmanfilter.js:20-30 | deltaSq < 0 returns `refValue`; for deltaSq ≥ 0 and maxStep ≥ 0 the change is at most maxStep |
| KalmanFilter.SmoothTransitionTowardTarget | js/kalmanfilter.js:26-29 | the clamped value moves from the current value toward the blended value, and reaches it when it is within maxStep |
| KalmanFilter.JointAnchor | js/kalmanfilter.js:48-76 | the parent/radius chain of `fx`: joints 0, 7, 8 and indices past 12 have no parent; any other joint's parent is another joint; the radius is positive exactly for the 13 joints |
| KalmanFilter.ParentBeforeChild | js/constants.js:22-24 | in `order` every parent of the `fx` table comes before its child; every radius is positive; exactly joints 0, 7, 8 have no parent |
| KalmanFilter.Fx | js/kalmanfilter.js:39-92 | the loop over `order`, overwriting a copy of the state, equals `Transition` |
| KalmanFilter.UpdateJoint | js/kalmanfilter.js:42-89 | one loop iteration replaces entry i only, with the joint's smoothed depth |
| KalmanFilter.TransitionUpToFrame | js/kalmanfilter.js:40-90 | after k visits, unvisited entries still hold the input and visited entries keep the value written at their visit |
| KalmanFilter.TransitionClosedForm | js/kalmanfilter.js:77-89 | each output depth is the joint's smoothing step from its own input depth toward its reference, and a child's reference is its parent's output depth, already updated |
| KalmanFilter.TransitionStepBounded | js/kalmanfilter.js:40-92 | every output component is within 0.05 of the input component |
| KalmanFilter.RawDeltaSqNonNegative | js/kalmanfilter.js:78-88 | `deltaSq` is never negative, so `Math.max(deltaSq, 0)` does not change it; it is 0 for a point that had to be projected |
| KalmanFilter.OutsideJointPulledToReference | js/kalmanfilter.js:77-89 | a joint projected onto its circle gets ratio 0 and α = 0.3, so it moves toward its reference by the clamped `0.7·(ref − old)` |
| KalmanFilter.Hx | js/kalmanfilter.js:95-97 | `hx` is a copy of the state |
| KalmanFilter.TransitionDifferentiable | js/kalmanfilter.js:109-111 | the Jacobian of `fx` is defined at every state and is square |
| KalmanFilter.ExtendedKalmanFilter.constructor | js/kalmanfilter.js:101-108 | `x` is the zero vector of length dim_x, `P = Q = I`, `R = 0.1·I` |
| KalmanFilter.ExtendedKalmanFilter.Predict | js/kalmanfilter.js:109-114 | `x := fx(x)`, then `P := F·P·Fᵀ + Q` with F the Jacobian taken at the new x; Q and R unchanged |
| KalmanFilter.ExtendedKalmanFilter.Update | js/kalmanfilter.js:115-131 | succeeds exactly when Gauss-Jordan on `P + R` finds a pivot of magnitude at least 1e-10 in every column, and success implies `P + R` has a left inverse; then `x := x + K(z − hx(x))` and `P := (I − K)·P` with `K = P·(P + R)⁻¹`; otherwise x and P are unchanged |
| KalmanFilter.IdentityMinusLoop | js/kalmanfilter.js:122-129 | the nested loops build `I − K` entrywise |
| KalmanFilter.PredictedCovarianceSymmetric | js/kalmanfilter.js:113 | with P and Q symmetric, `F·P·Fᵀ + Q` is symmetric |
| KalmanFilter.GainSolvesInnovation | js/kalmanfilter.js:118-120 | the gain satisfies `K·(P + R) = P` |
| KalmanFilter.UpdateAtStateKeepsState | js/kalmanfilter.js:116-121 | a measurement equal to the state leaves `x` where it is, whatever the gain |
| SkeletonMapping.KinMap | js/skeletonmapping.js:5-19 | the table has exactly the keys 0..12; each parent is a joint and its bone length is positive; roots have length 0 |
| SkeletonMapping.KinMapMatchesAnchors | js/skeletonmapping.js:9-18 | joint by joint, the remapper's parents and lengths are the `fx` parents and radii |
| SkeletonMapping.BonesAreDrawn | js/skeletonmapping.js:9-18 | every parent–child edge of the table is drawn in `connectionsInternal` |
| SkeletonMapping.VisitOrderIsKeyOrder | js/skeletonmapping.js:52-54 | the visit order ascends and holds exactly the table keys other than the hips |
| SkeletonMapping.ParentVisitedFirst | js/skeletonmapping.js:52-61 | every visited joint's parent is a hip or was visited earlier |
| SkeletonMapping.ParentPlacedFirst | js/skeletonmapping.js:55-61 | when a child is visited its parent's slot is already set to its final value, so the fallback to the measured parent is never taken |
| SkeletonMapping.HipPair | js/skeletonmapping.js:29-49 | the hips are placed at `centre ∓ unit·r11` |
| SkeletonMapping.PlaceJointAt | js/skeletonmapping.js:56-78 | in place: slot idx gets the joint's new position and no other slot changes |
| SkeletonMapping.PlaceAll | js/skeletonmapping.js:40-79 | the array filled hips first and then in visit order equals the sweep `RemapUpTo` |
| SkeletonMapping.ComputeRemappedPositions | js/skeletonmapping.js:4-81 | the result is `Remapped`: the input when a hip is missing, else the hip step followed by the sweep |
| SkeletonMapping.RemapUpToFrame | js/skeletonmapping.js:55-79 | after k visits, an unvisited slot still holds what the hip step left, and a visited slot keeps the value written at its visit |
| SkeletonMapping.SweptJoint | js/skeletonmapping.js:55-79 | each non-hip joint ends with the position placed at its visit |
| SkeletonMapping.SweptHipsHeadAndTail | js/skeletonmapping.js:40-79 | the sweep keeps both hips, copies the head, and leaves every slot past the 13 joints empty |
| SkeletonMapping.RemappedHipsHeadAndTail | js/skeletonmapping.js:24-81 | a missing hip returns the input unchanged; otherwise the hips are the placed pair, the head is the measured head, and the slots past the 13 joints are empty |
| SkeletonMapping.SweptBone | js/skeletonmapping.js:60-76 | a bone shorter than 1e-6 collapses the child onto its remapped parent; otherwise the child sits at `parent + d·(length/mag)`, at exactly the bone length from the parent and in the measured direction |
| SkeletonMapping.HipAxisIsUnit | js/skeletonmapping.js:34-39 | the hip axis has unit length |
| SkeletonMapping.HipsSymmetric | js/skeletonmapping.js:29-49 | the hips are symmetric about the measured midpoint, each `r11` from it and `2·r11` apart |
| SkeletonMapping.FallbackAxis | js/skeletonmapping.js:37-39 | hips measured under 1e-6 apart give the axis (1, 0, 0) |
| SkeletonMapping.HipsFallbackAxis | js/skeletonmapping.js:37-49 | in that case the right hip is `2·r11` from the left along x |
| SkeletonMapping.HipsAlongAxis | js/skeletonmapping.js:34-49 | otherwise the right hip is from the left along the measured hip direction, by a positive multiple of it |
| SkeletonMapping.CanonicalHips | js/skeletonmapping.js:29-49 | hips measured exactly `2·r11` apart are placed where they are |
| SkeletonMapping.SettledJoint | js/skeletonmapping.js:60-76 | a joint already at its bone length from a parent left in place is placed where it is |
| SkeletonMapping.SettledIsFixed | js/skeletonmapping.js:29-78 | a pose with hips `2·r11` apart and every bone at its canonical length comes back unchanged |
| SkeletonMapping.SweepIsSettled | js/skeletonmapping.js:55-79 | with the hips `2·r11` apart, after the sweep every bone has its canonical length or a collapsed child |
| SkeletonMapping.RemappedIsSettled | js/skeletonmapping.js:24-81 | every remapped pose is settled |
| SkeletonMapping.RemapIdempotent | js/skeletonmapping.js:4-81 | remapping twice gives the same as remapping once |

## Left out

- `Math.sqrt` is not modelled as a function. Every member that needs it takes a parameter
  `sqrt` with `IsSqrt(sqrt)`, which requires the exact non-negative square root.
- Floating point is not modelled. All numbers are exact reals: no rounding, NaN or
  Infinity. The thresholds 1e-10, 1e-6 and 1e-5 are compared exactly.
- js/posehandler.js, js/main.js and js/uicontrols.js are not part of this model. They hold
  DOM and A-Frame output, camera and MediaPipe wiring, and the control panel. The
  module-level filter object that posehandler.js creates lazily is left out with them.
- The commented-out `clampPositions` in js/skeletonmapping.js:83-127 is not modelled.
  It is dead code.
- `fx` ignores `dt`. `Predict` takes it only to pass it to the Jacobian, as the original does.
- KalmanFilter.ExtendedKalmanFilter.Predict: requires `NumJoints <= dimX` and a measurement
  of 13 joints, because `fx` reads and writes state entries 0..12.
- KalmanFilter.ExtendedKalmanFilter.Update: the thrown "Matrix is singular" error becomes
  `success == false`. The filter's state is then left as it was, as the throw leaves it.
  `dimZ == dimX` and `|z| == dimX` are required, because `P + R` and `z − hx(x)` are
  only defined for those shapes. `0 < dimX` is required, because `matAdd` reads the first
  row. Success is not the same as `P + R` being invertible: an invertible `P + R` whose
  elimination meets a column with every candidate pivot under 1e-10 also fails, as in the
  original.
- KalmanFilter.ExtendedKalmanFilter.constructor: requires `0 < dimZ`, because
  `matScalarMultiply` reads the first row of the identity.
- MathUtils.MatInverse: only `inv·A = I` is proved. `A·inv = I` is not stated.
- MathUtils.VecSubAddRoundTrip: `vecAdd` and `vecSubtract` are required to get a second
  argument at least as long as the first. The original would read `undefined` and
  produce NaN.
- Matrices are required to be rectangular (`IsMatrix`) wherever the original reads
  `A[0].length` as every row's length.
- SkeletonMapping.ComputeRemappedPositions: requires every joint 0..12 to be present once
  both hips are. In the original a missing child or parent throws on `.x`, and a missing
  head is copied as `{}`. Neither case is modelled.
- The remapper's output array holes become `None`. Points carry only `x`, `y` and `z`,
  so the extra fields a landmark object may have are not modelled.
