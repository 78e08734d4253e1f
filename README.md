# Azure Kinect body tracking → Unity puppet, modelled in Dafny

The sample drives a humanoid Unity character from Azure Kinect body tracking. Two
components make up its logic:

- `AzureKinectTester` runs a capture loop on a background worker. Each tracking result it
  pops is copied into a fixed pool of 20 bodies. On every frame the component picks the
  tracked body whose pelvis is nearest the sensor and moves two hand targets to that
  body's hands, with Y negated.
- `PuppetAvatar` computes, once in `Start`, a rest offset for every joint that maps to a
  humanoid bone. The offset is the product of the bind rotations along the bone's parent
  chain up to `characterRootTransform`. In `LateUpdate` each such bone gets the rotation
  `offset * Inverse(offset) * sensorRotation * offset`. The root joint's bone also gets a
  position.

Modules:

- `Wrappers` holds `Option`.
- `JointIds` holds the joint indices both components use: Pelvis, HandLeft, HandRight and the joint count.
- `Geometry` holds `Vec3` with real coordinates, the squared magnitude and the (X, −Y, Z) hand mapping.
- `Rotations` holds an abstract rotation type `R` with composition, inverse and identity.
  The group laws are predicates that lemmas take as hypotheses.
- `KinectTester` holds the body pool as class `AzureKinectTester`, with its `bodies` array and counters.
- `Skeleton` holds the rig: parent links, bone transforms, bind rotations and the ancestor chain.
- `Puppet` holds class `PuppetAvatar`, with `absoluteOffsetMap` and the rotations and positions assigned to bones.

The model follows the code where it differs from the intended design:

- The closest-body scan returns −1 not only for zero bodies but also when every pelvis is
  5000 or more from the sensor. The threshold is strict.
- The capture step does not cap the count at the pool size. See Findings.
- `LateUpdate` has no "absent body" no-op. It always reads the tracker's joint rotations.
- The parent-chain walk does not fail cleanly when `characterRootTransform` is off the chain.
  It dereferences a null parent, so `Start` requires the root to be on every mapped bone's chain.

## Model

| member | source | states |
|---|---|---|
| `KinectTester.ClosestBody` | Assets/Scripts/Test/AzureKinectTester.cs:59-74 | for the running minimum's starting value `limit` (the 5000 maximum range): the result is −1 exactly when no scanned pelvis is nearer than `limit` (so −1 for zero bodies); otherwise it is an index in range, nearer than `limit`, no farther than any other body, and strictly nearer than every earlier one (ties go to the lowest index) |
| `KinectTester.AzureKinectTester.FindClosestTrackedBody` | Assets/Scripts/Test/AzureKinectTester.cs:59-74 | the loop with its running minimum returns `ClosestBody` of the published bodies' squared pelvis distances against 5000², in [−1, numOfBodies) |
| `KinectTester.ScanDependsOnOrder` | Assets/Scripts/Test/AzureKinectTester.cs:59-74 | the scan's choice depends only on how the distances compare with each other and with the starting minimum: two lists ordered alike select the same body |
| `KinectTester.SquaresOrderedAlike` | Assets/Scripts/Test/AzureKinectTester.cs:67-70 | squares of non-negative magnitudes compare with each other, and with 5000², exactly as the magnitudes compare with each other and with 5000 |
| `KinectTester.SquaredScanAgrees` | Assets/Scripts/Test/AzureKinectTester.cs:59-74 | scanning the squared pelvis distances against 5000² selects the same body as the source's scan of `magnitude` against 5000 |
| `KinectTester.AzureKinectTester.constructor` | Assets/Scripts/Test/AzureKinectTester.cs:20-26 | the pool has 20 slots, each a fresh body of 100 joints; tracking is not running and no body is published |
| `KinectTester.AzureKinectTester.PublishFrame` | Assets/Scripts/Test/AzureKinectTester.cs:104-119 | as written: a null pop changes nothing; a result sets the running flag and the count to the result's count, overwrites exactly slots [0, count) and leaves the rest; it faults exactly when the count exceeds 20, after publishing that count |
| `KinectTester.AzureKinectTester.PublishFrameCapped` | Assets/Scripts/Test/AzureKinectTester.cs:104-119 | the step with the count capped at 20: same as above, but the published count is min(count, 20), only those slots change, and the count always fits the pool |
| `KinectTester.AzureKinectTester.RunCaptureLoop` | Assets/Scripts/Test/AzureKinectTester.cs:97-121 | corrected: with each step capped at 20, after the iterations run before cancellation, the count and slots [0, count) are those of the last non-null result, and nothing changed if every pop was null; the count never exceeds the pool |
| `KinectTester.AzureKinectTester.UpdateTracker` | Assets/Scripts/Test/AzureKinectTester.cs:48-57 | corrected: when a body is selected, the right and left hand targets are that body's HandRight and HandLeft positions with Y negated; with no selection they keep their positions |
| `KinectTester.AzureKinectTester.Update` | Assets/Scripts/Test/AzureKinectTester.cs:40-46 | corrected: the hand targets move only when tracking is running, the count is positive and a body is selected |
| `KinectTester.GuardAdmitsNoSelection` | Assets/Scripts/Test/AzureKinectTester.cs:42-51 | one body whose pelvis is exactly 5000 away passes Update's guard while the scan returns −1 |
| `KinectTester.OverfullFrameFaults` | Assets/Scripts/Test/AzureKinectTester.cs:112-118 | publishing a 21-body result faults and leaves a published count of 21 in a 20-slot pool |
| `Geometry.SensorToSceneInvolution` | Assets/Scripts/Test/AzureKinectTester.cs:53-56 | negating Y twice gives back the joint position, and the mapping keeps the distance from the origin |
| `Geometry.SquareMonotone` | Assets/Scripts/Test/AzureKinectTester.cs:67 | for non-negative magnitudes, a < b exactly when a² < b², so comparing squared distances is comparing `magnitude` |
| `Rotations.RetargetedReduces` | Assets/Scripts/PuppetAvatar.cs:49 | under the group laws, ((offset · offset⁻¹) · sensor) · offset equals sensor · offset |
| `Skeleton.FirstReachExists` | Assets/Scripts/PuppetAvatar.cs:30-34 | if characterRootTransform is on the chain, the walk has a first step at which it meets it |
| `Skeleton.RestOffsetExists` | Assets/Scripts/PuppetAvatar.cs:27-35 | every bone whose parent chain reaches characterRootTransform has a rest offset |
| `Skeleton.RestOffsetUnique` | Assets/Scripts/PuppetAvatar.cs:27-35 | a bone's rest offset is determined by the rig, so running `Start` again on an unchanged bind pose stores the same offsets |
| `Skeleton.ChainProductParent` | Assets/Scripts/PuppetAvatar.cs:30-34 | assuming associativity only, the chain product from a bone is its parent's chain product followed by the bone's own bind rotation |
| `Skeleton.RestOffsetOfChild` | Assets/Scripts/PuppetAvatar.cs:27-35 | the rest offset of a bone other than characterRootTransform is some rest offset of its parent followed by the bone's bind rotation |
| `Puppet.RestOffsetWalk` | Assets/Scripts/PuppetAvatar.cs:27-34 | starting from the bone's bind rotation and left-multiplying each ancestor's bind rotation up to and including characterRootTransform gives rot(b_k) · … · rot(b_1) · rot(b_0), the chain product at the first step that reaches the root |
| `Puppet.PuppetAvatar.constructor` | Assets/Scripts/PuppetAvatar.cs:5-15 | the component holds the rig, the joint mapping and the two offsets; no rest offset exists yet |
| `Puppet.PuppetAvatar.Start` | Assets/Scripts/PuppetAvatar.cs:17-37 | the offset map has a key for joint i exactly when 0 ≤ i < 32 and the joint maps to a bone other than LastBone, and each stored value is that bone's rest offset |
| `Puppet.PuppetAvatar.LateUpdate` | Assets/Scripts/PuppetAvatar.cs:39-56 | the bones' rotations become the transfer of all 32 joints over the old rotations; positions change only at the root joint's bone; the offset map is not modified |
| `Puppet.TransferUntouched` | Assets/Scripts/PuppetAvatar.cs:43-44 | a transform that is not the bone of any mapped joint with an offset keeps its rotation |
| `Puppet.TransferWrites` | Assets/Scripts/PuppetAvatar.cs:47-49 | a processed joint's bone ends with exactly offset · offset⁻¹ · sensor · offset for that joint (in that operand order), unless a later processed joint shares the bone |
| `Puppet.TransferOverrides` | Assets/Scripts/PuppetAvatar.cs:41-50 | the transfer overrides the prior rotations with what it writes from an empty start |
| `Puppet.TransferIdempotent` | Assets/Scripts/PuppetAvatar.cs:41-55 | with unchanged offsets and sensor rotations, a second LateUpdate assigns the same rotations as the first |
| `Puppet.RootPositionOnly` | Assets/Scripts/PuppetAvatar.cs:51-54 | only the root joint's bone gets a position: the anchor plus (p.x, p.y + offsetY, p.z − offsetZ); every other position is unchanged |

## Findings

| source | as written | input that shows it | evidently intended | confidence | as-written member | corrected member |
|---|---|---|---|---|---|---|
| Assets/Scripts/Test/AzureKinectTester.cs:112-118 | the result's body count is published, then slots [0, count) are written with no cap at the 20-slot pool | a result with 21 bodies: `numOfBodies` becomes 21, then `bodies[20]` throws and ends the worker, and the next scan reads past the pool | bodies beyond the pool are dropped and the published count is min(count, 20) | not executed | `KinectTester.OverfullFrameFaults` | `KinectTester.AzureKinectTester.PublishFrameCapped` |
| Assets/Scripts/Test/AzureKinectTester.cs:42-51 | Update's guard checks only that tracking runs and the count is positive, then indexes `bodies[closestBody]` | one body with its pelvis at (5000, 0, 0): the guard passes, the scan returns −1, and `bodies[-1]` throws | skip the hand update when no body is selected | not executed | `KinectTester.GuardAdmitsNoSelection` | `KinectTester.AzureKinectTester.UpdateTracker` |

The as-written publication step is `KinectTester.AzureKinectTester.PublishFrame`. The
capture loop `RunCaptureLoop` and `Update` use the corrected members.

## Left out

- The sensor and tracker calls are not modelled: `Device.Open`, `StartCameras`,
  `GetCalibration`, `Tracker.Create`, `GetCapture`, `EnqueueCapture` and `PopResult`.
  These are foreign calls. A popped result is a parameter, either absent (timeout) or a
  sequence of body records.
- `Body.CopyFromBodyTrackingSdk` is foreign code. Copying body i overwrites slot i with the result's record.
- The worker thread is not modelled: `Task.Run`, the cancellation token and
  `OnApplicationQuit`. `RunCaptureLoop` is one sequential run of the loop. Its argument is
  the list of pop results obtained before cancellation is seen at the loop head (line 97).
  Visibility of `numOfBodies` and `bodies` across threads is not modelled.
- `using` disposal of the device, tracker, capture and frame handles is not modelled. It has no state in the model.
- `Debug.Log` and `Debug.LogWarning` are not modelled. A timed-out pop only logs.
- Floating point is not modelled. Coordinates are reals, and `Vector3.magnitude` is
  compared through its square, so no square root is taken. The `5000.0f` threshold becomes
  5000², and `KinectTester.SquaredScanAgrees` shows the choice of body is unchanged.
- Quaternion arithmetic is abstract. The group laws are hypotheses, not facts about Unity's float quaternions.
- The integer widths of `numOfBodies` (`ulong`) and `NumberOfBodies` (`uint`) are not
  modelled, and neither is the `(int)` cast in the scan. Counts are natural numbers.
- The JointId values are the Azure Kinect Body Tracking SDK's enumeration: Pelvis 0,
  HandLeft 8, HandRight 15, Count 32. `HumanBodyBones.LastBone` is 55. Neither
  enumeration is defined in the modelled files.
- `Mapper.ToHumanBodyBonesFrom` is not part of this model. It is a given total function
  from joint to bone.
- `TrackerHandler` (`kinectDevice`, source of `absoluteJointRotations`) is not part of this
  model, and neither is the `rootPosition` object. Their values are parameters of `LateUpdate`.
- `Puppet.PuppetAvatar.Start` requires every mapped joint's bone to have a transform with
  characterRootTransform on its parent chain. Otherwise the source dereferences null
  (`tran.name` or a null `tran.parent`) and throws.
- `Puppet.PuppetAvatar.LateUpdate` keeps, per transform, the last rotation and position
  assigned through `.rotation` and `.position`. The model does not capture how Unity's
  hierarchy carries a parent's change to its children's world values.
- `Puppet.PuppetAvatar.LateUpdate` reads characterRootTransform's position as a fixed
  `anchor`. The case where the root joint's bone is that transform is not modelled; there
  each call would move the anchor.
- `GetSkeletonBone(name)` is a bind rotation per transform. A name missing from the
  avatar's description is not modelled.
- `LateUpdate` before `Start` is not modelled. The offset map starts empty, while in the
  source it is still null; Unity always runs `Start` first.
