/** PuppetAvatar: rest offsets computed once from the rig's bind pose, then a per-frame
    transfer of the sensor's joint rotations onto the rig's bones. */
module Puppet {
  import opened Wrappers
  import opened Geometry
  import opened Rotations
  import opened Skeleton
  import opened JointIds

  /** The root joint, the only one that drives a position: JointId.Pelvis. */
  const RootJoint: nat := Pelvis

  /** HumanBodyBones.LastBone: Mapper's answer for a joint with no humanoid bone. */
  const LastBone: int := 55

  /** Every mapped joint's bone has a transform, and characterRootTransform lies on that
      transform's parent chain; otherwise Start dereferences a null transform. */
  ghost predicate RigReady<R>(rig: Rig<R>, mapper: int -> int)
  {
    forall i :: 0 <= i < JointCount && mapper(i) != LastBone ==>
      mapper(i) in rig.boneTransform && ReachesRoot(rig, rig.boneTransform[mapper(i)])
  }

  /** Every joint with an offset is mapped and its bone has a transform. */
  ghost predicate OffsetsFit<R>(rig: Rig<R>, mapper: int -> int, offsets: map<int, R>)
  {
    forall i :: i in offsets ==> mapper(i) != LastBone && mapper(i) in rig.boneTransform
  }

  /** LateUpdate handles joint i: it is mapped and has a rest offset. */
  predicate Processed<R>(mapper: int -> int, offsets: map<int, R>, i: int)
  {
    mapper(i) != LastBone && i in offsets
  }

  /** The walk of Start for one bone: from its transform up the parent chain to
      characterRootTransform, multiplying each ancestor's bind rotation on the left. */
  method RestOffsetWalk<R(!new)>(ops: RotationOps<R>, rig: Rig<R>, bone: TransformId) returns (absOffset: R)
    requires ReachesRoot(rig, bone)
    ensures IsRestOffset(ops, rig, bone, absOffset)
  {
    var tran := bone;
    absOffset := rig.bindRotation(tran);
    ghost var k: nat :| Ancestor(rig, bone, k) == Some(rig.root);
    ghost var steps: nat := 0;
    while tran != rig.root
      invariant steps <= k
      invariant Ancestor(rig, bone, steps) == Some(tran)
      invariant forall m :: 0 <= m < steps ==> Ancestor(rig, bone, m) != Some(rig.root)
      invariant absOffset == ChainProduct(ops, rig, bone, steps)
      decreases k - steps
    {
      AncestorNext(rig, bone, steps);
      AncestorPrefix(rig, bone, steps + 1, k);
      tran := rig.parent[tran];
      absOffset := ops.mul(rig.bindRotation(tran), absOffset);
      steps := steps + 1;
    }
    assert FirstReachesRootAt(rig, bone, steps);
  }

  /** The rotations assigned by LateUpdate's loop over joints [0, k), starting from rotations:
      each processed joint's bone transform gets its retargeted rotation, later joints
      overwriting earlier ones. */
  function TransferRotations<R(!new)>(ops: RotationOps<R>, rig: Rig<R>, mapper: int -> int, offsets: map<int, R>,
                                      sensor: seq<R>, rotations: map<TransformId, R>, k: nat): map<TransformId, R>
    requires k <= |sensor|
    requires OffsetsFit(rig, mapper, offsets)
    decreases k
  {
    if k == 0 then rotations
    else
      var done := TransferRotations(ops, rig, mapper, offsets, sensor, rotations, k - 1);
      var i := k - 1;
      if Processed(mapper, offsets, i) then
        done[rig.boneTransform[mapper(i)] := Retargeted(ops, offsets[i], sensor[i])]
      else
        done
  }

  /** The root's target position: the anchor plus the tracked root's local position, raised
      by offsetY and moved back by offsetZ. */
  function RootTarget(anchor: Vec3, p: Vec3, offsetY: real, offsetZ: real): Vec3
  {
    Add(anchor, Vec3(p.x, p.y + offsetY, p.z - offsetZ))
  }

  /** The positions after LateUpdate: only the root joint's bone moves, and only when
      the root joint is processed. */
  function TransferRootPosition<R>(rig: Rig<R>, mapper: int -> int, offsets: map<int, R>,
                                   positions: map<TransformId, Vec3>, anchor: Vec3, p: Vec3,
                                   offsetY: real, offsetZ: real): map<TransformId, Vec3>
    requires OffsetsFit(rig, mapper, offsets)
  {
    if Processed(mapper, offsets, RootJoint) then
      positions[rig.boneTransform[mapper(RootJoint)] := RootTarget(anchor, p, offsetY, offsetZ)]
    else
      positions
  }

  /** Joints LateUpdate skips leave their bones' rotations alone: a transform that is no
      processed joint's bone keeps its rotation (or keeps having none assigned). */
  lemma {:induction false} TransferUntouched<R(!new)>(ops: RotationOps<R>, rig: Rig<R>, mapper: int -> int,
                                                      offsets: map<int, R>, sensor: seq<R>,
                                                      rotations: map<TransformId, R>, k: nat, tf: TransformId)
    requires k <= |sensor|
    requires OffsetsFit(rig, mapper, offsets)
    requires forall i :: 0 <= i < k && Processed(mapper, offsets, i) ==> rig.boneTransform[mapper(i)] != tf
    ensures var after := TransferRotations(ops, rig, mapper, offsets, sensor, rotations, k);
      (tf in after <==> tf in rotations) && (tf in rotations ==> after[tf] == rotations[tf])
    decreases k
  {
    if k > 0 {
      TransferUntouched(ops, rig, mapper, offsets, sensor, rotations, k - 1, tf);
    }
  }

  /** A processed joint's bone ends with the joint's retargeted rotation, unless a later
      processed joint shares that bone. */
  lemma {:induction false} TransferWrites<R(!new)>(ops: RotationOps<R>, rig: Rig<R>, mapper: int -> int,
                                                   offsets: map<int, R>, sensor: seq<R>,
                                                   rotations: map<TransformId, R>, k: nat, i: nat)
    requires k <= |sensor|
    requires OffsetsFit(rig, mapper, offsets)
    requires i < k && Processed(mapper, offsets, i)
    requires forall j :: i < j < k && Processed(mapper, offsets, j) ==>
      rig.boneTransform[mapper(j)] != rig.boneTransform[mapper(i)]
    ensures var after := TransferRotations(ops, rig, mapper, offsets, sensor, rotations, k);
      rig.boneTransform[mapper(i)] in after &&
      after[rig.boneTransform[mapper(i)]] == Retargeted(ops, offsets[i], sensor[i])
    decreases k
  {
    if i < k - 1 {
      TransferWrites(ops, rig, mapper, offsets, sensor, rotations, k - 1, i);
    }
  }

  /** LateUpdate overrides the prior rotations with what it writes from nothing. */
  lemma {:induction false} TransferOverrides<R(!new)>(ops: RotationOps<R>, rig: Rig<R>, mapper: int -> int,
                                                      offsets: map<int, R>, sensor: seq<R>,
                                                      rotations: map<TransformId, R>, k: nat)
    requires k <= |sensor|
    requires OffsetsFit(rig, mapper, offsets)
    ensures TransferRotations(ops, rig, mapper, offsets, sensor, rotations, k) ==
      rotations + TransferRotations(ops, rig, mapper, offsets, sensor, map[], k)
    decreases k
  {
    if k == 0 {
      assert rotations + map[] == rotations;
    } else {
      TransferOverrides(ops, rig, mapper, offsets, sensor, rotations, k - 1);
    }
  }

  /** With the offsets and the sensor rotations unchanged, running the transfer a second
      time assigns the same rotations as the first. */
  lemma TransferIdempotent<R(!new)>(ops: RotationOps<R>, rig: Rig<R>, mapper: int -> int,
                                    offsets: map<int, R>, sensor: seq<R>,
                                    rotations: map<TransformId, R>)
    requires JointCount <= |sensor|
    requires OffsetsFit(rig, mapper, offsets)
    ensures var once := TransferRotations(ops, rig, mapper, offsets, sensor, rotations, JointCount);
      TransferRotations(ops, rig, mapper, offsets, sensor, once, JointCount) == once
  {
    var written := TransferRotations(ops, rig, mapper, offsets, sensor, map[], JointCount);
    var once := TransferRotations(ops, rig, mapper, offsets, sensor, rotations, JointCount);
    TransferOverrides(ops, rig, mapper, offsets, sensor, rotations, JointCount);
    TransferOverrides(ops, rig, mapper, offsets, sensor, once, JointCount);
    assert (rotations + written) + written == rotations + written;
  }

  /** Only the root joint's bone gets a position, and it is the anchor displaced by the
      tracked root position with the two configured offsets. */
  lemma RootPositionOnly<R>(rig: Rig<R>, mapper: int -> int, offsets: map<int, R>,
                            positions: map<TransformId, Vec3>, anchor: Vec3, p: Vec3,
                            offsetY: real, offsetZ: real, tf: TransformId)
    requires OffsetsFit(rig, mapper, offsets)
    ensures var after := TransferRootPosition(rig, mapper, offsets, positions, anchor, p, offsetY, offsetZ);
      (Processed(mapper, offsets, RootJoint) && tf == rig.boneTransform[mapper(RootJoint)] ==>
        tf in after && Sub(after[tf], anchor) == Vec3(p.x, p.y + offsetY, p.z - offsetZ)) &&
      (!(Processed(mapper, offsets, RootJoint) && tf == rig.boneTransform[mapper(RootJoint)]) ==>
        (tf in after <==> tf in positions) && (tf in positions ==> after[tf] == positions[tf]))
  {
  }

  class PuppetAvatar<R(!new)> {
    const ops: RotationOps<R>
    const rig: Rig<R>
    /** Mapper.ToHumanBodyBonesFrom: joint to humanoid bone, or LastBone. */
    const mapper: int -> int
    const offsetY: real
    const offsetZ: real
    var absoluteOffsetMap: map<int, R>
    /** The rotation and the position last assigned to each transform of the rig. */
    var boneRotation: map<TransformId, R>
    var bonePosition: map<TransformId, Vec3>

    ghost predicate Valid()
      reads this
    {
      OffsetsFit(rig, mapper, absoluteOffsetMap)
    }

    /** The component as the scene sets it up, before Start has run. */
    constructor (ops: RotationOps<R>, rig: Rig<R>, mapper: int -> int, offsetY: real, offsetZ: real,
                 rotations: map<TransformId, R>, positions: map<TransformId, Vec3>)
      ensures Valid()
      ensures this.ops == ops && this.rig == rig && this.mapper == mapper
      ensures this.offsetY == offsetY && this.offsetZ == offsetZ
      ensures absoluteOffsetMap == map[] && boneRotation == rotations && bonePosition == positions
    {
      this.ops, this.rig, this.mapper := ops, rig, mapper;
      this.offsetY, this.offsetZ := offsetY, offsetZ;
      absoluteOffsetMap := map[];
      boneRotation, bonePosition := rotations, positions;
    }

    /** Computes the rest offset of every mapped joint. */
    method Start()
      requires RigReady(rig, mapper)
      modifies this`absoluteOffsetMap
      ensures Valid()
      ensures forall i :: i in absoluteOffsetMap <==> 0 <= i < JointCount && mapper(i) != LastBone
      ensures forall i :: i in absoluteOffsetMap ==>
        IsRestOffset(ops, rig, rig.boneTransform[mapper(i)], absoluteOffsetMap[i])
    {
      absoluteOffsetMap := map[];
      var i := 0;
      while i < JointCount
        invariant 0 <= i <= JointCount
        invariant OffsetsFit(rig, mapper, absoluteOffsetMap)
        invariant forall j :: j in absoluteOffsetMap <==> 0 <= j < i && mapper(j) != LastBone
        invariant forall j :: j in absoluteOffsetMap ==>
          IsRestOffset(ops, rig, rig.boneTransform[mapper(j)], absoluteOffsetMap[j])
      {
        var hbb := mapper(i);
        if hbb != LastBone {
          var tran := rig.boneTransform[hbb];
          var absOffset := RestOffsetWalk(ops, rig, tran);
          absoluteOffsetMap := absoluteOffsetMap[i := absOffset];
        }
        i := i + 1;
      }
    }

    /** Per frame: every processed joint's bone gets the rotation
        offset * Inverse(offset) * sensorRotation * offset, and the root joint's bone also
        gets a position. absoluteJointRotations are the sensor's absolute joint rotations,
        rootLocalPosition is the tracked root's local position and anchor is
        characterRootTransform's position. */
    method LateUpdate(absoluteJointRotations: seq<R>, rootLocalPosition: Vec3, anchor: Vec3)
      requires Valid()
      requires |absoluteJointRotations| == JointCount
      modifies this`boneRotation, this`bonePosition
      ensures absoluteOffsetMap == old(absoluteOffsetMap)
      ensures boneRotation == TransferRotations(ops, rig, mapper, absoluteOffsetMap,
        absoluteJointRotations, old(boneRotation), JointCount)
      ensures bonePosition == TransferRootPosition(rig, mapper, absoluteOffsetMap,
        old(bonePosition), anchor, rootLocalPosition, offsetY, offsetZ)
    {
      var i := 0;
      while i < JointCount
        invariant 0 <= i <= JointCount
        invariant boneRotation == TransferRotations(ops, rig, mapper, absoluteOffsetMap,
          absoluteJointRotations, old(boneRotation), i)
        invariant bonePosition == if i == 0 then old(bonePosition) else
          TransferRootPosition(rig, mapper, absoluteOffsetMap, old(bonePosition), anchor,
            rootLocalPosition, offsetY, offsetZ)
      {
        var hbb := mapper(i);
        if hbb != LastBone && i in absoluteOffsetMap {
          var absOffset := absoluteOffsetMap[i];
          var finalJoint := rig.boneTransform[hbb];
          boneRotation := boneRotation[finalJoint :=
            ops.mul(ops.mul(ops.mul(absOffset, ops.inv(absOffset)), absoluteJointRotations[i]), absOffset)];
          if i == RootJoint {
            var p := rootLocalPosition;
            bonePosition := bonePosition[finalJoint := Add(anchor, Vec3(p.x, p.y + offsetY, p.z - offsetZ))];
          }
        }
        i := i + 1;
      }
    }
  }
}
