/** The target rig as PuppetAvatar reads it through Unity's Animator and Transform:
    parent links, the transform of each humanoid bone, bind-pose rotations, and the
    configured characterRootTransform. */
module Skeleton {
  import opened Wrappers
  import opened Rotations

  /** A transform of the rig, by identity. */
  type TransformId = nat

  /** parent: Transform.parent (absent: a null parent).
      boneTransform: Animator.GetBoneTransform for a HumanBodyBones value (absent: null).
      bindRotation: GetSkeletonBone(transform.name).rotation.
      root: characterRootTransform. */
  datatype Rig<R> = Rig(
    parent: map<TransformId, TransformId>,
    boneTransform: map<int, TransformId>,
    bindRotation: TransformId -> R,
    root: TransformId)

  /** The k-th transform up the parent chain from t (t itself for k = 0), or None once a
      null parent has been passed. */
  function Ancestor<R>(rig: Rig<R>, t: TransformId, k: nat): Option<TransformId>
    decreases k
  {
    if k == 0 then Some(t)
    else if t in rig.parent then Ancestor(rig, rig.parent[t], k - 1)
    else None
  }

  /** Taking one more step up the chain follows the parent link of the current transform. */
  lemma {:induction false} AncestorNext<R>(rig: Rig<R>, t: TransformId, k: nat)
    requires Ancestor(rig, t, k).Some?
    ensures Ancestor(rig, t, k + 1) ==
      var a := Ancestor(rig, t, k).value;
      if a in rig.parent then Some(rig.parent[a]) else None
    decreases k
  {
    if k > 0 {
      AncestorNext(rig, rig.parent[t], k - 1);
    }
  }

  /** A chain that reaches k steps up passes through every shorter step. */
  lemma {:induction false} AncestorPrefix<R>(rig: Rig<R>, t: TransformId, j: nat, k: nat)
    requires j <= k && Ancestor(rig, t, k).Some?
    ensures Ancestor(rig, t, j).Some?
    decreases j
  {
    if j > 0 {
      AncestorPrefix(rig, rig.parent[t], j - 1, k - 1);
    }
  }

  /** characterRootTransform lies on t's ancestor chain, t included. */
  ghost predicate ReachesRoot<R>(rig: Rig<R>, t: TransformId)
  {
    exists k: nat :: Ancestor(rig, t, k) == Some(rig.root)
  }

  /** The walk from t first meets characterRootTransform after n steps. */
  ghost predicate FirstReachesRootAt<R>(rig: Rig<R>, t: TransformId, n: nat)
  {
    Ancestor(rig, t, n) == Some(rig.root) &&
    forall m :: 0 <= m < n ==> Ancestor(rig, t, m) != Some(rig.root)
  }

  /** When the root is on the chain, the walk has a first meeting with it. */
  lemma {:induction false} FirstReachExists<R>(rig: Rig<R>, t: TransformId, k: nat)
    requires Ancestor(rig, t, k) == Some(rig.root)
    ensures exists n: nat :: n <= k && FirstReachesRootAt(rig, t, n)
  {
    if exists m: nat :: m < k && Ancestor(rig, t, m) == Some(rig.root) {
      var m: nat :| m < k && Ancestor(rig, t, m) == Some(rig.root);
      FirstReachExists(rig, t, m);
    } else {
      assert FirstReachesRootAt(rig, t, k);
    }
  }

  /** bindRotation(b_n) * ... * bindRotation(b_1) * bindRotation(b_0) for b_i the i-th
      ancestor of t: each ancestor multiplies on the left of what is below it. */
  function ChainProduct<R(!new)>(ops: RotationOps<R>, rig: Rig<R>, t: TransformId, n: nat): R
    requires Ancestor(rig, t, n).Some?
    decreases n
  {
    if n == 0 then rig.bindRotation(t)
    else
      AncestorPrefix(rig, t, n - 1, n);
      ops.mul(rig.bindRotation(Ancestor(rig, t, n).value), ChainProduct(ops, rig, t, n - 1))
  }

  /** q is the rest offset of t: the chain product up to and including the first time the
      walk meets characterRootTransform. */
  ghost predicate IsRestOffset<R(!new)>(ops: RotationOps<R>, rig: Rig<R>, t: TransformId, q: R)
  {
    exists n: nat :: FirstReachesRootAt(rig, t, n) && q == ChainProduct(ops, rig, t, n)
  }

  /** Every transform whose chain reaches characterRootTransform has a rest offset. */
  lemma RestOffsetExists<R(!new)>(ops: RotationOps<R>, rig: Rig<R>, t: TransformId)
    requires ReachesRoot(rig, t)
    ensures exists q :: IsRestOffset(ops, rig, t, q)
  {
    var k: nat :| Ancestor(rig, t, k) == Some(rig.root);
    FirstReachExists(rig, t, k);
    var n: nat :| n <= k && FirstReachesRootAt(rig, t, n);
    assert IsRestOffset(ops, rig, t, ChainProduct(ops, rig, t, n));
  }

  /** The rest offset is determined by the rig: two offsets of the same transform agree. */
  lemma RestOffsetUnique<R(!new)>(ops: RotationOps<R>, rig: Rig<R>, t: TransformId, q1: R, q2: R)
    requires IsRestOffset(ops, rig, t, q1) && IsRestOffset(ops, rig, t, q2)
    ensures q1 == q2
  {
  }

  /** Regrouping the chain product: it is the parent's chain product followed by t's own
      bind rotation (needs only associativity). */
  lemma {:induction false} ChainProductParent<R(!new)>(ops: RotationOps<R>, rig: Rig<R>, t: TransformId, n: nat)
    requires ops.Associative()
    requires 1 <= n && Ancestor(rig, t, n).Some?
    ensures t in rig.parent
    ensures Ancestor(rig, rig.parent[t], n - 1).Some?
    ensures ChainProduct(ops, rig, t, n) ==
      ops.mul(ChainProduct(ops, rig, rig.parent[t], n - 1), rig.bindRotation(t))
  {
    var p := rig.parent[t];
    if n > 1 {
      AncestorPrefix(rig, t, n - 1, n);
      ChainProductParent(ops, rig, t, n - 1);
      var top := rig.bindRotation(Ancestor(rig, t, n).value);
      calc {
        ChainProduct(ops, rig, t, n);
        ops.mul(top, ChainProduct(ops, rig, t, n - 1));
        ops.mul(top, ops.mul(ChainProduct(ops, rig, p, n - 2), rig.bindRotation(t)));
        ops.mul(ops.mul(top, ChainProduct(ops, rig, p, n - 2)), rig.bindRotation(t));
        ops.mul(ChainProduct(ops, rig, p, n - 1), rig.bindRotation(t));
      }
    }
  }

  /** The rest offset of a bone below characterRootTransform is its parent's rest offset
      followed by the bone's own bind rotation. */
  lemma RestOffsetOfChild<R(!new)>(ops: RotationOps<R>, rig: Rig<R>, t: TransformId, q: R)
    requires ops.Associative()
    requires t != rig.root && IsRestOffset(ops, rig, t, q)
    ensures t in rig.parent
    ensures exists qp :: IsRestOffset(ops, rig, rig.parent[t], qp) && q == ops.mul(qp, rig.bindRotation(t))
  {
    var n: nat :| FirstReachesRootAt(rig, t, n) && q == ChainProduct(ops, rig, t, n);
    assert n != 0;
    ChainProductParent(ops, rig, t, n);
    var p := rig.parent[t];
    forall m | 0 <= m < n - 1
      ensures Ancestor(rig, p, m) != Some(rig.root)
    {
      assert Ancestor(rig, t, m + 1) == Ancestor(rig, p, m);
    }
    assert FirstReachesRootAt(rig, p, n - 1);
  }
}
