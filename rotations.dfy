/** Rotations as an abstract type R with the operations Unity's Quaternion offers:
    composition (operator *), Quaternion.Inverse and the identity. The group laws are
    not axioms: lemmas that need them take them as hypotheses. */
module Rotations {
  datatype RotationOps<!R(!new)> = RotationOps(mul: (R, R) -> R, inv: R -> R, identity: R)
  {
    ghost predicate Associative()
    {
      forall a, b, c :: mul(mul(a, b), c) == mul(a, mul(b, c))
    }

    ghost predicate IsGroup()
    {
      Associative() &&
      (forall a :: mul(identity, a) == a) &&
      (forall a :: mul(a, identity) == a) &&
      (forall a :: mul(a, inv(a)) == identity) &&
      (forall a :: mul(inv(a), a) == identity)
    }
  }

  /** The rotation PuppetAvatar.LateUpdate assigns to a bone, composed exactly as written:
      C#'s * is left-associative, so the product is ((off * Inverse(off)) * sensor) * off. */
  function Retargeted<R(!new)>(ops: RotationOps<R>, off: R, sensor: R): R
  {
    ops.mul(ops.mul(ops.mul(off, ops.inv(off)), sensor), off)
  }

  /** Under the group laws the four-term product is the sensor rotation followed by the offset. */
  lemma RetargetedReduces<R(!new)>(ops: RotationOps<R>, off: R, sensor: R)
    requires ops.IsGroup()
    ensures Retargeted(ops, off, sensor) == ops.mul(sensor, off)
  {
  }
}
