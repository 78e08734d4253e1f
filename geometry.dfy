/** Three-component vectors with real coordinates, standing for both the sensor's
    System.Numerics.Vector3 and Unity's Vector3 (floating-point rounding is not modelled). */
module Geometry {
  datatype Vec3 = Vec3(x: real, y: real, z: real)

  const Origin: Vec3 := Vec3(0.0, 0.0, 0.0)

  function Add(a: Vec3, b: Vec3): (r: Vec3)
    ensures Sub(r, b) == a
  {
    Vec3(a.x + b.x, a.y + b.y, a.z + b.z)
  }

  function Sub(a: Vec3, b: Vec3): Vec3
  {
    Vec3(a.x - b.x, a.y - b.y, a.z - b.z)
  }

  /** The square of Vector3.magnitude. Magnitudes are only ever compared with each
      other, and for non-negative values a < b exactly when a * a < b * b. */
  function MagnitudeSquared(v: Vec3): (r: real)
    ensures r >= 0.0
  {
    v.x * v.x + v.y * v.y + v.z * v.z
  }

  /** Comparing squares is comparing magnitudes. */
  lemma SquareMonotone(a: real, b: real)
    requires 0.0 <= a && 0.0 <= b
    ensures a < b <==> a * a < b * b
  {
    if a < b {
      MulLeftMono(a, a, b);
      MulLeftStrict(b, a, b);
      calc {
        a * a;
      <= a * b;
      == b * a;
      <  b * b;
      }
    } else {
      MulLeftMono(b, b, a);
      MulLeftMono(a, b, a);
      calc {
        b * b;
      <= b * a;
      == a * b;
      <= a * a;
      }
    }
  }

  lemma MulLeftMono(c: real, a: real, b: real)
    requires 0.0 <= c && a <= b
    ensures c * a <= c * b
  {
  }

  lemma MulLeftStrict(c: real, a: real, b: real)
    requires 0.0 < c && a < b
    ensures c * a < c * b
  {
  }

  /** The sensor's camera frame has Y pointing down; the hand targets negate it. */
  function SensorToScene(p: Vec3): Vec3
  {
    Vec3(p.x, -p.y, p.z)
  }

  /** Negating Y twice is the identity, and it preserves distances from the origin. */
  lemma SensorToSceneInvolution(p: Vec3)
    ensures SensorToScene(SensorToScene(p)) == p
    ensures MagnitudeSquared(SensorToScene(p)) == MagnitudeSquared(p)
  {
  }
}
