/** Diffuse scattering (src/materials/lambertian.rs). */
module LambertianMaterial {
  import opened Floats
  import opened Options
  import opened Vectors
  import opened VecUtils
  import opened Rays
  import opened Materials
  import opened Hittables

  /** `Lambertian::scatter`.  `sample` is the unit-sphere point that
      `Vec3::random_unit_vector` normalises.  The ray always scatters, from
      the hit point, with the albedo as attenuation; its direction is the
      normal plus a unit vector, i.e. a point of the unit sphere centred on
      the normal's tip, except that a direction that is nearly zero is
      replaced by the normal itself.  The direction is exactly the normal
      plus the normalised sample whenever that sum is not nearly zero. */
  function Scatter(sqrt: real -> real, albedo: Vec3, rIn: Ray, rec: Hit, sample: Vec3): (res: Option<Scattering>)
    requires IsSqrt(sqrt) && sample != New()
    ensures res.Some?
    ensures res.value.scattered.orig == rec.p && res.value.attenuation == albedo
    ensures var candidate := Add(rec.normal, RandomUnitVector(sqrt, sample));
      res.value.scattered.dir == (if NearZero(candidate) then rec.normal else candidate)
    ensures res.value.scattered.dir == rec.normal
         || (LengthSquared(Sub(res.value.scattered.dir, rec.normal)) == 1.0 && !NearZero(res.value.scattered.dir))
  {
    var unit := RandomUnitVector(sqrt, sample);
    var candidate := Add(rec.normal, unit);
    assert Sub(candidate, rec.normal) == unit;
    var scatterDirection := if NearZero(candidate) then rec.normal else candidate;
    Some(Scattering(Ray(rec.p, scatterDirection), albedo))
  }

  /** For a unit normal, the diffuse ray is never degenerate and never leaves
      into the surface: its direction is nonzero and makes a non-negative
      dot product with the normal. */
  lemma ScattersOutward(sqrt: real -> real, albedo: Vec3, rIn: Ray, rec: Hit, sample: Vec3)
    requires IsSqrt(sqrt) && sample != New()
    requires LengthSquared(rec.normal) == 1.0
    ensures var d := Scatter(sqrt, albedo, rIn, rec, sample).value.scattered.dir;
      d != New() && Dot(d, rec.normal) >= 0.0
  {
    var d := Scatter(sqrt, albedo, rIn, rec, sample).value.scattered.dir;
    if d != rec.normal {
      UnitOffsetDot(d, rec.normal);
      SquareNonNegative(d.x);
      SquareNonNegative(d.y);
      SquareNonNegative(d.z);
    }
  }

  /** A point at distance 1 from the tip of a unit normal `n` makes the dot
      product `|d|^2 / 2` with it: `|d - n|^2 = |d|^2 - 2 d.n + 1`. */
  lemma UnitOffsetDot(d: Vec3, n: Vec3)
    requires LengthSquared(n) == 1.0 && LengthSquared(Sub(d, n)) == 1.0
    ensures 2.0 * Dot(d, n) == LengthSquared(d)
  {
    assert Sub(d, n) == Add(d, ScaleLeft(-1.0, n));
    LengthSquaredAdd(d, n, -1.0);
  }

  /** The incoming ray plays no part in diffuse scattering. */
  lemma IgnoresIncomingRay(sqrt: real -> real, albedo: Vec3, r1: Ray, r2: Ray, rec: Hit, sample: Vec3)
    requires IsSqrt(sqrt) && sample != New()
    ensures Scatter(sqrt, albedo, r1, rec, sample) == Scatter(sqrt, albedo, r2, rec, sample)
  {
  }
}
