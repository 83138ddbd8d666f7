/** Specular scattering with fuzz (src/materials/metal.rs). */
module MetalMaterial {
  import opened Floats
  import opened Options
  import opened Vectors
  import opened VecUtils
  import opened Rays
  import opened Materials
  import opened Hittables

  /** The mirror direction of the normalised incoming direction.  It differs
      from that direction only along the normal, so the tangential part is
      kept; off a unit normal it is a unit vector whose normal component is
      that of the incoming direction, negated. */
  function Mirror(sqrt: real -> real, rIn: Ray, rec: Hit): (m: Vec3)
    requires IsSqrt(sqrt) && rIn.dir != New()
    ensures Cross(Sub(UnitVector(sqrt, rIn.dir), m), rec.normal) == New()
    ensures LengthSquared(rec.normal) == 1.0 ==>
      LengthSquared(m) == 1.0 && Dot(m, rec.normal) == -Dot(UnitVector(sqrt, rIn.dir), rec.normal)
  {
    var u := UnitVector(sqrt, rIn.dir);
    MirrorLength(u, rec.normal);
    Reflect(u, rec.normal)
  }

  /** Reflection off a unit normal keeps a unit vector's length. */
  lemma MirrorLength(u: Vec3, n: Vec3)
    ensures LengthSquared(n) == 1.0 ==> LengthSquared(Reflect(u, n)) == LengthSquared(u)
  {
    if LengthSquared(n) == 1.0 {
      ReflectLaws(u, n);
    }
  }

  /** `Metal::scatter`.  `sample` is the point `Vec3::random_in_unit_sphere`
      returned.  A scattered ray leaves the hit point, with the albedo as
      attenuation, strictly on the normal's side of the surface, along the
      mirror direction displaced by exactly `fuzz * sample`; a fuzzed
      direction that does not leave the surface is absorbed. */
  function Scatter(sqrt: real -> real, albedo: Vec3, fuzz: real, rIn: Ray, rec: Hit, sample: Vec3): (res: Option<Scattering>)
    requires IsSqrt(sqrt) && rIn.dir != New()
    ensures res.Some? ==> res.value.scattered.orig == rec.p && res.value.attenuation == albedo
    ensures res.Some? ==> Dot(res.value.scattered.dir, rec.normal) > 0.0
    ensures res.Some? ==> Sub(res.value.scattered.dir, Mirror(sqrt, rIn, rec)) == ScaleLeft(fuzz, sample)
    ensures res.None? ==> Dot(Add(Mirror(sqrt, rIn, rec), ScaleLeft(fuzz, sample)), rec.normal) <= 0.0
  {
    var reflected := Reflect(UnitVector(sqrt, Direction(rIn)), rec.normal);
    var scattered := Ray(rec.p, Add(reflected, ScaleLeft(fuzz, sample)));
    var attenuation := albedo;
    assert Sub(scattered.dir, reflected) == ScaleLeft(fuzz, sample);
    match Dot(Direction(scattered), rec.normal) > 0.0
    case true => Some(Scattering(scattered, attenuation))
    case false => None
  }

  /** With a sample in the unit ball the scattered direction stays within
      `|fuzz|` of the mirror direction. */
  lemma FuzzBound(sqrt: real -> real, albedo: Vec3, fuzz: real, rIn: Ray, rec: Hit, sample: Vec3)
    requires IsSqrt(sqrt) && rIn.dir != New()
    requires LengthSquared(sample) <= 1.0
    ensures var res := Scatter(sqrt, albedo, fuzz, rIn, rec, sample);
      res.Some? ==> LengthSquared(Sub(res.value.scattered.dir, Mirror(sqrt, rIn, rec))) <= fuzz * fuzz
  {
    ScaledWithin(fuzz, sample);
  }

  /** `|k s|^2 <= k^2` for `s` in the unit ball. */
  lemma ScaledWithin(k: real, sample: Vec3)
    requires LengthSquared(sample) <= 1.0
    ensures LengthSquared(ScaleLeft(k, sample)) <= k * k
  {
    LengthSquaredScale(sample, k);
    SquareNonNegative(k);
    ProductBounds(k * k, 1.0 - LengthSquared(sample));
    assert k * k * LengthSquared(sample) <= k * k;
  }

  /** A perfect mirror (`fuzz == 0`) with a unit normal: the ray is reflected
      exactly when it arrives against the normal, and then leaves along the
      mirror direction at the angle it arrived, as a unit vector. */
  lemma PerfectMirror(sqrt: real -> real, albedo: Vec3, rIn: Ray, rec: Hit, sample: Vec3)
    requires IsSqrt(sqrt) && rIn.dir != New()
    requires LengthSquared(rec.normal) == 1.0
    ensures var res := Scatter(sqrt, albedo, 0.0, rIn, rec, sample);
      (res.Some? <==> Dot(rIn.dir, rec.normal) < 0.0) &&
      (res.Some? ==> res.value.scattered.dir == Mirror(sqrt, rIn, rec) &&
                     LengthSquared(res.value.scattered.dir) == 1.0 &&
                     Dot(res.value.scattered.dir, rec.normal) == -Dot(UnitVector(sqrt, rIn.dir), rec.normal))
  {
    ReflectLaws(UnitVector(sqrt, rIn.dir), rec.normal);
    assert Add(Mirror(sqrt, rIn, rec), ScaleLeft(0.0, sample)) == Mirror(sqrt, rIn, rec);
    UnitDotSign(sqrt, rIn.dir, rec.normal);
  }
}
