/** Refraction through glass with Schlick's reflectance
    (src/materials/dielectric.rs). */
module DielectricMaterial {
  import opened Floats
  import opened Options
  import opened Vectors
  import opened VecUtils
  import opened Rays
  import opened Materials
  import opened Hittables

  /** `r0 = ((1 - ref_idx) / (1 + ref_idx))^2`, the reflectance at normal
      incidence; a probability for a positive index. */
  function R0(refIdx: real): (r0: real)
    requires refIdx != -1.0
    ensures r0 >= 0.0
    ensures refIdx > 0.0 ==> r0 <= 1.0
  {
    var q := (1.0 - refIdx) / (1.0 + refIdx);
    SquareBounds(refIdx, q);
    q * q
  }

  lemma SquareBounds(refIdx: real, q: real)
    requires refIdx != -1.0 && q == (1.0 - refIdx) / (1.0 + refIdx)
    ensures q * q >= 0.0
    ensures refIdx > 0.0 ==> q * q <= 1.0
  {
    if refIdx > 0.0 {
      assert -1.0 <= q <= 1.0 by {
        assert q * (1.0 + refIdx) == 1.0 - refIdx;
      }
    }
    if q >= 0.0 { ProductBounds(q, q); } else { ProductBounds(-q, -q); }
  }

  /** `Dielectric::reflectance`: Schlick's approximation
      `r0 + (1 - r0) (1 - cosine)^5`.  For a positive index and a cosine in
      `[0, 1]` it is a probability no smaller than `r0`, and it is exactly
      `r0` at normal incidence. */
  function Reflectance(cosine: real, refIdx: real): (r: real)
    requires refIdx != -1.0
    ensures refIdx > 0.0 && 0.0 <= cosine <= 1.0 ==> R0(refIdx) <= r <= 1.0
    ensures cosine == 1.0 ==> r == R0(refIdx)
  {
    var r0 := R0(refIdx);
    var p := Pow5(1.0 - cosine);
    SchlickBounds(r0, p);
    r0 + (1.0 - r0) * p
  }

  /** `r0 + (1 - r0) p` lies between `r0` and 1 for `r0` and `p` in `[0, 1]`,
      and is `r0` for `p = 0`. */
  lemma SchlickBounds(r0: real, p: real)
    ensures 0.0 <= r0 <= 1.0 && 0.0 <= p <= 1.0 ==> r0 <= r0 + (1.0 - r0) * p <= 1.0
    ensures p == 0.0 ==> r0 + (1.0 - r0) * p == r0
  {
    if 0.0 <= r0 <= 1.0 && 0.0 <= p <= 1.0 {
      ProductBounds(1.0 - r0, p);
      ProductBounds(1.0 - r0, 1.0 - p);
      assert (1.0 - r0) * p <= 1.0 - r0;
    }
  }

  /** The ratio `r0` is the same for an index and its reciprocal, so
      Schlick's value does not depend on which side of the surface the
      ratio is taken from. */
  lemma ReflectanceReciprocal(cosine: real, ir: real)
    requires ir > 0.0
    ensures Reflectance(cosine, 1.0 / ir) == Reflectance(cosine, ir)
  {
    var q := (1.0 - ir) / (1.0 + ir);
    var q' := (1.0 - 1.0 / ir) / (1.0 + 1.0 / ir);
    assert q' == -q by {
      assert (1.0 - 1.0 / ir) * ir == ir - 1.0;
      assert (1.0 + 1.0 / ir) * ir == ir + 1.0;
      assert q' == (ir - 1.0) / (ir + 1.0);
    }
    assert q' * q' == q * q;
  }

  /** With matched indices `r0` vanishes, but Schlick's term does not: at any
      angle off the normal the reflectance is positive. */
  lemma MatchedReflectance(cosine: real)
    requires cosine < 1.0
    ensures Reflectance(cosine, 1.0) == Pow5(1.0 - cosine) > 0.0
  {
  }

  /** The attenuation of glass: nothing is absorbed. */
  const Clear := Vec3(1.0, 1.0, 1.0)

  /** `refraction_ratio`: `1 / ir` entering through the front face, `ir` leaving. */
  function RefractionRatio(ir: real, frontFace: bool): (ratio: real)
    requires ir != 0.0
    ensures frontFace ==> ratio * ir == 1.0
    ensures !frontFace ==> ratio == ir
  {
    match frontFace
    case true => 1.0 / ir
    case false => ir
  }

  /** `cos_theta`: `min(-unit_direction . normal, 1)`. */
  function CosTheta(unitDirection: Vec3, normal: Vec3): (c: real)
    ensures c <= 1.0
    ensures LengthSquared(unitDirection) == 1.0 && LengthSquared(normal) == 1.0 ==> c == -Dot(unitDirection, normal)
  {
    DotLaws(unitDirection, normal, unitDirection, 1.0);
    UnitDotBoundsIf(unitDirection, normal);
    Min(Dot(Neg(unitDirection), normal), 1.0)
  }

  lemma UnitDotBoundsIf(u: Vec3, v: Vec3)
    ensures LengthSquared(u) == 1.0 && LengthSquared(v) == 1.0 ==> -1.0 <= Dot(u, v) <= 1.0
  {
    if LengthSquared(u) == 1.0 && LengthSquared(v) == 1.0 {
      UnitDotBounds(u, v);
    }
  }

  /** `sin_theta = (1 - cos_theta^2).sqrt()`, with `None` for the NaN the f64
      square root returns on a negative argument. */
  function SinTheta(sqrt: real -> real, cosTheta: real): (s: Option<real>)
    requires IsSqrt(sqrt)
    ensures s.Some? <==> cosTheta * cosTheta <= 1.0
    ensures s.Some? ==> s.value >= 0.0 && s.value * s.value == 1.0 - cosTheta * cosTheta
  {
    var sinSquared := 1.0 - cosTheta * cosTheta;
    if sinSquared >= 0.0 then
      assert sqrt(sinSquared) >= 0.0 && sqrt(sinSquared) * sqrt(sinSquared) == sinSquared;
      Some(sqrt(sinSquared))
    else None
  }

  /** `cannot_refract = refraction_ratio * sin_theta > 1.0`; a comparison with
      NaN is false.  Since a sine never exceeds 1, total internal reflection
      needs a defined sine and a ratio above 1, i.e. light leaving the denser
      medium. */
  function CannotRefract(sqrt: real -> real, ratio: real, cosTheta: real): (b: bool)
    requires IsSqrt(sqrt)
    ensures b ==> cosTheta * cosTheta <= 1.0 && ratio > 1.0
  {
    match SinTheta(sqrt, cosTheta)
    case None => false
    case Some(sinTheta) =>
      SquareNonNegative(cosTheta);
      SquareAtMostOne(sinTheta);
      CriticalNeedsRatio(ratio, sinTheta);
      BeyondCritical(ratio, sinTheta)
  }

  /** A sine in `[0, 1]` is beyond the critical value only for a ratio above 1. */
  lemma CriticalNeedsRatio(ratio: real, s: real)
    requires 0.0 <= s <= 1.0
    ensures BeyondCritical(ratio, s) ==> ratio > 1.0
  {
    if 0.0 < ratio <= 1.0 {
      WithinCritical(ratio, s);
    } else if ratio <= 0.0 {
      ProductBounds(-ratio, s);
    }
  }

  /** Snell's law would ask for a refracted sine above 1. */
  predicate BeyondCritical(ratio: real, sinTheta: real)
  {
    ratio * sinTheta > 1.0
  }

  /** `Dielectric::scatter`.  `draw` is the value of `random_f64()`.  Glass
      never absorbs: the ray always continues from the hit point with full
      attenuation.  It is mirrored under total internal reflection, whatever
      the draw, and when the draw falls below Schlick's reflectance (for a
      uniform draw, with that probability); otherwise it is refracted by the
      ratio of indices. */
  function Scatter(sqrt: real -> real, ir: real, rIn: Ray, rec: Hit, draw: real): (res: Option<Scattering>)
    requires IsSqrt(sqrt) && ir != 0.0 && ir != -1.0 && rIn.dir != New()
    ensures res.Some?
    ensures res.value.scattered.orig == rec.p && res.value.attenuation == Clear
    ensures var u := UnitVector(sqrt, rIn.dir);
      var ratio := RefractionRatio(ir, rec.frontFace);
      var c := CosTheta(u, rec.normal);
      var d := res.value.scattered.dir;
      (CannotRefract(sqrt, ratio, c) ==> d == Reflect(u, rec.normal)) &&
      (Reflectance(c, ratio) > draw ==> d == Reflect(u, rec.normal)) &&
      (!CannotRefract(sqrt, ratio, c) && Reflectance(c, ratio) <= draw ==> d == Refract(sqrt, u, rec.normal, ratio))
  {
    var attenuation := Clear;
    var refractionRatio := RefractionRatio(ir, rec.frontFace);
    var unitDirection := UnitVector(sqrt, Direction(rIn));
    var cosTheta := CosTheta(unitDirection, rec.normal);
    var cannotRefract := CannotRefract(sqrt, refractionRatio, cosTheta);
    var direction :=
      if cannotRefract || Reflectance(cosTheta, refractionRatio) > draw then Reflect(unitDirection, rec.normal)
      else Refract(sqrt, unitDirection, rec.normal, refractionRatio);
    Some(Scattering(Ray(rec.p, direction), attenuation))
  }

  /** Entering glass of index at least 1 through the front face there is no
      total internal reflection: `sin_theta <= 1` and the ratio is at most 1. */
  lemma NoTotalInternalReflectionEntering(sqrt: real -> real, ir: real, rIn: Ray, rec: Hit)
    requires IsSqrt(sqrt) && ir >= 1.0 && rIn.dir != New()
    requires rec.frontFace && LengthSquared(rec.normal) == 1.0
    ensures !CannotRefract(sqrt, RefractionRatio(ir, rec.frontFace), CosTheta(UnitVector(sqrt, rIn.dir), rec.normal))
  {
    var u := UnitVector(sqrt, rIn.dir);
    UnitDotBounds(u, rec.normal);
    var ratio := RefractionRatio(ir, true);
    assert 0.0 < ratio <= 1.0 by {
      assert ratio * ir == 1.0;
    }
    SineAtMostOne(sqrt, ratio, CosTheta(u, rec.normal));
  }

  /** A ratio in `(0, 1]` times the sine of a cosine in `[-1, 1]` never exceeds 1. */
  lemma SineAtMostOne(sqrt: real -> real, ratio: real, c: real)
    requires IsSqrt(sqrt) && 0.0 < ratio <= 1.0 && -1.0 <= c <= 1.0
    ensures !CannotRefract(sqrt, ratio, c)
  {
    if c >= 0.0 { ProductBounds(c, c); } else { ProductBounds(-c, -c); }
    assert SinTheta(sqrt, c).Some?;
    var s := SinTheta(sqrt, c).value;
    SquareNonNegative(c);
    assert s * s <= 1.0;
    SquareAtMostOne(s);
    WithinCritical(ratio, s);
  }

  lemma WithinCritical(ratio: real, s: real)
    requires 0.0 < ratio <= 1.0 && 0.0 <= s <= 1.0
    ensures !BeyondCritical(ratio, s)
  {
    ProductBounds(ratio, s);
  }

  /** Leaving glass of index 1.5 tangentially to the surface (cosine 0) is
      always total internal reflection. */
  lemma GrazingExitReflects(sqrt: real -> real)
    requires IsSqrt(sqrt)
    ensures CannotRefract(sqrt, RefractionRatio(1.5, false), 0.0)
  {
    var s := SinTheta(sqrt, 0.0).value;
    assert (s - 1.0) * (s + 1.0) == 0.0;
    ZeroProduct(s - 1.0, s + 1.0);
  }

  /** For unit vectors the scattered direction is never zero: a reflection
      keeps unit length and a refraction has length at least one. */
  lemma DirectionNonZero(sqrt: real -> real, ir: real, rIn: Ray, rec: Hit, draw: real)
    requires IsSqrt(sqrt) && ir != 0.0 && ir != -1.0 && rIn.dir != New()
    requires LengthSquared(rec.normal) == 1.0
    ensures LengthSquared(Scatter(sqrt, ir, rIn, rec, draw).value.scattered.dir) >= 1.0
  {
    var u := UnitVector(sqrt, rIn.dir);
    ReflectLaws(u, rec.normal);
  }

  /** Glass of index 1 facing the ray (the stored normal always opposes the
      ray): the ray is mirrored with probability `(1 - cos_theta)^5` and
      otherwise passes straight through, undeviated. */
  lemma MatchedIndex(sqrt: real -> real, rIn: Ray, rec: Hit, draw: real)
    requires IsSqrt(sqrt) && rIn.dir != New()
    requires LengthSquared(rec.normal) == 1.0 && Dot(rIn.dir, rec.normal) <= 0.0
    ensures var c := CosTheta(UnitVector(sqrt, rIn.dir), rec.normal);
      var d := Scatter(sqrt, 1.0, rIn, rec, draw).value.scattered.dir;
      0.0 <= c <= 1.0 &&
      (Pow5(1.0 - c) > draw ==> d == Reflect(UnitVector(sqrt, rIn.dir), rec.normal)) &&
      (Pow5(1.0 - c) <= draw ==> d == UnitVector(sqrt, rIn.dir))
  {
    var u := UnitVector(sqrt, rIn.dir);
    var len := Length(sqrt, rIn.dir);
    assert Scale(u, len) == rIn.dir;
    DotLaws(u, rec.normal, u, len);
    assert Dot(rIn.dir, rec.normal) == len * Dot(u, rec.normal);
    if Dot(u, rec.normal) > 0.0 {
      ProductBounds(len, Dot(u, rec.normal));
    }
    UnitDotBounds(u, rec.normal);
    var c := CosTheta(u, rec.normal);
    assert RefractionRatio(1.0, rec.frontFace) == 1.0;
    SineAtMostOne(sqrt, 1.0, c);
    RefractMatched(sqrt, u, rec.normal);
  }
}
