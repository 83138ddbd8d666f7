/** Ray-sphere intersection (src/hittables/sphere.rs). */
module Spheres {
  import opened Floats
  import opened Options
  import opened Vectors
  import opened VecUtils
  import opened Rays
  import opened Materials
  import opened Hittables

  /** A sphere: centre, radius and the material it shares. */
  datatype Sphere = Sphere(center: Vec3, radius: real, mat: Material)
  {
    /** `Sphere::hit`: straight-line root selection with one reassignment of
        `root`, then a fresh record whose face is set in place. */
    method Hit(sqrt: real -> real, r: Ray, tMin: real, tMax: Bound) returns (rec: Option<HitRecord>)
      requires IsSqrt(sqrt) && r.dir != New() && radius != 0.0
      ensures rec.None? <==> SphereHit(sqrt, this, r, tMin, tMax).None?
      ensures rec.Some? ==> fresh(rec.value) && rec.value.Value() == SphereHit(sqrt, this, r, tMin, tMax).value
    {
      var oc := Sub(Origin(r), center);
      var a := LengthSquared(Direction(r));
      var halfB := Dot(oc, Direction(r));
      var c := LengthSquared(oc) - radius * radius;
      assert a == QuadA(r) && halfB == HalfB(this, r) && c == QuadC(this, r);

      var discriminant := halfB * halfB - a * c;
      assert discriminant == QuarterDisc(a, halfB, c);
      if discriminant < 0.0 {
        assert SphereHit(sqrt, this, r, tMin, tMax).None?;
        return None;
      }
      var sqrtd := sqrt(discriminant);
      var root := (-halfB - sqrtd) / a;
      assert root == LowerRoot(sqrt, a, halfB, c);

      if root < tMin || Exceeds(tMax, root) {
        root := (-halfB + sqrtd) / a;
        assert root == UpperRoot(sqrt, a, halfB, c);
        if root < tMin || Exceeds(tMax, root) {
          assert SphereHit(sqrt, this, r, tMin, tMax).None?;
          return None;
        }
      }
      assert SphereHit(sqrt, this, r, tMin, tMax) == Some(SphereRecord(this, r, root));

      var hitPoint := At(r, root);
      var outwardNormal := Div(Sub(hitPoint, center), radius);
      var hitRecord := new HitRecord(hitPoint, New(), root, false, mat);
      hitRecord.SetFaceNormal(r, outwardNormal);
      return Some(hitRecord);
    }
  }

  // The coefficients of |orig + t dir - center|^2 - radius^2 = a t^2 + 2 half_b t + c.

  function QuadA(r: Ray): real
  {
    LengthSquared(Direction(r))
  }

  function HalfB(s: Sphere, r: Ray): real
  {
    Dot(Sub(Origin(r), s.center), Direction(r))
  }

  function QuadC(s: Sphere, r: Ray): real
  {
    LengthSquared(Sub(Origin(r), s.center)) - s.radius * s.radius
  }

  /** The quadratic `a t^2 + 2 half_b t + c`. */
  function Quadratic(a: real, halfB: real, c: real, t: real): real
  {
    a * t * t + 2.0 * halfB * t + c
  }

  /** The discriminant as `hit` computes it, `half_b^2 - a c`. */
  function QuarterDisc(a: real, halfB: real, c: real): real
  {
    halfB * halfB - a * c
  }

  /** `(-half_b - sqrtd) / a` with `sqrtd = sqrt(half_b^2 - a c)`. */
  function LowerRoot(sqrt: real -> real, a: real, halfB: real, c: real): real
    requires IsSqrt(sqrt) && a != 0.0 && QuarterDisc(a, halfB, c) >= 0.0
  {
    (-halfB - sqrt(QuarterDisc(a, halfB, c))) / a
  }

  /** `(-half_b + sqrtd) / a`. */
  function UpperRoot(sqrt: real -> real, a: real, halfB: real, c: real): real
    requires IsSqrt(sqrt) && a != 0.0 && QuarterDisc(a, halfB, c) >= 0.0
  {
    (-halfB + sqrt(QuarterDisc(a, halfB, c))) / a
  }

  function Discriminant(s: Sphere, r: Ray): real
  {
    QuarterDisc(QuadA(r), HalfB(s, r), QuadC(s, r))
  }

  /** The root `hit` tries first. */
  function NearRoot(sqrt: real -> real, s: Sphere, r: Ray): real
    requires IsSqrt(sqrt) && r.dir != New() && Discriminant(s, r) >= 0.0
  {
    LowerRoot(sqrt, QuadA(r), HalfB(s, r), QuadC(s, r))
  }

  /** The root `hit` tries second. */
  function FarRoot(sqrt: real -> real, s: Sphere, r: Ray): real
    requires IsSqrt(sqrt) && r.dir != New() && Discriminant(s, r) >= 0.0
  {
    UpperRoot(sqrt, QuadA(r), HalfB(s, r), QuadC(s, r))
  }

  /** The point `p` lies on the surface of `s`. */
  predicate OnSphere(s: Sphere, p: Vec3)
  {
    LengthSquared(Sub(p, s.center)) == s.radius * s.radius
  }

  /** The record built for `root`: the point `r.at(root)`, the sphere's own
      material, and `(p - center) / radius` as outward normal under the face rule. */
  function SphereRecord(s: Sphere, r: Ray, root: real): (h: Hit)
    requires s.radius != 0.0
    ensures h.t == root && h.p == At(r, root) && h.mat == s.mat
    ensures h.normal == Div(Sub(h.p, s.center), s.radius) || h.normal == Neg(Div(Sub(h.p, s.center), s.radius))
    ensures Dot(r.dir, h.normal) <= 0.0
  {
    var hitPoint := At(r, root);
    var outwardNormal := Div(Sub(hitPoint, s.center), s.radius);
    FacedHit(Hit(hitPoint, New(), root, false, s.mat), r, outwardNormal)
  }

  /** The value `Sphere::hit` returns: no hit on a negative discriminant; the
      near root when it lies in `[t_min, t_max]`, else the far root when that
      does, else no hit. */
  function SphereHit(sqrt: real -> real, s: Sphere, r: Ray, tMin: real, tMax: Bound): (res: Option<Hit>)
    requires IsSqrt(sqrt) && r.dir != New() && s.radius != 0.0
    ensures res.Some? ==> InRange(res.value.t, tMin, tMax) && res.value == SphereRecord(s, r, res.value.t)
    ensures Discriminant(s, r) < 0.0 ==> res.None?
    ensures res.Some? ==> Discriminant(s, r) >= 0.0 && (res.value.t == NearRoot(sqrt, s, r) || res.value.t == FarRoot(sqrt, s, r))
  {
    if Discriminant(s, r) < 0.0 then None
    else
      var near := NearRoot(sqrt, s, r);
      if !(near < tMin || Exceeds(tMax, near)) then Some(SphereRecord(s, r, near))
      else
        var far := FarRoot(sqrt, s, r);
        if far < tMin || Exceeds(tMax, far) then None
        else Some(SphereRecord(s, r, far))
  }

  // ------------------------------------------------------------------ proofs

  /** Along the ray, the surface equation is the quadratic in `t`. */
  lemma SurfaceQuadratic(s: Sphere, r: Ray, t: real)
    ensures LengthSquared(Sub(At(r, t), s.center)) - s.radius * s.radius
         == Quadratic(QuadA(r), HalfB(s, r), QuadC(s, r), t)
  {
    OffsetSquare(s, r, t);
    CoefficientTerms(s, r, t);
  }

  /** The quadratic written out through the terms its coefficients name. */
  lemma CoefficientTerms(s: Sphere, r: Ray, t: real)
    ensures Quadratic(QuadA(r), HalfB(s, r), QuadC(s, r), t)
         == LengthSquared(Sub(r.orig, s.center)) + 2.0 * t * Dot(Sub(r.orig, s.center), r.dir)
            + t * t * LengthSquared(r.dir) - s.radius * s.radius
  {
  }

  /** `|r.at(t) - center|^2 = |oc|^2 + 2 t (oc . dir) + t^2 |dir|^2` with `oc = orig - center`. */
  lemma OffsetSquare(s: Sphere, r: Ray, t: real)
    ensures LengthSquared(Sub(At(r, t), s.center))
         == LengthSquared(Sub(r.orig, s.center)) + 2.0 * t * Dot(Sub(r.orig, s.center), r.dir) + t * t * LengthSquared(r.dir)
  {
    OffsetLanes(s, r, t);
    LengthSquaredExpand(Sub(r.orig, s.center), r.dir, t, Sub(At(r, t), s.center));
  }

  /** Lane by lane, `r.at(t) - center` is `oc + t dir` with `oc = orig - center`. */
  lemma OffsetLanes(s: Sphere, r: Ray, t: real)
    ensures var q, oc := Sub(At(r, t), s.center), Sub(r.orig, s.center);
      q.x == oc.x + t * r.dir.x && q.y == oc.y + t * r.dir.y && q.z == oc.z + t * r.dir.z
  {
  }

  /** With `a > 0` and `sd^2 = half_b^2 - a c`, the quadratic factors through
      its two roots `(-half_b -+ sd) / a`. */
  lemma Factor(a: real, halfB: real, c: real, sd: real, t: real)
    requires a > 0.0 && sd * sd == QuarterDisc(a, halfB, c)
    ensures Quadratic(a, halfB, c, t) == a * (t - (-halfB - sd) / a) * (t - (-halfB + sd) / a)
  {
    var n := (-halfB - sd) / a;
    var f := (-halfB + sd) / a;
    assert a * n == -halfB - sd;
    assert a * f == -halfB + sd;
    calc {
      a * (t - n) * (t - f);
      ((a * t - a * n) * (a * t - a * f)) / a;
      ((a * t + halfB + sd) * (a * t + halfB - sd)) / a;
      ((a * t + halfB) * (a * t + halfB) - sd * sd) / a;
      (a * a * t * t + 2.0 * a * halfB * t + a * c) / a;
      a * t * t + 2.0 * halfB * t + c;
    }
  }

  /** With `a > 0` and a negative discriminant the quadratic has no real root. */
  lemma NoRoot(a: real, halfB: real, c: real, t: real)
    requires a > 0.0 && QuarterDisc(a, halfB, c) < 0.0
    ensures Quadratic(a, halfB, c, t) > 0.0
  {
    var q := a * t * t + 2.0 * halfB * t + c;
    assert a * q == (a * t + halfB) * (a * t + halfB) - (halfB * halfB - a * c);
    SquareNonNegative(a * t + halfB);
    assert a * q > 0.0;
    if q <= 0.0 {
      ProductBounds(a, -q);
    }
  }

  /** With `a > 0` and a discriminant that is not negative, the lower root is
      at most the upper one and both solve the quadratic. */
  lemma QuadraticRoots(sqrt: real -> real, a: real, halfB: real, c: real)
    requires IsSqrt(sqrt) && a > 0.0 && QuarterDisc(a, halfB, c) >= 0.0
    ensures LowerRoot(sqrt, a, halfB, c) <= UpperRoot(sqrt, a, halfB, c)
    ensures Quadratic(a, halfB, c, LowerRoot(sqrt, a, halfB, c)) == 0.0
    ensures Quadratic(a, halfB, c, UpperRoot(sqrt, a, halfB, c)) == 0.0
  {
    var sd := sqrt(QuarterDisc(a, halfB, c));
    var n, f := (-halfB - sd) / a, (-halfB + sd) / a;
    assert f - n == 2.0 * sd / a;
    Factor(a, halfB, c, sd, n);
    Factor(a, halfB, c, sd, f);
  }

  /** Every solution of the quadratic is the lower or the upper root. */
  lemma RootsAreOnlySolutions(sqrt: real -> real, a: real, halfB: real, c: real, t: real)
    requires IsSqrt(sqrt) && a > 0.0 && QuarterDisc(a, halfB, c) >= 0.0
    requires Quadratic(a, halfB, c, t) == 0.0
    ensures t == LowerRoot(sqrt, a, halfB, c) || t == UpperRoot(sqrt, a, halfB, c)
  {
    var sd := sqrt(QuarterDisc(a, halfB, c));
    var n, f := (-halfB - sd) / a, (-halfB + sd) / a;
    Factor(a, halfB, c, sd, t);
    assert a * ((t - n) * (t - f)) == 0.0;
    ZeroProduct(a, (t - n) * (t - f));
    ZeroProduct(t - n, t - f);
  }

  /** The near root never exceeds the far root, and both lie on the sphere. */
  lemma RootsOnSphere(sqrt: real -> real, s: Sphere, r: Ray)
    requires IsSqrt(sqrt) && r.dir != New() && Discriminant(s, r) >= 0.0
    ensures NearRoot(sqrt, s, r) <= FarRoot(sqrt, s, r)
    ensures OnSphere(s, At(r, NearRoot(sqrt, s, r))) && OnSphere(s, At(r, FarRoot(sqrt, s, r)))
  {
    QuadraticRoots(sqrt, QuadA(r), HalfB(s, r), QuadC(s, r));
    SurfaceQuadratic(s, r, NearRoot(sqrt, s, r));
    SurfaceQuadratic(s, r, FarRoot(sqrt, s, r));
  }

  /** Every returned hit lies on the sphere, and its normal is a unit vector. */
  lemma SphereHitOnSurface(sqrt: real -> real, s: Sphere, r: Ray, tMin: real, tMax: Bound)
    requires IsSqrt(sqrt) && r.dir != New() && s.radius != 0.0
    ensures var res := SphereHit(sqrt, s, r, tMin, tMax);
      res.Some? ==> OnSphere(s, res.value.p) && LengthSquared(res.value.normal) == 1.0
  {
    var res := SphereHit(sqrt, s, r, tMin, tMax);
    if res.Some? {
      RootsOnSphere(sqrt, s, r);
      SurfaceNormalIsUnit(s, r, res.value.t);
    }
  }

  /** On the surface, `(p - center) / radius` has length one, and so has the
      normal the record stores. */
  lemma SurfaceNormalIsUnit(s: Sphere, r: Ray, root: real)
    requires s.radius != 0.0 && OnSphere(s, At(r, root))
    ensures LengthSquared(SphereRecord(s, r, root).normal) == 1.0
  {
    var d := Sub(At(r, root), s.center);
    var k := 1.0 / s.radius;
    LengthSquaredScale(d, k);
    assert k * s.radius == 1.0;
    calc {
      LengthSquared(Div(d, s.radius));
      k * k * LengthSquared(d);
      k * k * (s.radius * s.radius);
      (k * s.radius) * (k * s.radius);
    }
    assert LengthSquared(Neg(Div(d, s.radius))) == LengthSquared(Div(d, s.radius));
  }

  /** The root choice finds the nearest intersection: whenever the ray meets
      the sphere at some `t` in `[t_min, t_max]`, `hit` reports a hit whose
      parameter is at most `t`.  With `SphereHitOnSurface`, `hit` returns
      `None` exactly when the ray meets the sphere nowhere in the interval. */
  lemma SphereHitNearest(sqrt: real -> real, s: Sphere, r: Ray, tMin: real, tMax: Bound, t: real)
    requires IsSqrt(sqrt) && r.dir != New() && s.radius != 0.0
    requires InRange(t, tMin, tMax) && OnSphere(s, At(r, t))
    ensures SphereHit(sqrt, s, r, tMin, tMax).Some?
    ensures SphereHit(sqrt, s, r, tMin, tMax).value.t <= t
  {
    SurfaceQuadratic(s, r, t);
    if Discriminant(s, r) < 0.0 {
      NoRoot(QuadA(r), HalfB(s, r), QuadC(s, r), t);
      assert false;
    }
    RootsOnSphere(sqrt, s, r);
    RootsAreOnlySolutions(sqrt, QuadA(r), HalfB(s, r), QuadC(s, r), t);
    if InRange(NearRoot(sqrt, s, r), tMin, tMax) {
      assert SphereHit(sqrt, s, r, tMin, tMax).value.t == NearRoot(sqrt, s, r);
    } else {
      assert t == FarRoot(sqrt, s, r);
      assert SphereHit(sqrt, s, r, tMin, tMax).value.t == FarRoot(sqrt, s, r);
    }
  }

  /** Lowering the upper bound to `b <= t_max` keeps a hit at or below `b`
      and loses any other: the two roots are tried in increasing order. */
  lemma SphereHitShrink(sqrt: real -> real, s: Sphere, r: Ray, tMin: real, b: Bound, tMax: Bound)
    requires IsSqrt(sqrt) && r.dir != New() && s.radius != 0.0
    requires AtMost(b, tMax)
    ensures SphereHit(sqrt, s, r, tMin, b) ==
      match SphereHit(sqrt, s, r, tMin, tMax)
      case Some(h) => if Exceeds(b, h.t) then None else Some(h)
      case None => None
  {
    if Discriminant(s, r) >= 0.0 {
      RootsOnSphere(sqrt, s, r);
    }
  }

  /** `hit` reports a hit exactly when the ray meets the sphere somewhere in
      `[t_min, t_max]`. */
  lemma SphereHitExactlyWhenMet(sqrt: real -> real, s: Sphere, r: Ray, tMin: real, tMax: Bound)
    requires IsSqrt(sqrt) && r.dir != New() && s.radius != 0.0
    ensures SphereHit(sqrt, s, r, tMin, tMax).Some? <==>
      exists t :: InRange(t, tMin, tMax) && OnSphere(s, At(r, t))
  {
    var res := SphereHit(sqrt, s, r, tMin, tMax);
    if res.Some? {
      SphereHitOnSurface(sqrt, s, r, tMin, tMax);
      assert InRange(res.value.t, tMin, tMax) && OnSphere(s, At(r, res.value.t));
    } else if exists t :: InRange(t, tMin, tMax) && OnSphere(s, At(r, t)) {
      var t :| InRange(t, tMin, tMax) && OnSphere(s, At(r, t));
      SphereHitNearest(sqrt, s, r, tMin, tMax, t);
    }
  }

  /** The scene's small sphere at (0, 0, -1) of radius 0.5, seen straight
      ahead from the origin: the front face is met at `t = 0.5`, where the
      normal points back towards the eye. */
  lemma SphereHitExample(sqrt: real -> real, mat: Material)
    requires IsSqrt(sqrt)
    ensures SphereHit(sqrt, Sphere(Vec3(0.0, 0.0, -1.0), 0.5, mat), Ray(New(), Vec3(0.0, 0.0, -1.0)), 0.001, Infinity)
         == Some(Hit(Vec3(0.0, 0.0, -0.5), Vec3(0.0, 0.0, 1.0), 0.5, true, mat))
  {
    var s := Sphere(Vec3(0.0, 0.0, -1.0), 0.5, mat);
    var r := Ray(New(), Vec3(0.0, 0.0, -1.0));
    assert QuadA(r) == 1.0;
    assert HalfB(s, r) == -1.0;
    assert QuadC(s, r) == 0.75;
    assert Discriminant(s, r) == 0.5 * 0.5;
    SqrtOfSquare(sqrt, 0.5);
    assert NearRoot(sqrt, s, r) == 0.5;
    var p := At(r, 0.5);
    assert p == Vec3(0.0, 0.0, -0.5);
    assert Div(Sub(p, s.center), s.radius) == Vec3(0.0, 0.0, 1.0);
    assert SphereRecord(s, r, 0.5) == Hit(Vec3(0.0, 0.0, -0.5), Vec3(0.0, 0.0, 1.0), 0.5, true, mat);
  }
}
