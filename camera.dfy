/** The thin-lens camera (src/cameras/camera.rs). */
module Cameras {
  import opened Floats
  import opened Vectors
  import opened VecUtils
  import opened Rays

  /** The fields of `Camera`, never changed after construction. */
  datatype Camera = Camera(
    origin: Vec3,
    lowerLeftCorner: Vec3,
    horizontal: Vec3,
    vertical: Vec3,
    u: Vec3,
    v: Vec3,
    w: Vec3,
    lensRadius: real)

  /** `u`, `v`, `w` are pairwise orthogonal unit vectors. */
  predicate Orthonormal(c: Camera)
  {
    LengthSquared(c.u) == 1.0 && LengthSquared(c.v) == 1.0 && LengthSquared(c.w) == 1.0
    && Dot(c.u, c.v) == 0.0 && Dot(c.u, c.w) == 0.0 && Dot(c.v, c.w) == 0.0
  }

  /** The viewport's height at unit distance, `2 h`. */
  function ViewportHeight(h: real): real
  {
    2.0 * h
  }

  /** The viewport's width at unit distance, `aspect_ratio` times its height. */
  function ViewportWidth(aspectRatio: real, h: real): real
  {
    aspectRatio * ViewportHeight(h)
  }

  /** `Camera::new`.  `h` stands for `tan(vfov.to_radians() / 2)`.  The
      camera sits at `lookfrom`; `w` is the unit vector from `lookat` back to
      `lookfrom`, `u` is orthogonal to both `vup` and `w`, and `(u, v, w)` is
      an orthonormal basis with `v = w x u`, oriented so that `u` points
      along `vup x w` and `v` leans towards `vup`.  The viewport spans `focus_dist * width * u` by
      `focus_dist * height * v` and is centred on the point `focus_dist` in
      front of the camera; the lens radius is half the aperture. */
  function New(sqrt: real -> real, lookfrom: Vec3, lookat: Vec3, vup: Vec3, h: real,
               aspectRatio: real, aperture: real, focusDist: real): (c: Camera)
    requires IsSqrt(sqrt)
    requires lookfrom != lookat
    requires Cross(vup, UnitVector(sqrt, Sub(lookfrom, lookat))) != Vectors.New()
    ensures c.origin == lookfrom && c.lensRadius == aperture / 2.0
    ensures Orthonormal(c)
    ensures Scale(c.w, Length(sqrt, Sub(lookfrom, lookat))) == Sub(lookfrom, lookat)
    ensures Dot(c.u, vup) == 0.0
    ensures c.v == Cross(c.w, c.u)
    ensures Dot(c.u, Cross(vup, c.w)) > 0.0 && Dot(c.v, vup) > 0.0
    ensures c.horizontal == ScaleLeft(focusDist * ViewportWidth(aspectRatio, h), c.u)
    ensures c.vertical == ScaleLeft(focusDist * ViewportHeight(h), c.v)
    ensures Add(Add(c.lowerLeftCorner, Div(c.horizontal, 2.0)), Div(c.vertical, 2.0)) == Sub(c.origin, ScaleLeft(focusDist, c.w))
  {
    var w := UnitVector(sqrt, Sub(lookfrom, lookat));
    var u := UnitVector(sqrt, Cross(vup, w));
    var v := Cross(w, u);
    BasisIsOrthonormal(sqrt, vup, w);
    BasisOrientation(sqrt, vup, w);

    var origin := lookfrom;
    var horizontal := ScaleLeft(focusDist * ViewportWidth(aspectRatio, h), u);
    var vertical := ScaleLeft(focusDist * ViewportHeight(h), v);
    var lowerLeftCorner := Sub(Sub(Sub(origin, Div(horizontal, 2.0)), Div(vertical, 2.0)), ScaleLeft(focusDist, w));
    var lensRadius := aperture / 2.0;
    CornerCentred(origin, horizontal, vertical, ScaleLeft(focusDist, w));

    Camera(origin, lowerLeftCorner, horizontal, vertical, u, v, w, lensRadius)
  }

  /** Half the viewport's width and height above the lower left corner lies
      the point `focus_dist * w` in front of the origin. */
  lemma CornerCentred(origin: Vec3, horizontal: Vec3, vertical: Vec3, depth: Vec3)
    ensures var corner := Sub(Sub(Sub(origin, Div(horizontal, 2.0)), Div(vertical, 2.0)), depth);
      Add(Add(corner, Div(horizontal, 2.0)), Div(vertical, 2.0)) == Sub(origin, depth)
  {
  }

  /** With `w` a unit vector and `vup x w` nonzero, `u = unit(vup x w)` and
      `v = w x u` complete `w` to an orthonormal basis, and `u` is orthogonal
      to `vup`. */
  lemma BasisIsOrthonormal(sqrt: real -> real, vup: Vec3, w: Vec3)
    requires IsSqrt(sqrt) && LengthSquared(w) == 1.0 && Cross(vup, w) != Vectors.New()
    ensures var u := UnitVector(sqrt, Cross(vup, w));
      var v := Cross(w, u);
      LengthSquared(u) == 1.0 && LengthSquared(v) == 1.0
      && Dot(u, v) == 0.0 && Dot(u, w) == 0.0 && Dot(v, w) == 0.0 && Dot(u, vup) == 0.0
  {
    var x := Cross(vup, w);
    var len := Length(sqrt, x);
    var u := UnitVector(sqrt, x);
    var v := Cross(w, u);
    assert Scale(u, len) == x;
    assert len > 0.0;
    assert u == Div(x, len);
    DotLaws(x, w, x, 1.0 / len);
    DotLaws(x, vup, x, 1.0 / len);
    assert Dot(u, w) == 0.0;
    assert Dot(u, vup) == 0.0;
    Lagrange(w, u);
    DotLaws(w, u, w, 1.0);
    DotLaws(v, u, v, 1.0);
    DotLaws(v, w, v, 1.0);
  }

  /** The orientation of the basis: `u` is a positive multiple of `vup x w`,
      and `v = w x u` makes a positive dot product with `vup`, because the
      triple product `(w x u) . vup` equals `u . (vup x w) = |vup x w|`. */
  lemma {:induction false} BasisOrientation(sqrt: real -> real, vup: Vec3, w: Vec3)
    requires IsSqrt(sqrt) && LengthSquared(w) == 1.0 && Cross(vup, w) != Vectors.New()
    ensures var u := UnitVector(sqrt, Cross(vup, w));
      Dot(u, Cross(vup, w)) > 0.0 && Dot(Cross(w, u), vup) > 0.0
  {
    var x := Cross(vup, w);
    var len := Length(sqrt, x);
    var u := UnitVector(sqrt, x);
    assert Scale(u, len) == x;
    DotLaws(u, u, u, len);
    DotLaws(Scale(u, len), u, u, 1.0);
    assert Dot(u, x) == len;
    TripleProduct(w, u, vup);
    DotLaws(vup, w, u, 1.0);
    DotLaws(x, u, x, 1.0);
  }

  /** The scalar triple product is invariant under rotation of its factors:
      `(a x b) . c == a . (b x c)`, here in the form `(a x b) . c == b . (c x a)`. */
  lemma TripleProduct(a: Vec3, b: Vec3, c: Vec3)
    ensures Dot(Cross(a, b), c) == Dot(b, Cross(c, a))
  {
  }

  /** The offset on the lens for a unit-disk sample: `u * rd.x + v * rd.y`
      with `rd = lens_radius * sample`. */
  function LensOffset(c: Camera, sample: Vec3): Vec3
  {
    var rd := ScaleLeft(c.lensRadius, sample);
    Add(Scale(c.u, X(rd)), Scale(c.v, Y(rd)))
  }

  /** `Camera::get_ray`.  `sample` is the point `random_in_unit_disk`
      returned.  The ray starts on the lens, at the camera's origin moved by
      the lens offset, and whatever the sample, reaches the viewport point
      `lower_left_corner + s horizontal + t vertical` at parameter 1: every
      ray through a pixel meets on the plane of focus. */
  function GetRay(c: Camera, s: real, t: real, sample: Vec3): (r: Ray)
    ensures r.orig == Add(c.origin, LensOffset(c, sample))
    ensures At(r, 1.0) == Add(Add(c.lowerLeftCorner, ScaleLeft(s, c.horizontal)), ScaleLeft(t, c.vertical))
    ensures c.lensRadius == 0.0 ==> r.orig == c.origin
  {
    var offset := LensOffset(c, sample);
    Ray(Add(c.origin, offset),
        Sub(Sub(Add(Add(c.lowerLeftCorner, ScaleLeft(s, c.horizontal)), ScaleLeft(t, c.vertical)), c.origin), offset))
  }

  /** For a camera with an orthonormal basis and a sample strictly inside the
      unit disk of the plane `z = 0`, the ray origin lies on the lens: in the
      plane through the camera's origin orthogonal to `w`, within
      `lens_radius` of that origin. */
  lemma RayStartsOnLens(c: Camera, s: real, t: real, sample: Vec3)
    requires Orthonormal(c)
    requires sample.z == 0.0 && sample.x * sample.x + sample.y * sample.y < 1.0
    ensures var offset := Sub(GetRay(c, s, t, sample).orig, c.origin);
      Dot(offset, c.w) == 0.0 && LengthSquared(offset) <= c.lensRadius * c.lensRadius
  {
    var a := c.lensRadius * sample.x;
    var b := c.lensRadius * sample.y;
    var offset := LensOffset(c, sample);
    LensOffsetInPlane(c, sample, a, b);
    assert Sub(GetRay(c, s, t, sample).orig, c.origin) == offset;
    PlaneCombination(c.u, c.v, c.w, a, b);
    ScaledDiskBound(c.lensRadius, sample.x, sample.y, a, b);
  }

  /** The lens offset is the combination `a u + b v` with `(a, b)` the
      scaled sample. */
  lemma LensOffsetInPlane(c: Camera, sample: Vec3, a: real, b: real)
    requires a == c.lensRadius * sample.x && b == c.lensRadius * sample.y
    ensures LensOffset(c, sample) == Add(ScaleLeft(a, c.u), ScaleLeft(b, c.v))
  {
    var rd := ScaleLeft(c.lensRadius, sample);
    assert X(rd) == a && Y(rd) == b;
  }

  /** A combination `a u + b v` of orthonormal `u`, `v` is orthogonal to any
      `w` orthogonal to both, and has squared length `a^2 + b^2`. */
  lemma PlaneCombination(u: Vec3, v: Vec3, w: Vec3, a: real, b: real)
    requires LengthSquared(u) == 1.0 && LengthSquared(v) == 1.0 && Dot(u, v) == 0.0
    requires Dot(u, w) == 0.0 && Dot(v, w) == 0.0
    ensures Dot(Add(ScaleLeft(a, u), ScaleLeft(b, v)), w) == 0.0
    ensures LengthSquared(Add(ScaleLeft(a, u), ScaleLeft(b, v))) == a * a + b * b
  {
    DotLaws(ScaleLeft(a, u), w, ScaleLeft(b, v), a);
    DotLaws(u, w, v, a);
    DotLaws(v, w, u, b);
    LengthSquaredAdd(ScaleLeft(a, u), v, b);
    LengthSquaredScale(u, a);
    DotLaws(u, v, u, a);
  }

  /** `a^2 + b^2 <= r^2` for `(a, b) = r (x, y)` with `x^2 + y^2 < 1`. */
  lemma ScaledDiskBound(r: real, x: real, y: real, a: real, b: real)
    requires x * x + y * y < 1.0 && a == r * x && b == r * y
    ensures a * a + b * b <= r * r
  {
    var d2 := x * x + y * y;
    assert a * a + b * b == (r * r) * d2;
    SquareNonNegative(r);
    ProductBounds(r * r, 1.0 - d2);
  }
}
