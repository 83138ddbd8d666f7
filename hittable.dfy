/** Hit records and the front-face rule (src/hittables/hittable.rs). */
module Hittables {
  import opened Vectors
  import opened VecUtils
  import opened Rays
  import opened Materials

  /** The contents of a `HitRecord`. */
  datatype Hit = Hit(p: Vec3, normal: Vec3, t: real, frontFace: bool, mat: Material)

  /** The `t_max: f64` of `Hittable::hit`, which may be `INFINITY`. */
  datatype Bound = Finite(value: real) | Infinity

  /** The test `t_max < t`; never true for an infinite bound. */
  predicate Exceeds(tMax: Bound, t: real)
  {
    tMax.Finite? && tMax.value < t
  }

  /** `t` lies in the closed interval `[t_min, t_max]`. */
  predicate InRange(t: real, tMin: real, tMax: Bound)
  {
    !(t < tMin || Exceeds(tMax, t))
  }

  /** `b` is no larger than `tMax`. */
  predicate AtMost(b: Bound, tMax: Bound)
  {
    tMax.Infinity? || (b.Finite? && b.value <= tMax.value)
  }

  /** The record after `set_face_normal(r, outward_normal)`: the ray meets
      the front face exactly when it runs against the outward normal, the
      stored normal always opposes the ray, and nothing else changes. */
  function FacedHit(h: Hit, r: Ray, outwardNormal: Vec3): (h': Hit)
    ensures h'.frontFace <==> Dot(r.dir, outwardNormal) < 0.0
    ensures h'.normal == if h'.frontFace then outwardNormal else Neg(outwardNormal)
    ensures Dot(r.dir, h'.normal) <= 0.0
    ensures LengthSquared(h'.normal) == LengthSquared(outwardNormal)
    ensures h'.p == h.p && h'.t == h.t && h'.mat == h.mat
  {
    var frontFace := Dot(Direction(r), outwardNormal) < 0.0;
    DotLaws(outwardNormal, r.dir, outwardNormal, -1.0);
    DotLaws(r.dir, outwardNormal, r.dir, -1.0);
    assert LengthSquared(Neg(outwardNormal)) == LengthSquared(outwardNormal);
    h.(frontFace := frontFace, normal := if frontFace then outwardNormal else Neg(outwardNormal))
  }

  /** The unit test: a ray along z grazing an x-facing surface meets its back face. */
  lemma GrazingRayIsBackFace(h: Hit)
    ensures var h' := FacedHit(h, Ray(New(), Vec3(0.0, 0.0, 1.0)), Vec3(1.0, 0.0, 0.0));
      !h'.frontFace && h'.normal == Vec3(-1.0, 0.0, 0.0)
  {
    assert Dot(Vec3(0.0, 0.0, 1.0), Vec3(1.0, 0.0, 0.0)) == 0.0;
    assert Neg(Vec3(1.0, 0.0, 0.0)) == Vec3(-1.0, 0.0, 0.0);
  }

  /** `HitRecord`, a record whose face fields are set in place. */
  class HitRecord {
    var p: Vec3
    var normal: Vec3
    var t: real
    var frontFace: bool
    var mat: Material

    constructor (p: Vec3, normal: Vec3, t: real, frontFace: bool, mat: Material)
      ensures Value() == Hit(p, normal, t, frontFace, mat)
    {
      this.p := p;
      this.normal := normal;
      this.t := t;
      this.frontFace := frontFace;
      this.mat := mat;
    }

    /** The record's fields as a value. */
    function Value(): Hit
      reads this
    {
      Hit(p, normal, t, frontFace, mat)
    }

    /** `set_face_normal`: assigns `front_face` and `normal`, nothing else. */
    method SetFaceNormal(r: Ray, outwardNormal: Vec3)
      modifies this
      ensures Value() == FacedHit(old(Value()), r, outwardNormal)
    {
      frontFace := Dot(Direction(r), outwardNormal) < 0.0;
      normal := match frontFace {
        case true => outwardNormal
        case false => Neg(outwardNormal)
      };
    }
  }
}
