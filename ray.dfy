/** A half-line `orig + t dir` (src/rays/ray.rs). */
module Rays {
  import opened Vectors

  datatype Ray = Ray(orig: Vec3, dir: Vec3)

  /** `origin`: the stored origin, unchanged. */
  function Origin(r: Ray): (o: Vec3)
    ensures Ray(o, r.dir) == r
  {
    r.orig
  }

  /** `direction`: the stored direction, unchanged. */
  function Direction(r: Ray): (d: Vec3)
    ensures Ray(r.orig, d) == r
  {
    r.dir
  }

  /** `at(t) = orig + t dir`: the point at parameter `t`, which differs from
      the origin by exactly `t dir`. */
  function At(r: Ray, t: real): (p: Vec3)
    ensures Sub(p, r.orig) == ScaleLeft(t, r.dir)
  {
    Add(r.orig, ScaleLeft(t, r.dir))
  }

  /** Two points on a ray differ by the parameter difference times the
      direction; in particular `at(0)` is the origin. */
  lemma AtDifference(r: Ray, t1: real, t2: real)
    ensures Sub(At(r, t1), At(r, t2)) == ScaleLeft(t1 - t2, r.dir)
    ensures At(r, 0.0) == r.orig
  {
  }

  /** The unit tests: a ray from the origin along (1, 0, 0). */
  lemma RayExamples()
    ensures Origin(Ray(New(), Vec3(1.0, 0.0, 0.0))) == New()
    ensures Direction(Ray(New(), Vec3(1.0, 0.0, 0.0))) == Vec3(1.0, 0.0, 0.0)
    ensures At(Ray(New(), Vec3(1.0, 0.0, 0.0)), 2.0) == Vec3(2.0, 0.0, 0.0)
  {
  }
}
