/** Free functions on vectors (src/utils/vec3_utils.rs): dot and cross
    products, normalisation, reflection, refraction and the lens sampler. */
module VecUtils {
  import opened Floats
  import opened Options
  import opened Vectors

  /** `dot`: the sum of the lane-wise products. */
  function Dot(u: Vec3, v: Vec3): real
  {
    u.x * v.x + u.y * v.y + u.z * v.z
  }

  /** `dot` is symmetric, a vector dotted with itself is its squared length,
      and it is linear in its first argument. */
  lemma DotLaws(u: Vec3, v: Vec3, w: Vec3, k: real)
    ensures Dot(u, v) == Dot(v, u)
    ensures Dot(v, v) == LengthSquared(v)
    ensures Dot(Scale(u, k), v) == k * Dot(u, v) && Dot(ScaleLeft(k, u), v) == k * Dot(u, v)
    ensures Dot(Add(u, w), v) == Dot(u, v) + Dot(w, v)
    ensures Dot(Sub(u, w), v) == Dot(u, v) - Dot(w, v)
    ensures Dot(Neg(u), v) == -Dot(u, v)
  {
  }

  /** `cross`: the result is orthogonal to both operands. */
  function Cross(u: Vec3, v: Vec3): (r: Vec3)
    ensures Dot(r, u) == 0.0 && Dot(r, v) == 0.0
  {
    Vec3(u.y * v.z - u.z * v.y,
         u.z * v.x - u.x * v.z,
         u.x * v.y - u.y * v.x)
  }

  /** A vector crossed with itself is zero, and the unit tests' values. */
  lemma CrossExamples(v: Vec3)
    ensures Cross(v, v) == New()
    ensures Cross(Vec3(1.0, 0.0, 0.0), Vec3(0.0, 1.0, 0.0)) == Vec3(0.0, 0.0, 1.0)
    ensures Dot(Vec3(1.0, 1.0, 1.0), Vec3(1.0, 1.0, 1.0)) == 3.0
    ensures Dot(Vec3(1.0, 1.0, 1.0), Vec3(1.0, 2.0, 3.0)) == 6.0
  {
  }

  /** Lagrange's identity: |u x v|^2 = |u|^2 |v|^2 - (u . v)^2. */
  lemma Lagrange(u: Vec3, v: Vec3)
    ensures LengthSquared(Cross(u, v)) == LengthSquared(u) * LengthSquared(v) - Dot(u, v) * Dot(u, v)
  {
  }

  /** Cauchy-Schwarz for unit vectors: their dot product lies in [-1, 1]. */
  lemma UnitDotBounds(u: Vec3, v: Vec3)
    requires LengthSquared(u) == 1.0 && LengthSquared(v) == 1.0
    ensures -1.0 <= Dot(u, v) <= 1.0
  {
    Lagrange(u, v);
    var d := Dot(u, v);
    assert LengthSquared(Cross(u, v)) == 1.0 - d * d;
    SquareAtMostOne(d);
  }

  lemma SquareAtMostOne(d: real)
    requires d * d <= 1.0
    ensures -1.0 <= d <= 1.0
  {
    if d > 1.0 {
      ProductBounds(d - 1.0, d + 1.0);
    } else if d < -1.0 {
      ProductBounds(-1.0 - d, 1.0 - d);
    }
  }

  /** Scaling multiplies the squared length by the square of the factor. */
  lemma LengthSquaredScale(v: Vec3, k: real)
    ensures LengthSquared(Scale(v, k)) == k * k * LengthSquared(v)
    ensures LengthSquared(ScaleLeft(k, v)) == k * k * LengthSquared(v)
  {
  }

  /** `unit_vector`: `v / |v|`; it has length 1 and points along `v`. */
  function UnitVector(sqrt: real -> real, v: Vec3): (r: Vec3)
    requires IsSqrt(sqrt)
    requires v != New()
    ensures LengthSquared(r) == 1.0
    ensures Scale(r, Length(sqrt, v)) == v
  {
    var len := Length(sqrt, v);
    UnitVectorLength(v, len);
    OperatorLaws(v, v, len);
    Div(v, len)
  }

  lemma UnitVectorLength(v: Vec3, len: real)
    requires len > 0.0 && len * len == LengthSquared(v)
    ensures LengthSquared(Div(v, len)) == 1.0
  {
    var k := 1.0 / len;
    LengthSquaredScale(v, k);
    assert k * len == 1.0;
    calc {
      k * k * LengthSquared(v);
      k * k * (len * len);
      (k * len) * (k * len);
    }
  }

  /** A unit vector is its own normalisation. */
  lemma UnitVectorIdempotent(sqrt: real -> real, v: Vec3)
    requires IsSqrt(sqrt)
    requires v != New()
    ensures UnitVector(sqrt, v) != New()
    ensures UnitVector(sqrt, UnitVector(sqrt, v)) == UnitVector(sqrt, v)
  {
    var u := UnitVector(sqrt, v);
    assert LengthSquared(u) == 1.0;
    SqrtOfSquare(sqrt, 1.0);
    assert Length(sqrt, u) == 1.0;
    assert Div(u, 1.0) == u;
  }

  /** `unit_vector((1, 1, 1)) == (1, 1, 1) / sqrt(3)`. */
  lemma UnitVectorExample(sqrt: real -> real)
    requires IsSqrt(sqrt)
    ensures UnitVector(sqrt, Vec3(1.0, 1.0, 1.0)) == Div(Vec3(1.0, 1.0, 1.0), sqrt(3.0))
  {
    assert LengthSquared(Vec3(1.0, 1.0, 1.0)) == 3.0;
  }

  /** `Vec3::random_unit_vector`: the normalised unit-sphere sample. */
  function RandomUnitVector(sqrt: real -> real, sample: Vec3): (r: Vec3)
    requires IsSqrt(sqrt)
    requires sample != New()
    ensures LengthSquared(r) == 1.0
  {
    UnitVector(sqrt, sample)
  }

  /** `reflect`: `v - 2 (v . n) n`.  Reflection changes `v` only along
      `n`, and for a unit normal it negates the normal component. */
  function Reflect(v: Vec3, n: Vec3): (r: Vec3)
    ensures Cross(Sub(v, r), n) == New()
    ensures LengthSquared(n) == 1.0 ==> Dot(r, n) == -Dot(v, n)
  {
    var k := 2.0 * Dot(v, n);
    DotScaledSelf(n, k);
    CrossScaledSelf(n, k);
    assert Sub(v, Sub(v, ScaleLeft(k, n))) == ScaleLeft(k, n);
    Sub(v, ScaleLeft(k, n))
  }

  /** `(k n) x n = 0`. */
  lemma CrossScaledSelf(n: Vec3, k: real)
    ensures Cross(ScaleLeft(k, n), n) == New()
  {
    assert k * n.y * n.z == k * n.z * n.y;
    assert k * n.z * n.x == k * n.x * n.z;
    assert k * n.x * n.y == k * n.y * n.x;
  }

  /** For a unit normal, reflection negates the normal component, keeps the
      length, and reflecting twice gives back the vector. */
  lemma ReflectLaws(v: Vec3, n: Vec3)
    requires LengthSquared(n) == 1.0
    ensures Dot(Reflect(v, n), n) == -Dot(v, n)
    ensures LengthSquared(Reflect(v, n)) == LengthSquared(v)
    ensures Reflect(Reflect(v, n), n) == v
  {
    ReflectLength(v, n);
    ReflectTwice(v, n);
  }

  /** `(k n) . n = k |n|^2`. */
  lemma DotScaledSelf(n: Vec3, k: real)
    ensures Dot(ScaleLeft(k, n), n) == k * LengthSquared(n)
  {
    DistributeSum(k, n.x * n.x, n.y * n.y, n.z * n.z, LengthSquared(n));
  }

  /** `(k u) . n = k (u . n)`. */
  lemma DotScale(u: Vec3, n: Vec3, k: real)
    ensures Dot(Scale(u, k), n) == k * Dot(u, n)
  {
    DistributeSum(k, u.x * n.x, u.y * n.y, u.z * n.z, Dot(u, n));
  }

  /** Normalising a nonzero vector keeps the sign of its dot products. */
  lemma UnitDotSign(sqrt: real -> real, d: Vec3, n: Vec3)
    requires IsSqrt(sqrt) && d != New()
    ensures Dot(d, n) < 0.0 <==> Dot(UnitVector(sqrt, d), n) < 0.0
  {
    DotScale(UnitVector(sqrt, d), n, Length(sqrt, d));
    SignOfProduct(Length(sqrt, d), Dot(UnitVector(sqrt, d), n));
  }

  lemma ReflectTwice(v: Vec3, n: Vec3)
    requires LengthSquared(n) == 1.0
    ensures Reflect(Reflect(v, n), n) == v
  {
    var k := 2.0 * Dot(v, n);
    var r := Reflect(v, n);
    assert 2.0 * Dot(r, n) == -k;
    AddBack(v, n, k);
  }

  /** Moving `v` by `-k n` and then by `k n` gives back `v`. */
  lemma AddBack(v: Vec3, n: Vec3, k: real)
    ensures Sub(Sub(v, ScaleLeft(k, n)), ScaleLeft(-k, n)) == v
  {
  }

  lemma ReflectLength(v: Vec3, n: Vec3)
    requires LengthSquared(n) == 1.0
    ensures LengthSquared(Reflect(v, n)) == LengthSquared(v)
  {
    ReflectSquare(v, n, Dot(v, n), Reflect(v, n));
  }

  /** `ReflectLength` for a reflection given lane by lane. */
  lemma ReflectSquare(v: Vec3, n: Vec3, d: real, q: Vec3)
    requires LengthSquared(n) == 1.0 && d == Dot(v, n)
    requires q.x == v.x - 2.0 * d * n.x && q.y == v.y - 2.0 * d * n.y && q.z == v.z - 2.0 * d * n.z
    ensures LengthSquared(q) == LengthSquared(v)
  {
    LengthSquaredExpand(v, n, -2.0 * d, q);
  }

  /** `min`: `x` when `x < y`, otherwise `y`. */
  function Min(x: real, y: real): (r: real)
    ensures r <= x && r <= y
    ensures r == x || r == y
  {
    if x < y then x else y
  }

  /** The perpendicular part of `refract`: `eta (uv + cos_theta n)`.  For
      unit `uv` and `n` the clamp never bites, so it is `eta` times the part
      of `uv` tangential to the surface, `uv - (uv . n) n`, and orthogonal to
      `n`. */
  function RefractPerp(uv: Vec3, n: Vec3, etaiOverEtat: real): (r: Vec3)
    ensures LengthSquared(uv) == 1.0 && LengthSquared(n) == 1.0 ==>
      r == ScaleLeft(etaiOverEtat, Sub(uv, ScaleLeft(Dot(uv, n), n))) && Dot(r, n) == 0.0
  {
    ClampedPerp(uv, n, etaiOverEtat);
    NegatedOffset(uv, n, Dot(uv, n));
    var cosTheta := Min(Dot(Neg(uv), n), 1.0);
    ScaleLeft(etaiOverEtat, Add(uv, ScaleLeft(cosTheta, n)))
  }

  /** `refract`: the perpendicular part plus `-sqrt(|1 - |perp|^2|) n`.  For
      unit `uv` and `n` the result leaves on the far side of the surface
      (`r . n <= 0`), its tangential part is `eta` times that of `uv`
      (Snell's law), and its squared length is `|perp|^2 + |1 - |perp|^2|`:
      exactly 1 when `|perp| <= 1`, and never below 1. */
  function Refract(sqrt: real -> real, uv: Vec3, n: Vec3, etaiOverEtat: real): (r: Vec3)
    requires IsSqrt(sqrt)
    ensures LengthSquared(uv) == 1.0 && LengthSquared(n) == 1.0 ==>
      Dot(r, n) <= 0.0 &&
      Sub(r, ScaleLeft(Dot(r, n), n)) == ScaleLeft(etaiOverEtat, Sub(uv, ScaleLeft(Dot(uv, n), n)))
    ensures LengthSquared(uv) == 1.0 && LengthSquared(n) == 1.0 ==>
      LengthSquared(r) >= 1.0 && (LengthSquared(RefractPerp(uv, n, etaiOverEtat)) <= 1.0 ==> LengthSquared(r) == 1.0)
  {
    var rOutPerp := RefractPerp(uv, n, etaiOverEtat);
    var s := sqrt(Abs(1.0 - LengthSquared(rOutPerp)));
    RefractParts(sqrt, uv, n, etaiOverEtat, rOutPerp, s);
    RefractDirection(sqrt, uv, n, etaiOverEtat, rOutPerp, s);
    var rOutParallel := ScaleLeft(-s, n);
    Add(rOutPerp, rOutParallel)
  }

  /** For unit `uv` and `n` the clamp leaves `cos_theta = -(uv . n)`, and
      the perpendicular part `eta (uv + cos_theta n)` is orthogonal to `n`. */
  lemma ClampedPerp(uv: Vec3, n: Vec3, eta: real)
    ensures LengthSquared(uv) == 1.0 && LengthSquared(n) == 1.0 ==>
      Min(Dot(Neg(uv), n), 1.0) == -Dot(uv, n) && Dot(ScaleLeft(eta, Add(uv, ScaleLeft(-Dot(uv, n), n))), n) == 0.0
  {
    if LengthSquared(uv) == 1.0 && LengthSquared(n) == 1.0 {
      UnitDotBounds(uv, n);
      DotScale(uv, n, -1.0);
      assert Scale(uv, -1.0) == Neg(uv);
      DotScaledSelf(n, -Dot(uv, n));
      DotScale(Add(uv, ScaleLeft(-Dot(uv, n), n)), n, eta);
    }
  }

  /** |p + k n|^2 = |p|^2 + 2 k (p . n) + k^2 |n|^2. */
  lemma LengthSquaredAdd(p: Vec3, n: Vec3, k: real)
    ensures LengthSquared(Add(p, ScaleLeft(k, n))) == LengthSquared(p) + 2.0 * k * Dot(p, n) + k * k * LengthSquared(n)
  {
    LengthSquaredExpand(p, n, k, Add(p, ScaleLeft(k, n)));
  }

  /** `LengthSquaredAdd` lane by lane, for a sum given by name. */
  lemma LengthSquaredExpand(p: Vec3, n: Vec3, k: real, q: Vec3)
    requires q.x == p.x + k * n.x && q.y == p.y + k * n.y && q.z == p.z + k * n.z
    ensures LengthSquared(q) == LengthSquared(p) + 2.0 * k * Dot(p, n) + k * k * LengthSquared(n)
  {
    LaneExpand(p.x, n.x, k, q.x);
    LaneExpand(p.y, n.y, k, q.y);
    LaneExpand(p.z, n.z, k, q.z);
    DistributeSum(2.0 * k, p.x * n.x, p.y * n.y, p.z * n.z, Dot(p, n));
    DistributeSum(k * k, n.x * n.x, n.y * n.y, n.z * n.z, LengthSquared(n));
  }

  /** The length argument of `refract`, for its two parts given by name:
      the perpendicular part `p` is orthogonal to the unit normal, and the
      parallel part `-s n` adds `s^2 = |1 - |p|^2|` to its squared length. */
  lemma RefractParts(sqrt: real -> real, uv: Vec3, n: Vec3, eta: real, p: Vec3, s: real)
    requires IsSqrt(sqrt) && p == RefractPerp(uv, n, eta) && s == sqrt(Abs(1.0 - LengthSquared(p)))
    ensures LengthSquared(uv) == 1.0 && LengthSquared(n) == 1.0 ==>
      LengthSquared(Add(p, ScaleLeft(-s, n))) >= 1.0 &&
      (LengthSquared(p) <= 1.0 ==> LengthSquared(Add(p, ScaleLeft(-s, n))) == 1.0)
  {
    if LengthSquared(uv) == 1.0 && LengthSquared(n) == 1.0 {
      var l := LengthSquared(p);
      var q := Abs(1.0 - l);
      SqrtSquares(sqrt, q, s);
      assert Dot(p, n) == 0.0;
      var k := -s;
      OrthogonalSum(p, n, k);
      AbsComplete(l, s, q, k, LengthSquared(Add(p, ScaleLeft(k, n))));
    }
  }

  /** The direction argument of `refract`, for its two parts given by name:
      the parallel part `-s n` points into the surface, and removing it
      leaves the perpendicular part. */
  lemma RefractDirection(sqrt: real -> real, uv: Vec3, n: Vec3, eta: real, p: Vec3, s: real)
    requires IsSqrt(sqrt) && p == RefractPerp(uv, n, eta) && s == sqrt(Abs(1.0 - LengthSquared(p)))
    ensures LengthSquared(uv) == 1.0 && LengthSquared(n) == 1.0 ==>
      Dot(Add(p, ScaleLeft(-s, n)), n) <= 0.0 &&
      Sub(Add(p, ScaleLeft(-s, n)), ScaleLeft(Dot(Add(p, ScaleLeft(-s, n)), n), n)) == p
  {
    if LengthSquared(uv) == 1.0 && LengthSquared(n) == 1.0 {
      var q := Abs(1.0 - LengthSquared(p));
      SqrtSquares(sqrt, q, s);
      var k := -s;
      TangentialPart(p, n, k, Add(p, ScaleLeft(k, n)));
    }
  }

  /** For `p` orthogonal to the unit vector `n`, `r = p + k n` has normal
      component `k`, and removing it gives `p` back. */
  lemma TangentialPart(p: Vec3, n: Vec3, k: real, r: Vec3)
    requires LengthSquared(n) == 1.0 && Dot(p, n) == 0.0 && r == Add(p, ScaleLeft(k, n))
    ensures Dot(r, n) == k && Sub(r, ScaleLeft(Dot(r, n), n)) == p
  {
    DotScaledSelf(n, k);
    assert Dot(r, n) == Dot(p, n) + Dot(ScaleLeft(k, n), n);
  }

  /** Adding `-d n` is subtracting `d n`. */
  lemma NegatedOffset(v: Vec3, n: Vec3, d: real)
    ensures Add(v, ScaleLeft(-d, n)) == Sub(v, ScaleLeft(d, n))
  {
  }

  /** `l + |1 - l|` is at least 1, and exactly 1 when `l <= 1`. */
  lemma AbsComplete(l: real, s: real, q: real, k: real, m: real)
    requires q == Abs(1.0 - l) && s * s == q && k == -s && m == l + k * k
    ensures m >= 1.0 && (l <= 1.0 ==> m == 1.0)
  {
    assert k * k == s * s;
  }

  /** |p + k n|^2 = |p|^2 + k^2 for `p` orthogonal to the unit vector `n`. */
  lemma OrthogonalSum(p: Vec3, n: Vec3, k: real)
    ensures LengthSquared(n) == 1.0 && Dot(p, n) == 0.0 ==> LengthSquared(Add(p, ScaleLeft(k, n))) == LengthSquared(p) + k * k
  {
    LengthSquaredAdd(p, n, k);
  }

  /** With matched indices (`eta = 1`), unit `uv` and `n`, and `uv` not
      pointing along `n`, `refract` returns `uv` undeviated. */
  lemma RefractMatched(sqrt: real -> real, uv: Vec3, n: Vec3)
    requires IsSqrt(sqrt)
    requires LengthSquared(uv) == 1.0 && LengthSquared(n) == 1.0
    requires Dot(uv, n) <= 0.0
    ensures Refract(sqrt, uv, n, 1.0) == uv
  {
    MatchedPerp(uv, n);
    MatchedRefract(sqrt, uv, n, -Dot(uv, n));
  }

  /** `RefractMatched` with `c = -(uv . n)` given by name. */
  lemma MatchedRefract(sqrt: real -> real, uv: Vec3, n: Vec3, c: real)
    requires IsSqrt(sqrt)
    requires LengthSquared(uv) == 1.0 && LengthSquared(n) == 1.0 && c == -Dot(uv, n) && c >= 0.0
    requires RefractPerp(uv, n, 1.0) == Add(uv, ScaleLeft(c, n))
    ensures Refract(sqrt, uv, n, 1.0) == uv
  {
    MatchedSquare(uv, n, c);
    MatchedParts(sqrt, uv, n, c, LengthSquared(Add(uv, ScaleLeft(c, n))), Add(uv, ScaleLeft(c, n)), Refract(sqrt, uv, n, 1.0));
  }

  /** With `eta = 1` the perpendicular part is `uv - (uv . n) n`. */
  lemma MatchedPerp(uv: Vec3, n: Vec3)
    requires LengthSquared(uv) == 1.0 && LengthSquared(n) == 1.0
    ensures RefractPerp(uv, n, 1.0) == Add(uv, ScaleLeft(-Dot(uv, n), n))
  {
    ClampedPerp(uv, n, 1.0);
    ScaleByOne(Add(uv, ScaleLeft(-Dot(uv, n), n)));
  }

  /** `(uv + c n) - sqrt(c^2) n = uv` for `c >= 0`. */
  lemma MatchedParts(sqrt: real -> real, uv: Vec3, n: Vec3, c: real, l: real, p: Vec3, q: Vec3)
    requires IsSqrt(sqrt) && c >= 0.0
    requires p == Add(uv, ScaleLeft(c, n)) && Abs(1.0 - l) == c * c
    requires q == Add(p, ScaleLeft(-sqrt(Abs(1.0 - l)), n))
    ensures q == uv
  {
    SqrtOfSquare(sqrt, c);
    Cancel(uv, n, c, q);
  }

  /** With `eta = 1` and `c = -(uv . n)`, `|1 - |perp|^2| = c^2`. */
  lemma MatchedSquare(uv: Vec3, n: Vec3, c: real)
    requires LengthSquared(uv) == 1.0 && LengthSquared(n) == 1.0 && c == -Dot(uv, n)
    ensures Abs(1.0 - LengthSquared(Add(uv, ScaleLeft(c, n)))) == c * c
  {
    LengthSquaredAdd(uv, n, c);
    Substitute(LengthSquared(Add(uv, ScaleLeft(c, n))), c, Dot(uv, n), LengthSquared(uv), LengthSquared(n));
  }

  /** Scaling by one changes nothing. */
  lemma ScaleByOne(v: Vec3)
    ensures ScaleLeft(1.0, v) == v
  {
  }

  /** `a + 2 c d + c^2 b = 1 - c^2` when `a = b = 1` and `d = -c`. */
  lemma Substitute(l: real, c: real, d: real, a: real, b: real)
    requires a == 1.0 && b == 1.0 && d == -c && l == a + 2.0 * c * d + c * c * b
    ensures Abs(1.0 - l) == c * c
  {
    assert c * d == -(c * c);
    SquareNonNegative(c);
  }

  /** Adding `c n` and then `-c n` gives the vector back. */
  lemma Cancel(uv: Vec3, n: Vec3, c: real, q: Vec3)
    requires q == Add(Add(uv, ScaleLeft(c, n)), ScaleLeft(-c, n))
    ensures q == uv
  {
  }

  // ------------------------------------------------------------ lens sampler

  /** The candidate point built from two uniform draws: both in-plane lanes
      from `random_f64_range(-1.0, 1.0)`, and `z = 0`. */
  function DiskCandidate(draw: (real, real)): (p: Vec3)
    ensures p.z == 0.0
    ensures IsUnitDraw(draw.0) && IsUnitDraw(draw.1) ==> -1.0 <= p.x < 1.0 && -1.0 <= p.y < 1.0
  {
    Vec3(RandomRange(-1.0, 1.0, draw.0), RandomRange(-1.0, 1.0, draw.1), 0.0)
  }

  /** The first candidate strictly inside the unit disk, or `None` if the
      finite supply of draws runs out. */
  function FirstInUnitDisk(draws: seq<(real, real)>): (r: Option<Vec3>)
    ensures r.Some? ==> r.value.z == 0.0 && LengthSquared(r.value) < 1.0
    ensures r.Some? ==> exists i :: FirstInDisk(draws, i) && r.value == DiskCandidate(draws[i])
    ensures r.None? <==> forall i :: 0 <= i < |draws| ==> LengthSquared(DiskCandidate(draws[i])) >= 1.0
    decreases |draws|
  {
    if draws == [] then None
    else if LengthSquared(DiskCandidate(draws[0])) < 1.0 then
      assert FirstInDisk(draws, 0);
      Some(DiskCandidate(draws[0]))
    else
      assert forall i :: 1 <= i < |draws| ==> draws[i] == draws[1..][i - 1];
      var rest := FirstInUnitDisk(draws[1..]);
      FirstInDiskShift(draws, rest);
      rest
  }

  /** The candidate of draw `i` is strictly inside the unit disk and those of
      every earlier draw are not. */
  predicate FirstInDisk(draws: seq<(real, real)>, i: int)
  {
    0 <= i < |draws| && LengthSquared(DiskCandidate(draws[i])) < 1.0
    && forall j :: 0 <= j < i ==> LengthSquared(DiskCandidate(draws[j])) >= 1.0
  }

  /** Behind a rejected first draw, the first accepted draw of the tail is
      the first accepted draw of the whole sequence. */
  lemma FirstInDiskShift(draws: seq<(real, real)>, r: Option<Vec3>)
    requires |draws| > 0 && LengthSquared(DiskCandidate(draws[0])) >= 1.0
    ensures (r.Some? ==> exists i :: FirstInDisk(draws[1..], i) && r.value == DiskCandidate(draws[1..][i]))
        ==> (r.Some? ==> exists i :: FirstInDisk(draws, i) && r.value == DiskCandidate(draws[i]))
  {
    if r.Some? && exists i :: FirstInDisk(draws[1..], i) && r.value == DiskCandidate(draws[1..][i]) {
      var i :| FirstInDisk(draws[1..], i) && r.value == DiskCandidate(draws[1..][i]);
      assert FirstInDisk(draws, i + 1);
    }
  }

  /** `random_in_unit_disk`: the rejection loop over successive pairs of draws. */
  method RandomInUnitDisk(draws: seq<(real, real)>) returns (r: Option<Vec3>)
    ensures r == FirstInUnitDisk(draws)
  {
    var i := 0;
    while i < |draws|
      invariant 0 <= i <= |draws|
      invariant FirstInUnitDisk(draws) == FirstInUnitDisk(draws[i..])
    {
      var p := Vec3(RandomRange(-1.0, 1.0, draws[i].0), RandomRange(-1.0, 1.0, draws[i].1), 0.0);
      assert draws[i..][1..] == draws[i + 1..];
      if LengthSquared(p) < 1.0 {
        return Some(p);
      }
      i := i + 1;
    }
    return None;
  }
}
