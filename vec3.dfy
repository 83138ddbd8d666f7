/** The three-component vector used for points, directions and colours
    (src/vectors/vec3.rs), over exact reals. */
module Vectors {
  import opened Floats
  import opened Options

  /** A `Vec3`: the three lanes `vector3[0..3]`. */
  datatype Vec3 = Vec3(x: real, y: real, z: real)

  /** Threshold of `near_zero`. */
  const NearZeroEpsilon: real := 1.0e-8

  /** `Vec3::new`: the zero vector. */
  function New(): (v: Vec3)
    ensures v == NewWithValues(0.0, 0.0, 0.0)
  {
    Vec3(0.0, 0.0, 0.0)
  }

  /** `Vec3::new_with_values`; the accessors give back the three arguments. */
  function NewWithValues(x: real, y: real, z: real): (v: Vec3)
    ensures X(v) == x && Y(v) == y && Z(v) == z
    ensures Index(v, 0) == Some(x) && Index(v, 1) == Some(y) && Index(v, 2) == Some(z)
  {
    Vec3(x, y, z)
  }

  /** `x()`, `y()`, `z()`: lanes 0, 1 and 2, the same values indexing gives. */
  function X(v: Vec3): (r: real)
    ensures Index(v, 0) == Some(r)
  {
    v.x
  }

  function Y(v: Vec3): (r: real)
    ensures Index(v, 1) == Some(r)
  {
    v.y
  }

  function Z(v: Vec3): (r: real)
    ensures Index(v, 2) == Some(r)
  {
    v.z
  }

  /** `Index<usize>`: lane `i`; an index past the three lanes panics (`None`). */
  function Index(v: Vec3, i: nat): (r: Option<real>)
    ensures r.Some? <==> i < 3
  {
    if i == 0 then Some(v.x)
    else if i == 1 then Some(v.y)
    else if i == 2 then Some(v.z)
    else None
  }

  /** `length_squared`: the sum of the squared lanes. */
  function LengthSquared(v: Vec3): (r: real)
    ensures r >= 0.0
    ensures r == 0.0 <==> v == New()
  {
    SquareNonNegative(v.x);
    SquareNonNegative(v.y);
    SquareNonNegative(v.z);
    v.x * v.x + v.y * v.y + v.z * v.z
  }

  lemma SquareNonNegative(a: real)
    ensures a * a >= 0.0
    ensures a * a == 0.0 <==> a == 0.0
  {
    if a * a == 0.0 {
      ZeroProduct(a, a);
    }
  }

  /** `length`: the square root of `length_squared`. */
  function Length(sqrt: real -> real, v: Vec3): (r: real)
    requires IsSqrt(sqrt)
    ensures r >= 0.0 && r * r == LengthSquared(v)
    ensures r == 0.0 <==> v == New()
  {
    var squared := LengthSquared(v);
    SqrtPositive(sqrt, squared);
    assert sqrt(squared) >= 0.0 && sqrt(squared) * sqrt(squared) == squared;
    sqrt(squared)
  }

  /** `length() <= 1.0` is the same test as `length_squared() <= 1.0`. */
  lemma LengthAtMostOne(sqrt: real -> real, v: Vec3)
    requires IsSqrt(sqrt)
    ensures Length(sqrt, v) <= 1.0 <==> LengthSquared(v) <= 1.0
  {
    SqrtAtMostOne(sqrt, LengthSquared(v));
  }

  /** `near_zero`: every lane is below 1e-8 in absolute value. */
  function NearZero(v: Vec3): (b: bool)
    ensures b <==> Abs(X(v)) < NearZeroEpsilon && Abs(Y(v)) < NearZeroEpsilon && Abs(Z(v)) < NearZeroEpsilon
    ensures v == New() ==> b
    ensures !b ==> v != New()
  {
    Abs(Index(v, 0).value) < NearZeroEpsilon
      && Abs(Index(v, 1).value) < NearZeroEpsilon
      && Abs(Index(v, 2).value) < NearZeroEpsilon
  }

  // ---------------------------------------------------------------- operators

  /** `Add`: the lane-wise sum. */
  function Add(u: Vec3, v: Vec3): (r: Vec3)
    ensures X(r) == X(u) + X(v) && Y(r) == Y(u) + Y(v) && Z(r) == Z(u) + Z(v)
  {
    Vec3(u.x + v.x, u.y + v.y, u.z + v.z)
  }

  /** `Sub`: the lane-wise difference; it is zero exactly when `u == v`. */
  function Sub(u: Vec3, v: Vec3): (r: Vec3)
    ensures X(r) == X(u) - X(v) && Y(r) == Y(u) - Y(v) && Z(r) == Z(u) - Z(v)
    ensures r == New() <==> u == v
  {
    Vec3(u.x - v.x, u.y - v.y, u.z - v.z)
  }

  /** `Mul` of two vectors: the lane-wise (Hadamard) product. */
  function Mul(u: Vec3, v: Vec3): (r: Vec3)
    ensures X(r) == X(u) * X(v) && Y(r) == Y(u) * Y(v) && Z(r) == Z(u) * Z(v)
  {
    Vec3(u.x * v.x, u.y * v.y, u.z * v.z)
  }

  /** `Mul<f64> for Vec3`: every lane times `s`. */
  function Scale(v: Vec3, s: real): (r: Vec3)
    ensures X(r) == X(v) * s && Y(r) == Y(v) * s && Z(r) == Z(v) * s
  {
    Vec3(v.x * s, v.y * s, v.z * s)
  }

  /** `Mul<Vec3> for f64`: the same result as `Scale` with the operands swapped. */
  function ScaleLeft(s: real, v: Vec3): (r: Vec3)
    ensures r == Scale(v, s)
  {
    Vec3(v.x * s, v.y * s, v.z * s)
  }

  /** `Div<f64>`: multiplication by `1 / s`, so every lane is divided by `s`. */
  function Div(v: Vec3, s: real): (r: Vec3)
    requires s != 0.0
    ensures X(r) == X(v) / s && Y(r) == Y(v) / s && Z(r) == Z(v) / s
  {
    Scale(v, 1.0 / s)
  }

  /** `Neg`: every lane times -1. */
  function Neg(v: Vec3): (r: Vec3)
    ensures X(r) == -X(v) && Y(r) == -Y(v) && Z(r) == -Z(v)
  {
    Vec3(v.x * -1.0, v.y * -1.0, v.z * -1.0)
  }

  /** The operators act lane by lane: `+` and `-` undo each other, `v - v`
      is zero, scalar multiplication gives the same result in both operand
      orders and equals the lane-wise product with `(s, s, s)`, `v / s`
      scaled back by `s` is `v`, and `-v` is the additive inverse. */
  lemma OperatorLaws(u: Vec3, v: Vec3, s: real)
    ensures Sub(Add(u, v), v) == u && Add(Sub(u, v), v) == u
    ensures Add(u, v) == Add(v, u) && Mul(u, v) == Mul(v, u)
    ensures Sub(v, v) == New()
    ensures ScaleLeft(s, v) == Scale(v, s) == Mul(v, Vec3(s, s, s))
    ensures s != 0.0 ==> Scale(Div(v, s), s) == v
    ensures Add(v, Neg(v)) == New() && Neg(Neg(v)) == v
  {
  }

  /** The values the unit tests of `vec3.rs` expect. */
  lemma OperatorExamples()
    ensures LengthSquared(Vec3(2.0, 2.0, 2.0)) == 12.0
    ensures Add(Vec3(1.0, 2.0, 3.0), Vec3(1.0, 2.0, 3.0)) == Vec3(2.0, 4.0, 6.0)
    ensures Mul(Vec3(1.0, 2.0, 3.0), Vec3(1.0, 2.0, 3.0)) == Vec3(1.0, 4.0, 9.0)
    ensures Scale(Vec3(1.0, 2.0, 3.0), 2.0) == ScaleLeft(2.0, Vec3(1.0, 2.0, 3.0)) == Vec3(2.0, 4.0, 6.0)
    ensures Sub(Vec3(1.0, 2.0, 3.0), Vec3(1.0, 2.0, 3.0)) == New()
    ensures Div(Vec3(1.0, 2.0, 3.0), 2.0) == Vec3(0.5, 1.0, 1.5)
    ensures Neg(Vec3(1.0, 2.0, 3.0)) == Vec3(-1.0, -2.0, -3.0)
    ensures Index(Vec3(1.0, 2.0, 3.0), 0) == Some(1.0) && Index(Vec3(1.0, 2.0, 3.0), 1) == Some(2.0)
    ensures Index(Vec3(1.0, 2.0, 3.0), 2) == Some(3.0)
  {
  }

  // ---------------------------------------------------------------- sampling

  /** What `rand::random::<f64>()` yields. */
  predicate IsUnitDraw(u: real)
  {
    0.0 <= u < 1.0
  }

  /** `random_f64_range(min, max)` for the uniform draw `u`. */
  function RandomRange(min: real, max: real, u: real): (r: real)
    ensures IsUnitDraw(u) && min < max ==> min <= r < max
  {
    AffineDrawBounds(min, max, u);
    min + (max - min) * u
  }

  lemma AffineDrawBounds(min: real, max: real, u: real)
    ensures IsUnitDraw(u) && min < max ==> min <= min + (max - min) * u < max
  {
    if IsUnitDraw(u) && min < max {
      ScaledDraw(max - min, u, (max - min) * u);
    }
  }

  /** `Vec3::random_vec3` for the three draws. */
  function RandomVec3(u1: real, u2: real, u3: real): (v: Vec3)
    ensures IsUnitDraw(u1) && IsUnitDraw(u2) && IsUnitDraw(u3) ==> InUnitCube(v)
  {
    Vec3(u1, u2, u3)
  }

  /** `Vec3::random_vec3_min_max` for the three draws. */
  function RandomVec3MinMax(min: real, max: real, u1: real, u2: real, u3: real): (v: Vec3)
    ensures IsUnitDraw(u1) && IsUnitDraw(u2) && IsUnitDraw(u3) && min < max ==>
      min <= v.x < max && min <= v.y < max && min <= v.z < max
  {
    Vec3(RandomRange(min, max, u1), RandomRange(min, max, u2), RandomRange(min, max, u3))
  }

  /** Every lane in [0, 1): the range of `random_vec3`. */
  predicate InUnitCube(v: Vec3)
  {
    IsUnitDraw(v.x) && IsUnitDraw(v.y) && IsUnitDraw(v.z)
  }

  /** The sample the rejection loop of `random_in_unit_sphere` returns when
      its successive `random_vec3()` values are `candidates`: the first one
      whose length is at most 1, or `None` if the finite supply runs out. */
  function FirstInUnitSphere(sqrt: real -> real, candidates: seq<Vec3>): (r: Option<Vec3>)
    requires IsSqrt(sqrt)
    ensures r.Some? ==> r.value in candidates && LengthSquared(r.value) <= 1.0
    ensures r.Some? ==> exists i :: FirstInBall(candidates, i) && r.value == candidates[i]
    ensures r.None? <==> forall i :: 0 <= i < |candidates| ==> LengthSquared(candidates[i]) > 1.0
    decreases |candidates|
  {
    if candidates == [] then None
    else
      LengthAtMostOne(sqrt, candidates[0]);
      if Length(sqrt, candidates[0]) <= 1.0 then
        assert FirstInBall(candidates, 0);
        Some(candidates[0])
      else
        var rest := FirstInUnitSphere(sqrt, candidates[1..]);
        FirstInBallShift(candidates, rest);
        rest
  }

  /** Candidate `i` is in the unit ball and every earlier one is outside it. */
  predicate FirstInBall(candidates: seq<Vec3>, i: int)
  {
    0 <= i < |candidates| && LengthSquared(candidates[i]) <= 1.0
    && forall j :: 0 <= j < i ==> LengthSquared(candidates[j]) > 1.0
  }

  /** Behind a rejected head, the first accepted candidate of the tail is
      the first accepted candidate of the whole sequence. */
  lemma FirstInBallShift(candidates: seq<Vec3>, r: Option<Vec3>)
    requires |candidates| > 0 && LengthSquared(candidates[0]) > 1.0
    ensures (r.Some? ==> exists i :: FirstInBall(candidates[1..], i) && r.value == candidates[1..][i])
        ==> (r.Some? ==> exists i :: FirstInBall(candidates, i) && r.value == candidates[i])
  {
    if r.Some? && exists i :: FirstInBall(candidates[1..], i) && r.value == candidates[1..][i] {
      var i :| FirstInBall(candidates[1..], i) && r.value == candidates[1..][i];
      assert FirstInBall(candidates, i + 1);
    }
  }

  /** `Vec3::random_in_unit_sphere`: the retry loop over the successive
      `random_vec3()` values. */
  method RandomInUnitSphere(sqrt: real -> real, candidates: seq<Vec3>) returns (r: Option<Vec3>)
    requires IsSqrt(sqrt)
    ensures r == FirstInUnitSphere(sqrt, candidates)
  {
    var i := 0;
    while i < |candidates|
      invariant 0 <= i <= |candidates|
      invariant FirstInUnitSphere(sqrt, candidates) == FirstInUnitSphere(sqrt, candidates[i..])
    {
      var randomVec := candidates[i];
      assert candidates[i..][1..] == candidates[i + 1..];
      if Length(sqrt, randomVec) <= 1.0 {
        return Some(randomVec);
      }
      i := i + 1;
    }
    return None;
  }

  /** As written, the candidates are `random_vec3()` values, whose lanes lie
      in [0, 1): every sample the loop can return lies in the positive
      octant, so a point of the unit ball such as (-0.5, 0, 0) is never drawn. */
  lemma InUnitSphereAsWritten(sqrt: real -> real, candidates: seq<Vec3>)
    requires IsSqrt(sqrt)
    requires forall i :: 0 <= i < |candidates| ==> InUnitCube(candidates[i])
    ensures var r := FirstInUnitSphere(sqrt, candidates);
      r.Some? ==> r.value.x >= 0.0 && r.value.y >= 0.0 && r.value.z >= 0.0 && r.value != Vec3(-0.5, 0.0, 0.0)
  {
  }

  /** With candidates drawn by `random_vec3_min_max(-1.0, 1.0)`, as a sampler
      of the unit ball needs, every point strictly inside the ball is the
      sample returned for a suitable draw. */
  lemma InUnitSphereCorrected(sqrt: real -> real, p: Vec3)
    requires IsSqrt(sqrt)
    requires LengthSquared(p) < 1.0
    ensures var u := Vec3((p.x + 1.0) / 2.0, (p.y + 1.0) / 2.0, (p.z + 1.0) / 2.0);
      InUnitCube(u) && FirstInUnitSphere(sqrt, [RandomVec3MinMax(-1.0, 1.0, u.x, u.y, u.z)]) == Some(p)
  {
    LaneBelowOne(p.x, p.y, p.z);
    LaneBelowOne(p.y, p.x, p.z);
    LaneBelowOne(p.z, p.x, p.y);
    var u := Vec3((p.x + 1.0) / 2.0, (p.y + 1.0) / 2.0, (p.z + 1.0) / 2.0);
    assert RandomVec3MinMax(-1.0, 1.0, u.x, u.y, u.z) == p;
    LengthAtMostOne(sqrt, p);
  }

  lemma LaneBelowOne(a: real, b: real, c: real)
    requires a * a + b * b + c * c < 1.0
    ensures -1.0 < a < 1.0
  {
    SquareNonNegative(b);
    SquareNonNegative(c);
  }

  // ------------------------------------------------------ in-place operators

  /** A `Vec3` place updated through `&mut self`: the compound assignments
      and `IndexMut`. */
  class MutableVec3 {
    var vector3: Vec3

    constructor (v: Vec3)
      ensures vector3 == v
    {
      vector3 := v;
    }

    /** `+=`: the receiver becomes `old + other`. */
    method AddAssign(other: Vec3)
      modifies this
      ensures vector3 == Add(old(vector3), other)
    {
      vector3 := Vec3(vector3.x + other.x, vector3.y + other.y, vector3.z + other.z);
    }

    /** `*=`: the receiver becomes `old * s`. */
    method MulAssign(s: real)
      modifies this
      ensures vector3 == Scale(old(vector3), s)
    {
      vector3 := Vec3(vector3.x * s, vector3.y * s, vector3.z * s);
    }

    /** `/=`: lane-wise division, which equals the pure `Div` (multiplication by `1 / s`). */
    method DivAssign(s: real)
      requires s != 0.0
      modifies this
      ensures vector3 == Div(old(vector3), s)
    {
      vector3 := Vec3(vector3.x / s, vector3.y / s, vector3.z / s);
    }

    /** `self[i] = value` through `IndexMut`: lanes 0..2 are writable and only
        lane `i` changes; any other index panics and nothing changes. */
    method IndexMut(i: nat, value: real) returns (panicked: bool)
      modifies this
      ensures panicked <==> i >= 3
      ensures panicked ==> vector3 == old(vector3)
      ensures !panicked ==> Index(vector3, i) == Some(value)
      ensures forall j: nat :: j != i ==> Index(vector3, j) == Index(old(vector3), j)
    {
      match i
      case 0 => vector3 := vector3.(x := value); panicked := false;
      case 1 => vector3 := vector3.(y := value); panicked := false;
      case 2 => vector3 := vector3.(z := value); panicked := false;
      case _ => panicked := true;
    }
  }
}
