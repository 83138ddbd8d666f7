/** The renderer's core in src/main.rs: the depth-bounded `ray_color`
    recursion, the per-pixel average of samples and the output row flip. */
module Render {
  import opened Floats
  import opened Options
  import opened Vectors
  import opened VecUtils
  import opened Rays
  import opened Materials
  import opened Hittables
  import opened Spheres
  import opened HittableLists
  import Cameras
  import LambertianMaterial
  import MetalMaterial
  import DielectricMaterial

  // ---------------------------------------------------------------- constants

  const AspectRatio: real := 16.0 / 9.0
  const ImageWidth: int := 1920
  /** `(IMAGE_WIDTH as f64 / ASPECT_RATIO) as u32`: the cast truncates. */
  const ImageHeight: int := (ImageWidth as real / AspectRatio).Floor
  const SamplesPerPixel: int := 100
  const MaxDepth: int := 50
  /** The lower end of the interval the scene is queried over. */
  const TMin: real := 0.001

  /** The frame is 1920 by 1080 pixels. */
  lemma ImageDimensions()
    ensures ImageWidth == 1920 && ImageHeight == 1080
  {
    assert ImageWidth as real / AspectRatio == 1080.0;
  }

  // ---------------------------------------------------------------- scattering

  /** The per-bounce random input: the unit-sphere sample that Lambertian
      and Metal use, and the uniform draw Dielectric uses. */
  datatype Draw = Draw(sample: Vec3, uniform: real)

  /** The materials `scatter` can be called on without dividing by zero. */
  predicate ValidMaterial(m: Material)
  {
    m.Dielectric? ==> m.ir != 0.0 && m.ir != -1.0
  }

  /** `rec.mat_ptr.scatter(r, &rec)`: the dynamic dispatch on the material.
      A scattered ray leaves the hit point with the material's attenuation
      (the albedo, or white glass); only Metal ever absorbs.  Only the
      Lambertian case normalises the sample, so only it needs it nonzero. */
  function ScatterBy(sqrt: real -> real, m: Material, rIn: Ray, rec: Hit, d: Draw): (res: Option<Scattering>)
    requires IsSqrt(sqrt) && rIn.dir != New() && ValidMaterial(m) && (m.Lambertian? ==> d.sample != New())
    ensures res.Some? ==> res.value.scattered.orig == rec.p
    ensures m.Lambertian? || m.Dielectric? ==> res.Some?
    ensures res.Some? ==> res.value.attenuation == (if m.Dielectric? then DielectricMaterial.Clear else m.albedo)
  {
    match m
    case Lambertian(albedo) => LambertianMaterial.Scatter(sqrt, albedo, rIn, rec, d.sample)
    case Metal(albedo, fuzz) => MetalMaterial.Scatter(sqrt, albedo, fuzz, rIn, rec, d.sample)
    case Dielectric(ir) => DielectricMaterial.Scatter(sqrt, ir, rIn, rec, d.uniform)
  }

  /** Off a unit normal no material scatters along the zero vector, so the
      scattered ray can be normalised again one bounce deeper. */
  lemma ScatteredDirectionNonZero(sqrt: real -> real, m: Material, rIn: Ray, rec: Hit, d: Draw)
    requires IsSqrt(sqrt) && rIn.dir != New() && ValidMaterial(m) && (m.Lambertian? ==> d.sample != New())
    requires LengthSquared(rec.normal) == 1.0
    ensures var res := ScatterBy(sqrt, m, rIn, rec, d);
      res.Some? ==> res.value.scattered.dir != New()
  {
    match m
    case Lambertian(albedo) => LambertianMaterial.ScattersOutward(sqrt, albedo, rIn, rec, d.sample);
    case Metal(albedo, fuzz) =>
    case Dielectric(ir) => DielectricMaterial.DirectionNonZero(sqrt, ir, rIn, rec, d.uniform);
  }

  // ---------------------------------------------------------------- ray_color

  /** Every sphere has a nonzero radius and a valid material. */
  predicate ValidWorld(world: seq<Sphere>)
  {
    ValidObjects(world) && forall i :: 0 <= i < |world| ==> ValidMaterial(world[i].mat)
  }

  /** Every per-bounce sample is nonzero (`unit_vector` divides by its length). */
  predicate ValidDraws(draws: seq<Draw>)
  {
    forall i :: 0 <= i < |draws| ==> draws[i].sample != New()
  }

  /** The background on a miss: the blend `(1 - t) (1, 1, 1) + t (0.5, 0.7, 1)`
      with `t = 0.5 (unit_direction.y + 1)`, which runs from white looking
      straight down to sky blue looking straight up: every colour lies on the
      segment between the two, at the point `t` given by the unit direction's
      `y`, so that the red lane is `1 - 0.5 t = 0.75 - 0.25 y`. */
  function Sky(sqrt: real -> real, r: Ray): (c: Vec3)
    requires IsSqrt(sqrt) && r.dir != New()
    ensures 0.5 <= c.x <= 1.0 && 0.7 <= c.y <= 1.0 && c.z == 1.0
    ensures c.y - 0.7 == 0.6 * (c.x - 0.5)
    ensures c.x == 0.75 - 0.25 * Y(UnitVector(sqrt, r.dir))
  {
    var unitDirection := UnitVector(sqrt, Direction(r));
    UnitLaneBound(unitDirection);
    var t := 0.5 * (Y(unitDirection) + 1.0);
    Add(ScaleLeft(1.0 - t, NewWithValues(1.0, 1.0, 1.0)), ScaleLeft(t, NewWithValues(0.5, 0.7, 1.0)))
  }

  /** A lane of a unit vector lies in `[-1, 1]`. */
  lemma UnitLaneBound(v: Vec3)
    requires LengthSquared(v) == 1.0
    ensures -1.0 <= v.y <= 1.0
  {
    SquareNonNegative(v.x);
    SquareNonNegative(v.z);
    SquareAtMostOne(v.y);
  }

  /** The sky grows bluer as the ray turns upwards: a ray whose unit
      direction has the larger `y` gets the smaller red and green lanes, and
      two rays whose unit directions share `y` get the same colour. */
  lemma SkyBluerUpwards(sqrt: real -> real, r1: Ray, r2: Ray)
    requires IsSqrt(sqrt) && r1.dir != New() && r2.dir != New()
    requires Y(UnitVector(sqrt, r1.dir)) <= Y(UnitVector(sqrt, r2.dir))
    ensures Sky(sqrt, r2).x <= Sky(sqrt, r1).x && Sky(sqrt, r2).y <= Sky(sqrt, r1).y
    ensures Y(UnitVector(sqrt, r1.dir)) == Y(UnitVector(sqrt, r2.dir)) ==> Sky(sqrt, r1) == Sky(sqrt, r2)
  {
  }

  /** Looking straight up the sky is exactly `(0.5, 0.7, 1.0)`. */
  lemma SkyStraightUp(sqrt: real -> real, o: Vec3, k: real)
    requires IsSqrt(sqrt) && k > 0.0
    ensures Sky(sqrt, Ray(o, Vec3(0.0, k, 0.0))) == Vec3(0.5, 0.7, 1.0)
  {
    var up := Ray(o, Vec3(0.0, k, 0.0));
    VerticalUnit(sqrt, k);
    assert UnitVector(sqrt, Direction(up)) == Vec3(0.0, 1.0, 0.0);
    assert Sky(sqrt, up) == Add(ScaleLeft(0.0, NewWithValues(1.0, 1.0, 1.0)), ScaleLeft(1.0, NewWithValues(0.5, 0.7, 1.0)));
  }

  /** Looking straight down the sky is white. */
  lemma SkyStraightDown(sqrt: real -> real, o: Vec3, k: real)
    requires IsSqrt(sqrt) && k > 0.0
    ensures Sky(sqrt, Ray(o, Vec3(0.0, -k, 0.0))) == Vec3(1.0, 1.0, 1.0)
  {
    var down := Ray(o, Vec3(0.0, -k, 0.0));
    VerticalUnit(sqrt, -k);
    assert UnitVector(sqrt, Direction(down)) == Vec3(0.0, -1.0, 0.0);
    assert Sky(sqrt, down) == Add(ScaleLeft(1.0, NewWithValues(1.0, 1.0, 1.0)), ScaleLeft(0.0, NewWithValues(0.5, 0.7, 1.0)));
  }

  /** A vertical direction normalises to straight up or straight down. */
  lemma VerticalUnit(sqrt: real -> real, y: real)
    requires IsSqrt(sqrt) && y != 0.0
    ensures UnitVector(sqrt, Vec3(0.0, y, 0.0)) == Vec3(0.0, if y > 0.0 then 1.0 else -1.0, 0.0)
  {
    var v := Vec3(0.0, y, 0.0);
    var a := Abs(y);
    assert LengthSquared(v) == a * a;
    SqrtOfSquare(sqrt, a);
    assert Length(sqrt, v) == a;
    assert UnitVector(sqrt, v) == Div(v, a);
  }

  /** `ray_color(r, world, depth)`.  `draws` supplies one `Draw` per bounce,
      in order.  Black once the depth is spent; the sky on a miss over
      `[0.001, INFINITY)`; black when the material absorbs; otherwise the
      attenuation times the colour of the scattered ray one level deeper.
      Light is only ever attenuated: when every albedo is in `[0, 1]^3`, the
      colour is in `[0, 1]^3` at every depth. */
  function RayColor(sqrt: real -> real, r: Ray, world: seq<Sphere>, depth: int, draws: seq<Draw>): (color: Vec3)
    requires IsSqrt(sqrt) && r.dir != New() && ValidWorld(world) && ValidDraws(draws)
    requires depth <= |draws|
    ensures AlbedosInRange(world) ==> InColorRange(color)
    decreases depth, 1
  {
    if depth <= 0 then New()
    else
      match ClosestHit(sqrt, world, r, TMin, Infinity)
      case None => Sky(sqrt, r)
      case Some(rec) => Bounce(sqrt, r, world, depth, draws, rec)
  }

  /** The hit case of `ray_color`: the material of the record scatters the
      ray with the first draw; black when it absorbs, otherwise the
      attenuation times the colour of the scattered ray one level deeper,
      on the remaining draws. */
  function Bounce(sqrt: real -> real, r: Ray, world: seq<Sphere>, depth: int, draws: seq<Draw>, rec: Hit): (color: Vec3)
    requires IsSqrt(sqrt) && r.dir != New() && ValidWorld(world) && ValidDraws(draws)
    requires 0 < depth <= |draws| && ClosestHit(sqrt, world, r, TMin, Infinity) == Some(rec)
    ensures AlbedosInRange(world) ==> InColorRange(color)
    decreases depth, 0
  {
    ClosestHitOnSurface(sqrt, world, r, TMin, Infinity);
    ScatteredDirectionNonZero(sqrt, rec.mat, r, rec, draws[0]);
    match ScatterBy(sqrt, rec.mat, r, rec, draws[0])
    case None => New()
    case Some(s) =>
      var deeper := RayColor(sqrt, s.scattered, world, depth - 1, draws[1..]);
      ProductInRange(s.attenuation, deeper);
      Mul(s.attenuation, deeper)
  }

  /** `ray_color` without recursing: black once the depth is spent, whatever
      the ray and the scene; the sky when nothing is hit over
      `[0.001, INFINITY)`.  A hit, when there is one, carries the material of
      some sphere of the world. */
  lemma RayColorStops(sqrt: real -> real, r: Ray, world: seq<Sphere>, depth: int, draws: seq<Draw>)
    requires IsSqrt(sqrt) && r.dir != New() && ValidWorld(world) && ValidDraws(draws)
    requires depth <= |draws|
    ensures depth <= 0 ==> RayColor(sqrt, r, world, depth, draws) == New()
    ensures depth > 0 && ClosestHit(sqrt, world, r, TMin, Infinity).None? ==> RayColor(sqrt, r, world, depth, draws) == Sky(sqrt, r)
    ensures ClosestHit(sqrt, world, r, TMin, Infinity).Some? ==> ValidMaterial(ClosestHit(sqrt, world, r, TMin, Infinity).value.mat)
  {
    ClosestHitOnSurface(sqrt, world, r, TMin, Infinity);
  }

  /** `ray_color` on a hit: black when the material absorbs the ray;
      otherwise the scattered ray has a direction again, and the colour is
      the attenuation times the colour one level deeper, on the remaining
      draws. */
  lemma RayColorBounces(sqrt: real -> real, r: Ray, world: seq<Sphere>, depth: int, draws: seq<Draw>, rec: Hit)
    requires IsSqrt(sqrt) && r.dir != New() && ValidWorld(world) && ValidDraws(draws)
    requires 0 < depth <= |draws|
    requires ClosestHit(sqrt, world, r, TMin, Infinity) == Some(rec) && ValidMaterial(rec.mat)
    ensures var res := ScatterBy(sqrt, rec.mat, r, rec, draws[0]);
      (res.None? ==> RayColor(sqrt, r, world, depth, draws) == New()) &&
      (res.Some? ==> (res.value.scattered.dir != New() &&
        RayColor(sqrt, r, world, depth, draws) == Mul(res.value.attenuation, RayColor(sqrt, res.value.scattered, world, depth - 1, draws[1..]))))
  {
    ClosestHitOnSurface(sqrt, world, r, TMin, Infinity);
    ScatteredDirectionNonZero(sqrt, rec.mat, r, rec, draws[0]);
  }

  /** A colour whose three channels lie in `[0, 1]`. */
  predicate InColorRange(c: Vec3)
  {
    0.0 <= c.x <= 1.0 && 0.0 <= c.y <= 1.0 && 0.0 <= c.z <= 1.0
  }

  /** Every Lambertian and Metal albedo in the world is a colour in range. */
  predicate AlbedosInRange(world: seq<Sphere>)
  {
    forall i :: 0 <= i < |world| ==> (world[i].mat.Dielectric? || InColorRange(world[i].mat.albedo))
  }

  /** The lane-wise product of two colours in range is in range. */
  lemma ProductInRange(a: Vec3, b: Vec3)
    ensures InColorRange(a) && InColorRange(b) ==> InColorRange(Mul(a, b))
  {
    if InColorRange(a) && InColorRange(b) {
      ProductBounds(a.x, b.x);
      ProductBounds(a.y, b.y);
      ProductBounds(a.z, b.z);
    }
  }

  /** In an empty world every ray with depth left sees the sky. */
  lemma EmptyWorldShowsSky(sqrt: real -> real, r: Ray, depth: int, draws: seq<Draw>)
    requires IsSqrt(sqrt) && r.dir != New() && ValidDraws(draws)
    requires 0 < depth <= |draws|
    ensures RayColor(sqrt, r, [], depth, draws) == Sky(sqrt, r)
  {
  }

  // ---------------------------------------------------------------- pixels

  /** The inputs of one sample: the two jitter draws `rng.gen::<f64>()`,
      the lens sample `random_in_unit_disk` returned, and the per-bounce
      draws. */
  datatype PixelSample = PixelSample(jitterU: real, jitterV: real, disk: Vec3, draws: seq<Draw>)

  /** `u = (x + jitter) / (IMAGE_WIDTH - 1)`. */
  function ViewportU(x: int, jitter: real): real
  {
    (x as real + jitter) / (ImageWidth - 1) as real
  }

  /** `v = (y + jitter) / (IMAGE_HEIGHT - 1)`. */
  function ViewportV(y: int, jitter: real): real
  {
    ImageDimensions();
    (y as real + jitter) / (ImageHeight - 1) as real
  }

  /** A jitter in `[0, 1)` keeps the sample inside the pixel's own cell of
      the viewport: `u` lies in `[x, x + 1) / (IMAGE_WIDTH - 1)`, and
      likewise for `v`. */
  lemma SampleInPixel(x: int, y: int, ju: real, jv: real)
    requires 0.0 <= ju < 1.0 && 0.0 <= jv < 1.0
    ensures x as real / (ImageWidth - 1) as real <= ViewportU(x, ju) < (x + 1) as real / (ImageWidth - 1) as real
    ensures y as real / (ImageHeight - 1) as real <= ViewportV(y, jv) < (y + 1) as real / (ImageHeight - 1) as real
  {
    ImageDimensions();
  }

  /** The camera ray of one sample for pixel `(x, y)`. */
  function SampleRay(cam: Cameras.Camera, x: int, y: int, p: PixelSample): Ray
  {
    Cameras.GetRay(cam, ViewportU(x, p.jitterU), ViewportV(y, p.jitterV), p.disk)
  }

  /** A sample whose camera ray can be traced to `MAX_DEPTH`. */
  predicate ValidSample(cam: Cameras.Camera, x: int, y: int, p: PixelSample)
  {
    SampleRay(cam, x, y, p).dir != New() && ValidDraws(p.draws) && MaxDepth <= |p.draws|
  }

  /** The colour of one sample: `ray_color(cam.get_ray(u, v), world, MAX_DEPTH)`. */
  function SampleColor(sqrt: real -> real, cam: Cameras.Camera, world: seq<Sphere>, x: int, y: int, p: PixelSample): Vec3
    requires IsSqrt(sqrt) && ValidWorld(world) && ValidSample(cam, x, y, p)
  {
    RayColor(sqrt, SampleRay(cam, x, y, p), world, MaxDepth, p.draws)
  }

  /** The lane-wise sum of a sequence of colours, first to last. */
  function Sum(colors: seq<Vec3>): Vec3
  {
    if colors == [] then New() else Add(Sum(colors[..|colors| - 1]), colors[|colors| - 1])
  }

  /** The per-sample colours of a pixel. */
  function SampleColors(sqrt: real -> real, cam: Cameras.Camera, world: seq<Sphere>, x: int, y: int, samples: seq<PixelSample>): (cs: seq<Vec3>)
    requires IsSqrt(sqrt) && ValidWorld(world)
    requires forall i :: 0 <= i < |samples| ==> ValidSample(cam, x, y, samples[i])
    ensures |cs| == |samples|
    ensures forall i :: 0 <= i < |samples| ==> cs[i] == SampleColor(sqrt, cam, world, x, y, samples[i])
  {
    seq(|samples|, i requires 0 <= i < |samples| => SampleColor(sqrt, cam, world, x, y, samples[i]))
  }

  /** The body of the per-pixel closure: `SAMPLES_PER_PIXEL` camera rays
      traced and accumulated with `+=`, then divided by the sample count.
      The result is the mean of the sample colours. */
  method PixelColor(sqrt: real -> real, cam: Cameras.Camera, world: seq<Sphere>, x: int, y: int, samples: seq<PixelSample>) returns (color: Vec3)
    requires IsSqrt(sqrt) && ValidWorld(world) && |samples| == SamplesPerPixel
    requires forall i :: 0 <= i < |samples| ==> ValidSample(cam, x, y, samples[i])
    ensures color == Div(Sum(SampleColors(sqrt, cam, world, x, y, samples)), SamplesPerPixel as real)
  {
    ghost var colors := SampleColors(sqrt, cam, world, x, y, samples);
    var totalColor := new MutableVec3(New());
    for i := 0 to SamplesPerPixel
      invariant totalColor.vector3 == Sum(colors[..i])
    {
      totalColor.AddAssign(SampleColor(sqrt, cam, world, x, y, samples[i]));
      SumStep(colors, i);
    }
    assert colors[..SamplesPerPixel] == colors;
    color := Div(totalColor.vector3, SamplesPerPixel as real);
  }

  /** One more colour adds onto the running sum. */
  lemma SumStep(colors: seq<Vec3>, i: nat)
    requires i < |colors|
    ensures Sum(colors[..i + 1]) == Add(Sum(colors[..i]), colors[i])
  {
    assert colors[..i + 1][..i] == colors[..i];
  }

  /** Each channel of a sum of `n` in-range colours lies in `[0, n]`. */
  lemma {:induction false} SumInRange(colors: seq<Vec3>)
    requires forall i :: 0 <= i < |colors| ==> InColorRange(colors[i])
    ensures var s := Sum(colors); var n := |colors| as real;
      0.0 <= s.x <= n && 0.0 <= s.y <= n && 0.0 <= s.z <= n
    decreases |colors|
  {
    if colors != [] {
      SumInRange(colors[..|colors| - 1]);
    }
  }

  /** The average of in-range colours is in range: with every albedo in
      `[0, 1]^3` each pixel's colour is too. */
  lemma PixelColorInRange(sqrt: real -> real, cam: Cameras.Camera, world: seq<Sphere>, x: int, y: int, samples: seq<PixelSample>)
    requires IsSqrt(sqrt) && ValidWorld(world) && AlbedosInRange(world) && |samples| == SamplesPerPixel
    requires forall i :: 0 <= i < |samples| ==> ValidSample(cam, x, y, samples[i])
    ensures InColorRange(Div(Sum(SampleColors(sqrt, cam, world, x, y, samples)), SamplesPerPixel as real))
  {
    var colors := SampleColors(sqrt, cam, world, x, y, samples);
    forall i | 0 <= i < |colors|
      ensures InColorRange(colors[i])
    {
      var p := samples[i];
      assert colors[i] == RayColor(sqrt, SampleRay(cam, x, y, p), world, MaxDepth, p.draws);
    }
    SumInRange(colors);
  }

  // ---------------------------------------------------------------- output

  /** The row a result computed for image row `y` is written to:
      `IMAGE_HEIGHT - 1 - y`, which puts row 0 of the scan at the bottom. */
  function OutputRow(y: int): (row: int)
    ensures 0 <= y < ImageHeight <==> 0 <= row < ImageHeight
  {
    ImageHeight - 1 - y
  }

  /** For `y` in `[0, IMAGE_HEIGHT)` the written row is in range (the `u32`
      subtraction cannot underflow), distinct rows stay distinct, and the
      flip undoes itself. */
  lemma RowFlip(y: int, y': int)
    requires 0 <= y < ImageHeight && 0 <= y' < ImageHeight
    ensures 0 <= OutputRow(y) < ImageHeight
    ensures y != y' ==> OutputRow(y) != OutputRow(y')
    ensures OutputRow(OutputRow(y)) == y
  {
  }
}
