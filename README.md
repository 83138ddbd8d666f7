# Ray tracing in one weekend — a Dafny model

This project models the core of a Rust implementation of *Ray Tracing in One
Weekend*: the three-lane vector type and its operators, the vector helpers
(`dot`, `cross`, `unit_vector`, `reflect`, `refract`, the unit-disk sampler),
rays, hit records and the front-face rule, the ray–sphere intersection, the
closest-hit scan over a list of spheres, the three materials (Lambertian,
Metal, Dielectric), the thin-lens camera, and the renderer's `ray_color`
recursion, per-pixel averaging and output row flip.

Arithmetic is over `real`. `f64::sqrt` is a parameter `sqrt: real -> real`
that is only known to satisfy `IsSqrt`: it returns the non-negative square
root of any non-negative input. Every random draw (`random_f64`, the
rejection samplers' candidates, `rng.gen`) is an explicit parameter, so each
operation is a function of its inputs.

Modules, one per source file:

| file | module | source |
|---|---|---|
| floats.dfy | `Floats` | `f64` helpers: `abs`, `powf(5.0)`, the square-root parameter |
| options.dfy | `Options` | Rust's `Option` |
| vec3.dfy | `Vectors` | src/vectors/vec3.rs |
| vec3_utils.dfy | `VecUtils` | src/utils/vec3_utils.rs |
| ray.dfy | `Rays` | src/rays/ray.rs |
| material.dfy | `Materials` | src/materials/material.rs, as a three-variant datatype |
| hittable.dfy | `Hittables` | src/hittables/hittable.rs |
| sphere.dfy | `Spheres` | src/hittables/sphere.rs |
| hittable_list.dfy | `HittableLists` | src/hittables/hittable_list.rs |
| lambertian.dfy, metal.dfy, dielectric.dfy | `LambertianMaterial`, `MetalMaterial`, `DielectricMaterial` | src/materials/*.rs |
| camera.dfy | `Cameras` | src/cameras/camera.rs |
| render.dfy | `Render` | src/main.rs |

The source's mutable state keeps its form. The compound assignments and
`IndexMut` of `Vec3` act on a class `MutableVec3`. `HitRecord` is a class
whose `SetFaceNormal` updates its fields in place. `HittableList` is a class
with a `seq` of spheres, and its `Hit` method runs the source's loop. The
per-pixel loop in `Render.PixelColor` accumulates into a `MutableVec3` with
`AddAssign`. Each of these methods is proved against a pure specification
function (`FacedHit`, `ClosestHit`, `Sum`), and the properties are proved as
lemmas about those functions.

Where the documentation and the code differ, the model follows the code:

- `Dielectric::scatter` passes `refraction_ratio`, not `ir`, to
  `reflectance`. The two give the same value for a positive index:
  `DielectricMaterial.ReflectanceReciprocal`.
- Glass of index 1 is not invisible. Schlick's term is `(1 - cos)^5`, which
  is positive, so such a sphere still mirrors some rays:
  `DielectricMaterial.MatchedReflectance`, `DielectricMaterial.MatchedIndex`.
- `random_in_unit_sphere` draws from `[0, 1)^3` rather than `[-1, 1)^3`
  (see Findings).

## Model

| member | source | states |
|---|---|---|
| Vectors.New | src/vectors/vec3.rs:12-16 | `Vec3::new()` is the vector with three zero lanes |
| Vectors.NewWithValues | src/vectors/vec3.rs:18-34 | `x()`, `y()`, `z()` and indices 0, 1, 2 return the three values passed in |
| Vectors.X | src/vectors/vec3.rs:24-26 | `x()` is the value at index 0 |
| Vectors.Y | src/vectors/vec3.rs:28-30 | `y()` is the value at index 1 |
| Vectors.Z | src/vectors/vec3.rs:32-34 | `z()` is the value at index 2 |
| Vectors.Index | src/vectors/vec3.rs:166-172 | indexing is defined exactly for 0, 1 and 2 |
| Vectors.LengthSquared | src/vectors/vec3.rs:40-42 | the squared length is non-negative, and zero exactly for the zero vector |
| Vectors.Length | src/vectors/vec3.rs:36-38 | the length is non-negative, squares to the squared length, and is zero exactly for the zero vector |
| Vectors.LengthAtMostOne | src/vectors/vec3.rs:36-38 | `length() <= 1` exactly when `length_squared() <= 1` |
| Vectors.NearZero | src/vectors/vec3.rs:74-77 | true exactly when all three lanes have absolute value below `1e-8`; the zero vector is near zero |
| Vectors.Add | src/vectors/vec3.rs:80-88 | lane-wise sum |
| Vectors.Sub | src/vectors/vec3.rs:90-98 | lane-wise difference, which is zero exactly when the operands are equal |
| Vectors.Mul | src/vectors/vec3.rs:100-108 | lane-wise product |
| Vectors.Scale | src/vectors/vec3.rs:110-118 | every lane times the scalar |
| Vectors.ScaleLeft | src/vectors/vec3.rs:120-128 | `s * v` equals `v * s` |
| Vectors.Div | src/vectors/vec3.rs:130-136 | every lane divided by the scalar |
| Vectors.Neg | src/vectors/vec3.rs:138-146 | every lane negated |
| Vectors.OperatorLaws | src/vectors/vec3.rs:80-146 | `+` and `-` undo each other; `+` and `*` commute; `v - v` is zero; `(v / s) * s == v`; `v + (-v)` is zero; `--v == v` |
| Vectors.OperatorExamples | src/vectors/vec3.rs:211-280 | the unit tests' values: `|(2,2,2)|^2 = 12`, `(1,2,3)/2 = (0.5,1,1.5)`, negation and indexing |
| Vectors.RandomRange | src/vectors/vec3.rs:50-59 | a draw in `[0,1)` maps into `[min, max)` |
| Vectors.RandomVec3 | src/vectors/vec3.rs:44-48 | three draws in `[0,1)` give a point of the unit cube `[0,1)^3` |
| Vectors.RandomVec3MinMax | src/vectors/vec3.rs:50-59 | three draws in `[0,1)` give a point of `[min,max)^3` |
| Vectors.FirstInUnitSphere | src/vectors/vec3.rs:61-68 | the result is the FIRST accepted candidate: some candidate `i` lies in the unit ball, equals the result, and every earlier candidate lies outside it; there is none exactly when every candidate is outside the ball |
| Vectors.RandomInUnitSphere | src/vectors/vec3.rs:61-68 | the rejection loop returns the first candidate of length at most 1 |
| Vectors.InUnitSphereAsWritten | src/vectors/vec3.rs:44-48 | with `random_vec3` candidates, every accepted sample lies in the positive octant, so `(-0.5, 0, 0)` is never returned |
| Vectors.InUnitSphereCorrected | src/vectors/vec3.rs:50-68 | with `random_vec3_min_max(-1, 1)` candidates, every point inside the unit ball is returned for a suitable draw |
| Vectors.MutableVec3.constructor | src/vectors/vec3.rs:6-9 | a `&mut Vec3` place (the `Vec3` struct, which the compound assignments update in place) holding the given vector |
| Vectors.MutableVec3.AddAssign | src/vectors/vec3.rs:148-152 | after `+=`, the place holds the sum of its old value and the operand |
| Vectors.MutableVec3.MulAssign | src/vectors/vec3.rs:154-158 | after `*=`, the place holds its old value scaled |
| Vectors.MutableVec3.DivAssign | src/vectors/vec3.rs:160-164 | after `/=`, the place holds its old value divided |
| Vectors.MutableVec3.IndexMut | src/vectors/vec3.rs:174-183 | indices 0 to 2 set that lane and no other; any other index panics and changes nothing |
| VecUtils.DotLaws | src/utils/vec3_utils.rs:5-7 | the laws of `dot` (`VecUtils.Dot`): it is symmetric and linear in each argument, and `dot(v, v)` is the squared length |
| VecUtils.Cross | src/utils/vec3_utils.rs:9-17 | the cross product is orthogonal to both operands |
| VecUtils.CrossExamples | src/utils/vec3_utils.rs:60-97 | `cross(v, v)` is zero, `cross(x, y) = z`, `dot((1,1,1),(1,2,3)) = 6` |
| VecUtils.Lagrange | src/utils/vec3_utils.rs:9-17 | `|u x v|^2 = |u|^2 |v|^2 - (u.v)^2` |
| VecUtils.UnitVector | src/utils/vec3_utils.rs:19-21 | a nonzero vector normalises to squared length 1, and scaling it back by the length gives the input |
| VecUtils.UnitVectorIdempotent | src/utils/vec3_utils.rs:19-21 | normalising a unit vector changes nothing |
| VecUtils.UnitVectorExample | src/utils/vec3_utils.rs:100-105 | `(1,1,1)` normalises to `(1,1,1) / sqrt(3)` |
| VecUtils.RandomUnitVector | src/vectors/vec3.rs:70-72 | a nonzero unit-sphere sample normalises to a unit vector |
| VecUtils.Reflect | src/utils/vec3_utils.rs:23-25 | `v - reflect(v, n)` is parallel to `n` (their cross product is zero); for a unit normal the normal component is negated |
| VecUtils.ReflectLaws | src/utils/vec3_utils.rs:23-25 | for a unit normal, reflection negates the normal component, keeps the length, and undoes itself |
| VecUtils.Min | src/utils/vec3_utils.rs:27-32 | the result is one of the arguments and at most both |
| VecUtils.RefractPerp | src/utils/vec3_utils.rs:35-36 | for unit `uv` and `n`, `r_out_perp` equals `eta (uv - (uv . n) n)`, i.e. `eta` times the tangential part of `uv`, and is orthogonal to `n` |
| VecUtils.ClampedPerp | src/utils/vec3_utils.rs:35-36 | for unit `uv` and `n` the clamp by `min(_, 1.0)` never bites: `cos_theta = -(uv . n)` |
| VecUtils.Refract | src/utils/vec3_utils.rs:34-39 | for unit `uv` and `n`: the result points into the surface (`r . n <= 0`); its tangential part `r - (r . n) n` is `eta (uv - (uv . n) n)` (Snell's law); its squared length is at least 1, and exactly 1 when the perpendicular part is at most unit length |
| VecUtils.RefractMatched | src/utils/vec3_utils.rs:34-39 | with ratio 1, unit inputs and `uv` against `n`, `refract` returns `uv` unchanged |
| VecUtils.DiskCandidate | src/utils/vec3_utils.rs:43-49 | a candidate has `z = 0`, and `x`, `y` in `[-1, 1)` |
| VecUtils.FirstInUnitDisk | src/utils/vec3_utils.rs:41-54 | the result is the FIRST accepted point: it has `z = 0` and squared length below 1, it is the candidate of some draw `i` inside the disk, and the candidate of every earlier draw is outside it; there is none exactly when every candidate is outside the disk |
| VecUtils.RandomInUnitDisk | src/utils/vec3_utils.rs:41-54 | the rejection loop returns the first candidate strictly inside the disk |
| Rays.Origin | src/rays/ray.rs:9-11 | returns the stored origin |
| Rays.Direction | src/rays/ray.rs:13-15 | returns the stored direction |
| Rays.At | src/rays/ray.rs:17-19 | `at(t) - orig = t * dir` |
| Rays.AtDifference | src/rays/ray.rs:17-19 | `at(t1) - at(t2) = (t1 - t2) * dir`, and `at(0) = orig` |
| Rays.RayExamples | src/rays/ray.rs:26-50 | the unit tests: along `(1,0,0)` from the origin, `at(2) = (2,0,0)` |
| Hittables.FacedHit | src/hittables/hittable.rs:18-24 | front face exactly when `dot(dir, outward) < 0`; the normal is the outward normal or its negation; it never points along the ray; `p`, `t` and the material are kept |
| Hittables.GrazingRayIsBackFace | src/hittables/hittable.rs:43-61 | a grazing ray meets the back face, with the normal negated |
| Hittables.HitRecord.SetFaceNormal | src/hittables/hittable.rs:18-24 | the record's new contents are `FacedHit` of its old contents |
| Spheres.Sphere.Hit | src/hittables/sphere.rs:28-60 | the method returns a fresh record exactly when `SphereHit` reports one, with the same contents |
| Spheres.SphereRecord | src/hittables/sphere.rs:48-57 | the record holds `t`, `p = at(t)` and the sphere's material; its normal is `±(p - center) / radius` and opposes the ray |
| Spheres.SphereHit | src/hittables/sphere.rs:29-46 | a negative discriminant gives none; a returned `t` is in `[t_min, t_max]` and is one of the two roots |
| Spheres.RootsOnSphere | src/hittables/sphere.rs:38-42 | near root <= far root, and both points lie on the sphere |
| Spheres.SphereHitOnSurface | src/hittables/sphere.rs:29-57 | a reported point lies on the sphere and the normal has unit length |
| Spheres.SphereHitNearest | src/hittables/sphere.rs:39-46 | whenever the ray meets the sphere at some `t` in range, a hit is reported at a `t` no larger |
| Spheres.SurfaceQuadratic | src/hittables/sphere.rs:29-34 | `|at(t) - center|^2 - radius^2` is the quadratic `a t^2 + 2 half_b t + c` with the coefficients `hit` computes |
| Spheres.QuadraticRoots | src/hittables/sphere.rs:34-42 | for `a > 0` and a non-negative discriminant, `(-half_b - sqrtd) / a <= (-half_b + sqrtd) / a` and both solve the quadratic |
| Spheres.RootsAreOnlySolutions | src/hittables/sphere.rs:34-42 | for `a > 0`, every solution of the quadratic is one of those two roots |
| Spheres.SphereHitShrink | src/hittables/sphere.rs:39-46 | lowering `t_max` keeps a hit at or below the new bound and loses any other |
| Spheres.SphereHitExactlyWhenMet | src/hittables/sphere.rs:29-46 | a hit is reported exactly when the ray meets the sphere somewhere in `[t_min, t_max]` |
| Spheres.SphereHitExample | src/hittables/sphere.rs:28-60 | the sphere at `(0,0,-1)` of radius 0.5, seen from the origin, is met on its front face at `t = 0.5` with normal `(0,0,1)` |
| HittableLists.Scan | src/hittables/hittable_list.rs:26-34 | `closest_so_far` is the kept record's `t`, or `t_max` when none; a kept record is in range |
| HittableLists.ClosestHit | src/hittables/hittable_list.rs:25-36 | a returned record lies in the closed interval `[t_min, t_max]` (the rest of its contract is `HittableLists.ClosestHitIsNearest`) |
| HittableLists.ClosestHitIsNearest | src/hittables/hittable_list.rs:25-36 | none exactly when no object is hit; otherwise the result is some object's own hit, no object has a nearer one, and every later object's hit is strictly farther (ties go to the later object) |
| HittableLists.ClosestNeverIncreases | src/hittables/hittable_list.rs:27-33 | `closest_so_far` after the scan is at most its value after any prefix, and at most `t_max` |
| HittableLists.ClosestHitOnSurface | src/hittables/hittable_list.rs:25-36 | a returned hit has a unit normal and lies on a sphere of the list, with that sphere's material |
| HittableLists.HittableList.constructor | src/hittables/hittable_list.rs:19-21 | the new list is empty |
| HittableLists.HittableList.Clear | src/hittables/hittable_list.rs:11-13 | the list becomes empty |
| HittableLists.HittableList.Add | src/hittables/hittable_list.rs:15-17 | the object is appended at the end |
| HittableLists.HittableList.Hit | src/hittables/hittable_list.rs:25-36 | the loop returns a fresh record whose contents are `ClosestHit`, and the list is unchanged |
| LambertianMaterial.Scatter | src/materials/lambertian.rs:12-23 | always scatters from `rec.p` with the albedo; the direction is `rec.normal + random_unit_vector()` (the normalised sample), replaced by the normal exactly when that sum is near zero; so it is the normal or a point at distance 1 from its tip that is not near zero |
| LambertianMaterial.ScattersOutward | src/materials/lambertian.rs:13-16 | for a unit normal, the direction is nonzero and never points into the surface |
| LambertianMaterial.IgnoresIncomingRay | src/materials/lambertian.rs:12-23 | the incoming ray has no effect on the result |
| MetalMaterial.Mirror | src/materials/metal.rs:19 | the mirror direction differs from the incoming unit direction only along the normal (`(unit(dir) - m) x normal = 0`), so the tangential part is kept; off a unit normal it is a unit vector whose normal component is the incoming unit direction's, negated |
| MetalMaterial.Scatter | src/materials/metal.rs:18-29 | from `rec.p` with the albedo; the direction is the mirror direction plus `fuzz * sample`; it is returned exactly when its dot product with the normal is positive |
| MetalMaterial.FuzzBound | src/materials/metal.rs:19-22 | with a sample in the unit ball, the direction is within `|fuzz|` of the mirror direction |
| MetalMaterial.PerfectMirror | src/materials/metal.rs:19-28 | with `fuzz = 0` and a unit normal, a ray is reflected exactly when it arrives against the normal, along the unit mirror direction |
| DielectricMaterial.R0 | src/materials/dielectric.rs:21-22 | `r0` is non-negative, and at most 1 for a positive index |
| DielectricMaterial.Reflectance | src/materials/dielectric.rs:20-24 | for a positive index and a cosine in `[0,1]`, Schlick's value lies in `[r0, 1]`; at normal incidence it is `r0` |
| DielectricMaterial.ReflectanceReciprocal | src/materials/dielectric.rs:20-24 | the value is the same for an index and its reciprocal |
| DielectricMaterial.MatchedReflectance | src/materials/dielectric.rs:20-24 | at index 1 the reflectance is `(1 - c)^5`, positive below normal incidence |
| DielectricMaterial.RefractionRatio | src/materials/dielectric.rs:30-33 | `1 / ir` on a front face and `ir` on a back face |
| DielectricMaterial.CosTheta | src/materials/dielectric.rs:35 | clamped to at most 1; for unit inputs it is `-dot(unit_direction, normal)` |
| DielectricMaterial.SinTheta | src/materials/dielectric.rs:36 | defined exactly when `cos^2 <= 1`, and then non-negative with `sin^2 = 1 - cos^2` |
| DielectricMaterial.CannotRefract | src/materials/dielectric.rs:36-37 | `cannot_refract` holds only for a cosine with `cos^2 <= 1` and a ratio above 1, i.e. leaving the denser medium |
| DielectricMaterial.CriticalNeedsRatio | src/materials/dielectric.rs:37 | a sine in `[0,1]` times a ratio exceeds 1 only for a ratio above 1 |
| DielectricMaterial.Scatter | src/materials/dielectric.rs:28-51 | always scatters from `rec.p` with attenuation `(1,1,1)`; reflects when refraction is impossible or the draw is below the reflectance, and refracts by the ratio otherwise |
| DielectricMaterial.NoTotalInternalReflectionEntering | src/materials/dielectric.rs:30-37 | entering glass of index at least 1 through the front face, refraction is always possible |
| DielectricMaterial.SineAtMostOne | src/materials/dielectric.rs:36-37 | with a ratio in `(0,1]` and a cosine in `[-1,1]`, refraction is possible |
| DielectricMaterial.GrazingExitReflects | src/materials/dielectric.rs:36-41 | leaving glass of index 1.5 at grazing incidence, refraction is impossible |
| DielectricMaterial.DirectionNonZero | src/materials/dielectric.rs:38-44 | for a unit normal, the scattered direction has squared length at least 1 |
| DielectricMaterial.MatchedIndex | src/materials/dielectric.rs:28-51 | for index 1 facing the ray, the ray is mirrored when the draw is below `(1 - c)^5` and otherwise passes undeviated |
| Cameras.New | src/cameras/camera.rs:17-53 | origin is `lookfrom`; the lens radius is half the aperture; `(u, v, w)` is orthonormal; `w` points from `lookat` to `lookfrom`; `u` is orthogonal to `vup` and a positive multiple of `vup x w`; `v = w x u` and leans towards `vup` (so the image is not mirrored or upside down); `horizontal = focus_dist * width * u`; `vertical = focus_dist * height * v`; the viewport is centred `focus_dist` in front of the origin |
| Cameras.BasisIsOrthonormal | src/cameras/camera.rs:33-35 | `u = unit(vup x w)` and `v = w x u` complete a unit `w` to an orthonormal basis |
| Cameras.BasisOrientation | src/cameras/camera.rs:33-35 | `u` makes a positive dot product with `vup x w`, and `v = w x u` with `vup` |
| Cameras.GetRay | src/cameras/camera.rs:55-65 | the ray starts at the origin plus the lens offset; at parameter 1 it reaches `lower_left_corner + s horizontal + t vertical` whatever the lens sample; with lens radius 0 it starts at the origin |
| Cameras.RayStartsOnLens | src/cameras/camera.rs:56-60 | for a disk sample and an orthonormal basis, the ray starts in the lens plane, within the lens radius of the origin |
| Render.ImageDimensions | src/main.rs:144-146 | the image is 1920 by 1080 |
| Render.ScatterBy | src/main.rs:49 | the material dispatch: a scattered ray leaves the hit point with the material's attenuation, and only Metal absorbs |
| Render.ScatteredDirectionNonZero | src/main.rs:49-53 | off a unit normal, no material scatters along the zero vector |
| Render.Sky | src/main.rs:43-48 | the background lies on the segment from white to `(0.5, 0.7, 1.0)`: blue lane 1, red in `[0.5, 1]`, green in `[0.7, 1]`, and green `- 0.7 = 0.6 (red - 0.5)`; its place on the segment is `t = 0.5 (y + 1)` for the unit direction's `y`, fixed by red `= 0.75 - 0.25 y` |
| Render.SkyBluerUpwards | src/main.rs:44-47 | a ray whose unit direction has the larger `y` gets a sky no redder and no greener; equal `y` gives equal colour |
| Render.SkyStraightUp | src/main.rs:43-48 | straight up, the sky is `(0.5, 0.7, 1.0)` |
| Render.SkyStraightDown | src/main.rs:43-48 | straight down, the sky is white |
| Render.RayColorStops | src/main.rs:37-48 | black once the depth is spent, whatever the ray and scene; the sky on a miss over `[0.001, INFINITY)` |
| Render.RayColorBounces | src/main.rs:49-54 | an absorbed ray is black; otherwise the colour is the attenuation times the colour of the scattered ray one level deeper |
| Render.RayColor | src/main.rs:37-56 | with every albedo in `[0,1]^3`, `ray_color` is in `[0,1]^3` at every depth (its cases are stated by `Render.RayColorStops` and `Render.RayColorBounces`) |
| Render.Bounce | src/main.rs:49-54 | the hit case of `ray_color`: with every albedo in `[0,1]^3`, the attenuated colour is in `[0,1]^3` |
| Render.ProductInRange | src/main.rs:52 | the lane-wise product of two colours in `[0,1]^3` is in `[0,1]^3` |
| Render.EmptyWorldShowsSky | src/main.rs:42-48 | in an empty world every ray with depth left sees the sky |
| Render.SampleInPixel | src/main.rs:180-181 | a jitter in `[0,1)` keeps `(u, v)` inside the pixel's own cell |
| Render.SampleColors | src/main.rs:179-184 | one colour per sample, each `ray_color` of that sample's camera ray at `MAX_DEPTH` |
| Render.PixelColor | src/main.rs:178-185 | the loop's result is the sum of the sample colours divided by `SAMPLES_PER_PIXEL` |
| Render.SumInRange | src/main.rs:178-184 | each lane of the sum of `n` in-range colours lies in `[0, n]` |
| Render.PixelColorInRange | src/main.rs:178-185 | with every albedo in `[0,1]^3`, each pixel's colour is in `[0,1]^3` |
| Render.OutputRow | src/main.rs:195 | `IMAGE_HEIGHT - 1 - y` is a row of the image exactly when `y` is |
| Render.RowFlip | src/main.rs:191-197 | for `y` in `[0, IMAGE_HEIGHT)` the written row is in range, distinct rows stay distinct, and the flip undoes itself |

## Left out

- Image output (src/utils/image_utils.rs), the rayon fan-out, the `mpsc` channel, the progress bar and `img.put_pixel`: these are I/O and concurrency.
- `gamma_correct` and `convert_vec3_to_color` (src/utils/color_utils.rs): they rely on `powf` with a real exponent and on Rust's saturating float-to-`u8` cast.
- `random_scene` (src/main.rs:58-140): it is procedural scene construction from random draws. The world is a parameter instead.
- src/utils/random_number_utils.rs: draws are parameters. `Vectors.IsUnitDraw` states the `[0,1)` range they are assumed to have.
- `Cameras.New`: takes `h = tan(vfov.to_radians() / 2)` as a parameter, because the model has no trigonometry.
- IEEE-754 rounding, NaN and infinity: arithmetic is over `real`. A NaN `sin_theta` is modelled as `None` in `DielectricMaterial.SinTheta`, where the comparison `> 1.0` is false.
- Divisions by zero are preconditions. These cover the zero-length ray direction, a zero radius, index 0 or -1, a zero sample passed to `unit_vector`, and in `Cameras.New` the conditions `lookfrom != lookat` and `vup x w != 0` (both vectors are normalised). The source produces NaN or infinity in those cases.
- The fourth `f64x4` lane: `Vec3` has three lanes, and index 3 of `Index` is treated like any other out-of-range index.
- The rejection loops `random_in_unit_sphere` and `random_in_unit_disk`: they run over a finite sequence of candidates and return `None` when none is accepted, because the unbounded retry has no termination argument.
- `Render.RayColor`: takes one `Draw` per bounce from a sequence of at least `depth` draws, instead of drawing from a generator.
- The world holds spheres only, and a `HittableList` nested inside another is not modelled. The `Material` trait, `Arc` and `dyn` dispatch become a three-variant datatype.
- Lambertian's `random_unit_vector` is modelled from a nonzero unit-sphere sample. A zero sample would divide by zero.
- `Render.ValidDraws`: every per-bounce sample must be nonzero, including one that ends up meeting a Metal or Dielectric surface, where the source would accept a zero sample. Which material a bounce meets is not known before the ray is traced; `Render.ScatterBy` itself asks for a nonzero sample only for Lambertian.

## Findings

| source | as written | input that shows it | evidently intended | confidence | as-written member | corrected member |
|---|---|---|---|---|---|---|
| src/vectors/vec3.rs:61-68 | `random_in_unit_sphere` draws its candidates with `random_vec3()`, whose lanes lie in `[0, 1)` | the point `(-0.5, 0, 0)` lies in the unit ball but is never returned; every returned sample lies in the positive octant | candidates drawn from `[-1, 1)^3` (`random_vec3_min_max(-1.0, 1.0)`), so that every point of the ball can be returned | not executed | Vectors.InUnitSphereAsWritten | Vectors.InUnitSphereCorrected |
