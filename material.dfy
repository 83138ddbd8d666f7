/** The three materials (src/materials/material.rs declares only the
    `scatter` capability; the implementations are the three variants). */
module Materials {
  import opened Vectors
  import opened Rays

  /** `Lambertian { albedo }`, `Metal { albedo, fuzz }`, `Dielectric { ir }`. */
  datatype Material =
    | Lambertian(albedo: Vec3)
    | Metal(albedo: Vec3, fuzz: real)
    | Dielectric(ir: real)

  /** The `Some((scattered, attenuation))` payload of `scatter`. */
  datatype Scattering = Scattering(scattered: Ray, attenuation: Vec3)
}
