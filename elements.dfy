/** The collaborators of the scene that live outside it: rays, solids,
    lights, the hit record, the pixel, and the foreign computations (solid
    intersection, skybox lookup, normalisation, random sampling) bundled as
    the functions of a `World`. */
module Elements {
  import opened Vectors

  datatype Option<T> = None | Some(value: T)

  /** A ray: an origin and a direction, not necessarily of unit length. */
  datatype Ray = Ray(origin: Vec, direction: Vec)

  /** The point `origin + direction * t` along the ray. */
  function At(ray: Ray, t: real): Vec {
    Add(ray.origin, Scale(ray.direction, t))
  }

  /** A solid as the scene sees it: an identity that stands for the object
      reference, and its material. Its shape is known only to the world's
      intersection function. */
  datatype Solid = Solid(id: nat, color: Vec, reflectivity: real, roughness: real)

  /** A point light source. */
  datatype Light = PointLight(position: Vec, intensity: real, color: Vec)

  /** A hit record: distance along the ray, the solid hit and the surface
      normal there, the last two absent for "no hit". */
  datatype HitInfo = HitInfo(t: real, solid: Option<Solid>, normal: Option<Vec>)

  /** Hit records as solids report them: a record that names a solid also
      carries the normal at the hit point. */
  type Hit = h: HitInfo | h.solid.Some? ==> h.normal.Some?
    witness HitInfo(0.0, None, None)

  /** The colour seen along a ray and the distance to the first surface, or
      -1 when the colour came from the sky. */
  datatype Pixel = Pixel(color: Vec, distance: real)

  /** What the scene consumes from outside:
      - `intersect(s, r)`: the record solid `s` reports for ray `r`;
      - `sky(d)`: the skybox colour seen in direction `d`;
      - `normalize(v)`: `v` scaled to unit length;
      - `sample(d)`: the random point of the unit ball drawn by the
        reflection evaluated with `d` bounces left (one draw per bounce). */
  datatype World = World(
    intersect: (Solid, Ray) -> Hit,
    sky: Vec -> Vec,
    normalize: Vec -> Vec,
    sample: int -> Vec)
}
