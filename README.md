# Ray tracer scene core, modelled in Dafny

This project models the control logic of the `Scene` class of a small
recursive ray tracer (`src/main/java/Raytracer/Scene.java`). A scene owns a
list of solids and a list of point lights. Given a ray and a bounce budget
(`depth`), it returns a pixel: a colour and the distance to the first surface,
or -1 when the colour came from the sky. The model covers four things:

- **Closest-hit search** (`getHitInfo`). A scan over the solids in list order.
  It starts from the sentinel record `(99999, null, null)` and takes a
  solid's record when `0.001 <= t <= best.t`. It is modelled by
  `HitSearch.ClosestHit`, a left fold. The loop method
  `Raytracer.Scene.GetHitInfo` is proved equal to that fold.
- **Local shading** (`getHitColor`). For each light, a shadow ray is cast
  from the hit point. If the closest-hit search finds any solid, the light
  is skipped. Otherwise a Lambertian term and a Blinn-Phong term (weight 0.2,
  exponent 10) are added. Then the solid's colour is added and every channel
  is capped at 1.0. This is modelled by `Shading.HitColor`. The loop method
  `Raytracer.Scene.GetHitColor` is proved equal to it.
- **Recursive evaluation** (`getRayColor`, `getReflectionColor`). These are
  the functions `Raytracer.Scene.RayColor` and
  `Raytracer.Scene.ReflectionColor`:
  - depth 0 gives the sky and -1;
  - no hit gives the sky and -1;
  - reflectivity exactly 0 gives the local colour and the hit distance;
  - otherwise the local colour and the reflected colour at `depth - 1` are
    blended with weights `1 - r` and `r`.
  Termination is proved by `decreases depth`.
- **Registration** (`addSolid`, `addLight`). Both append to a `seq` field of
  the class `Raytracer.Scene`.

Vector arithmetic is exact arithmetic over `real` (module `Vectors`). The
collaborators whose code is outside the scene are fields of the datatype
`Elements.World`:

- `intersect` stands for `Solid.calculateIntersection`;
- `sky` stands for `Skybox.getColor`;
- `normalize` stands for `Vec3d.normalize`, which needs a square root;
- `sample` stands for `randomInSphere`. `sample(d)` is the point drawn by the
  reflection evaluated with `d` bounces left. There is one draw per bounce.

Solids are values with an identity (`id`) and a material (colour,
reflectivity, roughness).

Three behaviours of the code deserve a note, because the model keeps them
as written:

- **Tie-break.** The comparison at Scene.java:115 is `<=`, so among solids
  at equal minimum distance the LATER one in list order wins.
  `HitSearch.TieGoesToLaterSolid` proves this.
- **Attenuation.** The code divides the light's intensity by the squared
  length of the already normalised light vector (Scene.java:67, 76), so
  there is no inverse-square falloff with the distance to the light.
  `Shading.LightTerm` does the same, and nothing about falloff is claimed.
- **Shadow test.** The shadow test never compares the occluder's distance
  with the light's (Scene.java:69-74): a solid beyond the light also casts
  the shadow. `Shading.ShadowIgnoresLightDistance` and
  `Shading.AnyOccluderCastsShadow` state this.

## Model

| member | source | states |
|---|---|---|
| `Raytracer.Scene.GetHitInfo` | src/main/java/Raytracer/Scene.java:108-121 | the scan's result equals the fold `ClosestHit` over the solid list, visited in order from the sentinel |
| `HitSearch.ClosestHit` | src/main/java/Raytracer/Scene.java:109-120 | the result is either the untouched sentinel or a record some solid in the list reported, and its distance always lies in [0.001, 99999] |
| `HitSearch.ScanFrom` | src/main/java/Raytracer/Scene.java:111-118 | the scan never moves to a farther record than its start, and whatever it holds instead was reported by some solid at distance >= 0.001 |
| `HitSearch.Accept` | src/main/java/Raytracer/Scene.java:115-117 | one step of the scan: the result is the best record or the candidate, never farther than the best; it is the candidate whenever 0.001 <= candidate.t <= best.t, and the best whenever the candidate is nearer than 0.001 (a self-intersection) |
| `HitSearch.ClosestHitIsMinimal` | src/main/java/Raytracer/Scene.java:111-118 | the returned distance is <= every solid-reported distance lying in [0.001, 99999] |
| `HitSearch.ClosestHitWithoutCandidate` | src/main/java/Raytracer/Scene.java:109-120 | when no solid reports a distance in [0.001, 99999], the result is exactly the sentinel (99999, no solid, no normal) |
| `HitSearch.ClosestHitIsLastNearest` | src/main/java/Raytracer/Scene.java:111-118 | when some solid reports an admissible distance, the result is the record of the last solid in list order among those at the minimum admissible distance |
| `HitSearch.TieGoesToLaterSolid` | src/main/java/Raytracer/Scene.java:115 | among solids at the minimum distance, no earlier solid is selected over a later one (the `<=` comparison) |
| `HitSearch.NeverSelectsRejected` | src/main/java/Raytracer/Scene.java:115 | a record with distance below 0.001 or above 99999 is never the result, whatever its position |
| `HitSearch.RejectedSolidIrrelevant` | src/main/java/Raytracer/Scene.java:111-118 | removing a solid whose record is outside [0.001, 99999], from any position, leaves the result unchanged (so a self-intersection below 0.001 never occludes) |
| `Raytracer.Scene.GetHitColor` | src/main/java/Raytracer/Scene.java:56-94 | the shading loop (shadow ray per light, skip on any hit, accumulate, add the solid colour, cap) returns exactly `HitColor` |
| `Shading.HitColor` | src/main/java/Raytracer/Scene.java:90-93 | every channel of the local colour is at most 1.0 |
| `Vectors.ClampToOne` | src/main/java/Raytracer/Scene.java:93 | each channel becomes `min(1.0, channel)`: at most 1.0, unchanged when already at most 1.0 |
| `Shading.AmbientOnlyWithoutLights` | src/main/java/Raytracer/Scene.java:62-93 | with an empty light list the local colour is the solid colour capped per channel at 1.0 |
| `Shading.ShadowedLightContributesNothing` | src/main/java/Raytracer/Scene.java:69-74 | a light whose shadow ray finds any solid can be removed from the list without changing the local colour |
| `Shading.ShadowIgnoresLightDistance` | src/main/java/Raytracer/Scene.java:67-74 | two lights in the same direction from the hit point are shadowed alike whatever their distances: no comparison against the light's distance |
| `Shading.AnyOccluderCastsShadow` | src/main/java/Raytracer/Scene.java:69-74 | any solid reporting a hit that names a solid at a distance in [0.001, 99999) along the shadow ray, before or beyond the light, puts the light in shadow, provided no record in that range lacks its solid (a miss reports the sentinel distance 99999 with no solid) |
| `Shading.ShadowRay` | src/main/java/Raytracer/Scene.java:67-69 | definition (no contract): the ray from the hit point along the normalised vector toward the light; `Shading.ShadowIgnoresLightDistance` states that only this direction matters |
| `Shading.Shadowed` | src/main/java/Raytracer/Scene.java:70-74 | definition (no contract): the closest-hit search along the shadow ray names a solid; `Shading.ShadowedLightContributesNothing` and `Shading.AnyOccluderCastsShadow` carry its properties |
| `Shading.LightTerm` | src/main/java/Raytracer/Scene.java:76-86 | definition (no contract): the light's colour filtered by the solid's, weighted by the Lambertian intensity plus 0.2 times the highlight raised to the 10th power, the intensity divided by the squared length of the light vector; `Shading.LightTermNonNegative` carries its property |
| `Shading.Contribution` | src/main/java/Raytracer/Scene.java:76-87 | definition (no contract): `LightTerm` at the shadow ray's direction with the Blinn-Phong bisector of the light vector and the reversed normalised view direction; `Raytracer.Scene.GetHitColor` is proved to add exactly it for each unshadowed light |
| `Shading.LightTermNonNegative` | src/main/java/Raytracer/Scene.java:76-86 | with non-negative intensity and colours, the Lambertian plus Blinn-Phong term a light adds is non-negative on every channel |
| `Shading.LightingNonNegative` | src/main/java/Raytracer/Scene.java:65-88 | the accumulation over the lights never makes a channel negative when lights and solid have non-negative intensity and colour |
| `Shading.HitColorInUnitCube` | src/main/java/Raytracer/Scene.java:56-94 | under non-negative intensities and colours, the local colour lies in [0, 1] on every channel |
| `Raytracer.Scene.RayColor` | src/main/java/Raytracer/Scene.java:23-54 | the distance is -1 exactly when depth is 0 or the closest hit names no solid; otherwise it is the closest hit's distance (so at least 0.001); recursion terminates by `decreases depth` under `depth >= 0` |
| `Raytracer.Scene.ReflectionColor` | src/main/java/Raytracer/Scene.java:96-106 | the colour of the reflected ray evaluated with one bounce fewer; when that is the last bounce or the reflected ray hits nothing, it is the sky seen along the reflected direction (see also `RayColorFacts.PerfectMirrorShowsMirroredSky`, `RayColorFacts.SamplesBeyondBudgetUnused`) |
| `Raytracer.ReflectedRay` | src/main/java/Raytracer/Scene.java:102-103 | the reflected ray starts at the hit point, and on a solid of roughness 0 it runs exactly along the mirror direction of the normalised incoming direction, whatever the random sample |
| `Raytracer.MirrorReflectsAboutNormal` | src/main/java/Raytracer/Scene.java:103 | about a unit normal, the mirror direction reverses the component along the normal (angle of reflection equals angle of incidence) and keeps the direction's length |
| `RayColorFacts.DepthZeroIsSky` | src/main/java/Raytracer/Scene.java:25-27 | at depth 0 the pixel is (sky of the ray direction, -1), independent of the solids |
| `RayColorFacts.NoHitIsSky` | src/main/java/Raytracer/Scene.java:36-53 | when the closest hit names no solid, the pixel is (sky of the ray direction, -1) at every depth |
| `RayColorFacts.EmptySceneIsSky` | src/main/java/Raytracer/Scene.java:30-53 | a scene without solids gives (sky, -1) for every ray and depth |
| `RayColorFacts.NonReflectiveHitIsLocal` | src/main/java/Raytracer/Scene.java:41-42 | reflectivity exactly 0 gives (local colour, hit distance), the same for every depth >= 1 and every random sample, so no reflection is evaluated |
| `RayColorFacts.ReflectiveHitBlends` | src/main/java/Raytracer/Scene.java:44-50 | non-zero reflectivity r gives colour local*(1-r) + reflected*r and the first hit's distance, not the reflected ray's |
| `RayColorFacts.FullyReflectiveIsPureReflection` | src/main/java/Raytracer/Scene.java:48-50 | with reflectivity 1 the colour is exactly the reflected colour and the distance the first hit's |
| `RayColorFacts.PerfectMirrorShowsMirroredSky` | src/main/java/Raytracer/Scene.java:96-105 | a mirror of reflectivity 1 and roughness 0 whose reflected ray escapes (or has no budget left) shows the sky in the exact mirror direction of the normalised incoming direction, at the mirror's distance |
| `RayColorFacts.RayColorInUnitCube` | src/main/java/Raytracer/Scene.java:23-54 | with sky colours in [0, 1], every hit on a scene solid naming a solid of reflectivity in [0, 1] and non-negative colour, and non-negative light colours and intensities, every returned colour lies in [0, 1] at every depth |
| `RayColorFacts.SelfReportingWorldReportsValidMaterials` | src/main/java/Raytracer/Scene.java:113 | when every hit names the solid that was intersected (`hitInfo.solid`), the material hypothesis of `RayColorInUnitCube` follows from the scene's own solids having valid materials |
| `RayColorFacts.SamplesBeyondBudgetUnused` | src/main/java/Raytracer/Scene.java:96-106 | each recursive call uses depth - 1, so only the random samples for budgets 1 to depth are ever drawn: worlds agreeing on those give the same pixel |
| `Raytracer.Scene.constructor` | src/main/java/Raytracer/Scene.java:19-20 | a new scene has no solids and no lights |
| `Raytracer.Scene.AddSolid` | src/main/java/Raytracer/Scene.java:128-130 | the solid is appended at the end; the earlier solids and the light list are unchanged |
| `Raytracer.Scene.AddLight` | src/main/java/Raytracer/Scene.java:132-134 | the light is appended at the end; the earlier lights and the solid list are unchanged |

## Left out

- Floating point: colours, distances and vectors are exact reals. Rounding, infinities and NaN are not modelled.
- Attenuation by a zero squared length: when the squared length of the light vector is zero, the model gives zero intensity. Java's double division would give Infinity or NaN there.
- `Vec3d` is not part of this model. Its arithmetic is taken with its usual meaning over reals. `inverse` is taken as negation, which the Blinn-Phong bisector needs. `normalize` is an uninterpreted parameter (`World.normalize`). Nothing is proved about its result, so nothing numeric about light intensity is claimed.
- `Ray` is not part of this model. `Ray.at(t)` is taken as `origin + direction * t` (`Elements.At`), and a ray as its origin and direction.
- `randomInSphere` is a hidden random source. It is the parameter `World.sample`, and nothing is proved about its distribution.
- The intersection maths of the solids (`Solid.calculateIntersection`) is the parameter `World.intersect`. The model assumes that `calculateIntersection` returns a normal whenever it names a solid (type `Elements.Hit`). The model does not cover the null-pointer failure of a hit that names a solid without a normal.
- The constructor's camera and skybox (it loads the image `Sky.jpg`) are I/O and are not modelled. The skybox is the parameter `World.sky`. The accessors `getCamera` and `getSkybox` return those foreign objects and are not modelled.
- Lights are point lights only. The `(PointLight)` downcast and its failure are not modelled.
- `Raytracer.Scene.RayColor`: requires `depth >= 0`. With a negative depth the Java code never reaches the `depth == 0` exit: it recurses until a ray misses or hits a non-reflective solid, or until the stack overflows. 32-bit wrap-around of `depth - 1` is not modelled.
- Solids and lights are values in `seq` fields rather than references in `ArrayList`s. Aliasing of the same solid object is represented only by equal values.
- Concurrency: the code has none.
