/** Local shading of a hit point (`Scene.getHitColor`): for every light, a
    shadow ray, then a Lambertian and a Blinn-Phong term when nothing is in
    the way; then the solid's colour as a flat ambient term, and a cap of
    1.0 on every channel. */
module Shading {
  import opened Vectors
  import opened Elements
  import opened HitSearch

  /** Weight and exponent of the Blinn-Phong highlight. */
  const SpecularWeight: real := 0.2
  const SpecularExponent: nat := 10

  /** The Blinn-Phong highlight factor for the cosine between the bisector
      and the normal: zero for a negative cosine, else its tenth power. */
  function Highlight(cosine: real): real {
    Pow(Max(0.0, cosine), SpecularExponent)
  }

  /** A light's intensity divided by a squared length, where a zero squared
      length gives no intensity at all. */
  function Attenuate(intensity: real, lengthSquared: real): real {
    if lengthSquared == 0.0 then 0.0 else intensity / lengthSquared
  }

  /** The shadow ray: from the hit point, along the normalised vector toward
      the light. */
  function ShadowRay(w: World, light: Light, hit: Hit, ray: Ray): Ray {
    var hitPoint := At(ray, hit.t);
    Ray(hitPoint, w.normalize(Sub(light.position, hitPoint)))
  }

  /** The light is skipped when the closest-hit search along the shadow ray
      finds any solid; how far the light itself is plays no part. */
  predicate Shadowed(w: World, solids: seq<Solid>, light: Light, hit: Hit, ray: Ray) {
    ClosestHit(w, solids, ShadowRay(w, light, hit, ray)).solid.Some?
  }

  /** The colour a light adds at a point of a surface of colour
      `solidColor` with normal `normal`, given the normalised vector toward
      the light and the Blinn-Phong bisector: the light's colour filtered by
      the surface's, weighted by the Lambertian and the highlight
      intensities. The intensity is divided by the squared length of the
      light vector as given. */
  function LightTerm(light: Light, solidColor: Vec, normal: Vec, lightVec: Vec, bisector: Vec): Vec {
    var lightIntensity := Attenuate(light.intensity, LengthSquared(lightVec));
    var lambertian := lightIntensity * Max(0.0, Dot(lightVec, normal));
    var blinnPhong := SpecularWeight * lightIntensity * Highlight(Dot(bisector, normal));
    Scale(Mul(light.color, solidColor), lambertian + blinnPhong)
  }

  /** The colour an unshadowed light adds at the hit point, where the light
      vector is the shadow ray's (already normalised) direction. */
  function Contribution(w: World, light: Light, hit: Hit, ray: Ray): Vec
    requires hit.solid.Some?
  {
    var lightVec := ShadowRay(w, light, hit, ray).direction;
    var bisector := w.normalize(Add(lightVec, Neg(w.normalize(ray.direction))));
    LightTerm(light, hit.solid.value.color, hit.normal.value, lightVec, bisector)
  }

  /** One turn of the loop over the lights: a shadowed light leaves the
      running colour as it is. */
  function Accumulate(w: World, solids: seq<Solid>, color: Vec, light: Light, hit: Hit, ray: Ray): Vec
    requires hit.solid.Some?
  {
    if Shadowed(w, solids, light, hit, ray) then color
    else Add(color, Contribution(w, light, hit, ray))
  }

  /** The running colour after visiting `lights` in order, starting from
      `color`. */
  function LightingFrom(w: World, solids: seq<Solid>, color: Vec, lights: seq<Light>, hit: Hit, ray: Ray): Vec
    requires hit.solid.Some?
    decreases |lights|
  {
    if lights == [] then color
    else
      var n := |lights| - 1;
      Accumulate(w, solids, LightingFrom(w, solids, color, lights[..n], hit, ray), lights[n], hit, ray)
  }

  /** The direct illumination of the hit point by all lights. */
  function Lighting(w: World, solids: seq<Solid>, lights: seq<Light>, hit: Hit, ray: Ray): Vec
    requires hit.solid.Some?
  {
    LightingFrom(w, solids, Zero, lights, hit, ray)
  }

  /** The colour of `Scene.getHitColor`: direct illumination plus the
      solid's colour, capped at 1.0 on every channel. */
  function HitColor(w: World, solids: seq<Solid>, lights: seq<Light>, hit: Hit, ray: Ray): (c: Vec)
    requires hit.solid.Some?
    ensures c.x <= 1.0 && c.y <= 1.0 && c.z <= 1.0
  {
    ClampToOne(Add(Lighting(w, solids, lights, hit, ray), hit.solid.value.color))
  }

  /** Without lights the hit colour is the solid's colour, capped at 1.0. */
  lemma AmbientOnlyWithoutLights(w: World, solids: seq<Solid>, hit: Hit, ray: Ray)
    requires hit.solid.Some?
    ensures HitColor(w, solids, [], hit, ray) == ClampToOne(hit.solid.value.color)
  {
  }

  /** Visiting a concatenation of light lists is visiting the second from
      where the first left off. */
  lemma {:induction false} LightingAppend(w: World, solids: seq<Solid>, color: Vec, a: seq<Light>, b: seq<Light>, hit: Hit, ray: Ray)
    requires hit.solid.Some?
    ensures LightingFrom(w, solids, color, a + b, hit, ray)
         == LightingFrom(w, solids, LightingFrom(w, solids, color, a, hit, ray), b, hit, ray)
    decreases |b|
  {
    if b == [] {
      assert a + b == a;
    } else {
      var n := |b| - 1;
      assert (a + b)[..|a + b| - 1] == a + b[..n];
      assert (a + b)[|a + b| - 1] == b[n];
      LightingAppend(w, solids, color, a, b[..n], hit, ray);
    }
  }

  /** A shadowed light contributes nothing: the hit colour is the same as if
      the light were not in the list at all. */
  lemma ShadowedLightContributesNothing(w: World, solids: seq<Solid>, a: seq<Light>, light: Light, b: seq<Light>, hit: Hit, ray: Ray)
    requires hit.solid.Some?
    requires Shadowed(w, solids, light, hit, ray)
    ensures HitColor(w, solids, a + [light] + b, hit, ray) == HitColor(w, solids, a + b, hit, ray)
  {
    var before := LightingFrom(w, solids, Zero, a, hit, ray);
    LightingAppend(w, solids, Zero, a + [light], b, hit, ray);
    LightingAppend(w, solids, Zero, a, [light], hit, ray);
    assert [light][..0] == [];
    assert LightingFrom(w, solids, before, [light], hit, ray) == before;
    LightingAppend(w, solids, Zero, a, b, hit, ray);
  }

  /** The shadow test depends on where the light is only through the
      direction toward it: two lights seen in the same direction are
      shadowed alike, however far each one is. */
  lemma ShadowIgnoresLightDistance(w: World, solids: seq<Solid>, near: Light, far: Light, hit: Hit, ray: Ray)
    requires w.normalize(Sub(near.position, At(ray, hit.t))) == w.normalize(Sub(far.position, At(ray, hit.t)))
    ensures Shadowed(w, solids, near, hit, ray) <==> Shadowed(w, solids, far, hit, ray)
  {
  }

  /** Any solid that reports a hit along the shadow ray nearer than `Far`
      casts the shadow, whether it stands before or beyond the light,
      provided no record in `[Epsilon, Far)` along that ray lacks its solid
      (a miss reports the sentinel distance `Far` with no solid). */
  lemma AnyOccluderCastsShadow(w: World, solids: seq<Solid>, light: Light, hit: Hit, ray: Ray, i: int)
    requires 0 <= i < |solids|
    requires Epsilon <= w.intersect(solids[i], ShadowRay(w, light, hit, ray)).t < Far
    requires w.intersect(solids[i], ShadowRay(w, light, hit, ray)).solid.Some?
    requires forall j :: 0 <= j < |solids| && w.intersect(solids[j], ShadowRay(w, light, hit, ray)).solid.None? ==>
               !(Epsilon <= w.intersect(solids[j], ShadowRay(w, light, hit, ray)).t < Far)
    ensures Shadowed(w, solids, light, hit, ray)
  {
    ClosestHitIsMinimal(w, solids, ShadowRay(w, light, hit, ray));
  }

  /** A light with non-negative intensity and colour adds a non-negative
      colour to a solid of non-negative colour. */
  lemma LightTermNonNegative(light: Light, solidColor: Vec, normal: Vec, lightVec: Vec, bisector: Vec)
    requires light.intensity >= 0.0 && NonNegative(light.color) && NonNegative(solidColor)
    ensures NonNegative(LightTerm(light, solidColor, normal, lightVec, bisector))
  {
    var lengthSquared := LengthSquared(lightVec);
    var lightIntensity := Attenuate(light.intensity, lengthSquared);
    if lengthSquared != 0.0 {
      assert lightIntensity == light.intensity / lengthSquared;
    }
    assert lightIntensity >= 0.0;
    var lambertian := lightIntensity * Max(0.0, Dot(lightVec, normal));
    var highlight := Highlight(Dot(bisector, normal));
    PowNonNegative(Max(0.0, Dot(bisector, normal)), SpecularExponent);
    assert SpecularWeight * lightIntensity * highlight >= 0.0;
  }

  /** Lights of non-negative intensity and colour only ever add to the
      running colour channel-wise. */
  lemma {:induction false} LightingNonNegative(w: World, solids: seq<Solid>, color: Vec, lights: seq<Light>, hit: Hit, ray: Ray)
    requires hit.solid.Some? && NonNegative(hit.solid.value.color) && NonNegative(color)
    requires forall l :: l in lights ==> l.intensity >= 0.0 && NonNegative(l.color)
    ensures NonNegative(LightingFrom(w, solids, color, lights, hit, ray))
    decreases |lights|
  {
    if lights != [] {
      var n := |lights| - 1;
      LightingNonNegative(w, solids, color, lights[..n], hit, ray);
      assert lights[n] in lights;
      var lightVec := ShadowRay(w, lights[n], hit, ray).direction;
      var bisector := w.normalize(Add(lightVec, Neg(w.normalize(ray.direction))));
      LightTermNonNegative(lights[n], hit.solid.value.color, hit.normal.value, lightVec, bisector);
    }
  }

  /** With non-negative light intensities and colours and a solid of
      non-negative colour, the hit colour is a displayable colour: every
      channel lies in [0, 1]. */
  lemma HitColorInUnitCube(w: World, solids: seq<Solid>, lights: seq<Light>, hit: Hit, ray: Ray)
    requires hit.solid.Some? && NonNegative(hit.solid.value.color)
    requires forall l :: l in lights ==> l.intensity >= 0.0 && NonNegative(l.color)
    ensures InUnitCube(HitColor(w, solids, lights, hit, ray))
  {
    LightingNonNegative(w, solids, Zero, lights, hit, ray);
  }
}
