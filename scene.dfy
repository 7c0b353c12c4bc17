/** The scene (`Scene.java`): the solid and light lists it owns, the
    closest-hit scan and the shading loop as methods, and the recursive
    colour evaluation with its depth budget. */
module Raytracer {
  import opened Vectors
  import opened Elements
  import opened HitSearch
  import opened Shading

  /** The distance a pixel reports when its colour came from the sky. */
  const NoDistance: real := -1.0

  /** The mirror image of `dir` about the plane with normal `normal`. */
  function MirrorDirection(dir: Vec, normal: Vec): Vec {
    Sub(dir, Scale(normal, 2.0 * Dot(dir, normal)))
  }

  /** The secondary ray of a reflection: from the hit point along the mirror
      direction of the normalised incoming direction, pushed by the world's
      random sample for this bounce scaled by the solid's roughness. */
  function ReflectedRay(w: World, hitInfo: Hit, incomingRay: Ray, depth: int): (r: Ray)
    requires hitInfo.solid.Some?
    ensures r.origin == At(incomingRay, hitInfo.t)
    ensures hitInfo.solid.value.roughness == 0.0 ==>
              r.direction == MirrorDirection(w.normalize(incomingRay.direction), hitInfo.normal.value)
  {
    var dir := w.normalize(incomingRay.direction);
    var perturbation := Scale(w.sample(depth), hitInfo.solid.value.roughness);
    assert hitInfo.solid.value.roughness == 0.0 ==> Add(MirrorDirection(dir, hitInfo.normal.value), perturbation) == MirrorDirection(dir, hitInfo.normal.value);
    Ray(At(incomingRay, hitInfo.t), Add(MirrorDirection(dir, hitInfo.normal.value), perturbation))
  }

  /** About a unit normal, mirroring reverses the component along the normal
      (the angle of reflection equals the angle of incidence) and keeps the
      length of the direction. */
  lemma MirrorReflectsAboutNormal(dir: Vec, normal: Vec)
    requires LengthSquared(normal) == 1.0
    ensures Dot(MirrorDirection(dir, normal), normal) == -Dot(dir, normal)
    ensures LengthSquared(MirrorDirection(dir, normal)) == LengthSquared(dir)
  {
  }

  class Scene {
    var solids: seq<Solid>
    var lights: seq<Light>

    /** A scene starts with no solids and no lights. */
    constructor ()
      ensures solids == [] && lights == []
    {
      solids := [];
      lights := [];
    }

    /** Registers a solid after those already present. */
    method AddSolid(solid: Solid)
      modifies this
      ensures solids == old(solids) + [solid]
      ensures lights == old(lights)
    {
      solids := solids + [solid];
    }

    /** Registers a light after those already present. */
    method AddLight(light: Light)
      modifies this
      ensures lights == old(lights) + [light]
      ensures solids == old(solids)
    {
      lights := lights + [light];
    }

    /** The closest-hit scan over the solids, in list order. */
    method GetHitInfo(w: World, ray: Ray) returns (hitInfo: Hit)
      ensures hitInfo == ClosestHit(w, solids, ray)
    {
      hitInfo := Sentinel;
      for i := 0 to |solids|
        invariant hitInfo == ScanFrom(w, Sentinel, solids[..i], ray)
      {
        assert solids[..i + 1][..i] == solids[..i];
        var tempHitInfo := w.intersect(solids[i], ray);
        if tempHitInfo.t >= Epsilon && tempHitInfo.t <= hitInfo.t {
          hitInfo := tempHitInfo;
        }
      }
      assert solids[..|solids|] == solids;
    }

    /** Local shading of a hit: one shadow ray per light, unshadowed lights
        accumulated, the solid's colour added, every channel capped at 1.0. */
    method GetHitColor(w: World, hitInfo: Hit, incomingRay: Ray) returns (c: Vec)
      requires hitInfo.solid.Some?
      ensures c == HitColor(w, solids, lights, hitInfo, incomingRay)
    {
      var t := hitInfo.t;
      var solid := hitInfo.solid.value;
      var hitPoint := At(incomingRay, t);
      var normal := hitInfo.normal.value;
      var color := Zero;
      for i := 0 to |lights|
        invariant color == LightingFrom(w, solids, Zero, lights[..i], hitInfo, incomingRay)
      {
        assert lights[..i + 1][..i] == lights[..i];
        var lightSource := lights[i];
        var lightVec := w.normalize(Sub(lightSource.position, hitPoint));
        var lightRay := Ray(hitPoint, lightVec);
        assert lightRay == ShadowRay(w, lightSource, hitInfo, incomingRay);
        ghost var next := Accumulate(w, solids, color, lightSource, hitInfo, incomingRay);
        assert LightingFrom(w, solids, Zero, lights[..i + 1], hitInfo, incomingRay) == next;
        var lightHitInfo := GetHitInfo(w, lightRay);
        if lightHitInfo.solid.Some? {
          continue;
        }
        var bisector := w.normalize(Add(lightVec, Neg(w.normalize(incomingRay.direction))));
        var addColor := LightTerm(lightSource, solid.color, normal, lightVec, bisector);
        color := Add(color, addColor);
      }
      assert lights[..|lights|] == lights;
      color := Add(color, solid.color);
      c := ClampToOne(color);
    }

    /** The colour seen along `incomingRay` with `depth` bounces left, and
        the distance to the surface it comes from. The distance is
        `NoDistance` exactly when the budget is spent or nothing is hit;
        otherwise it is the distance of the closest hit. */
    function RayColor(w: World, incomingRay: Ray, depth: int): (p: Pixel)
      reads this
      requires depth >= 0
      decreases depth, 1
      ensures p.distance == NoDistance <==> depth == 0 || ClosestHit(w, solids, incomingRay).solid.None?
      ensures p.distance != NoDistance ==> p.distance == ClosestHit(w, solids, incomingRay).t
    {
      if depth == 0 then
        Pixel(w.sky(incomingRay.direction), NoDistance)
      else
        var hitInfo := ClosestHit(w, solids, incomingRay);
        if hitInfo.solid.Some? then
          var solid := hitInfo.solid.value;
          var hitColor := HitColor(w, solids, lights, hitInfo, incomingRay);
          if solid.reflectivity == 0.0 then
            Pixel(hitColor, hitInfo.t)
          else
            var reflectionColor := ReflectionColor(w, hitInfo, incomingRay, depth);
            var color := Add(Scale(hitColor, 1.0 - solid.reflectivity), Scale(reflectionColor, solid.reflectivity));
            Pixel(color, hitInfo.t)
        else
          Pixel(w.sky(incomingRay.direction), NoDistance)
    }

    /** The colour arriving along the reflected ray, evaluated with one
        bounce fewer; its distance is dropped. */
    function ReflectionColor(w: World, hitInfo: Hit, incomingRay: Ray, depth: int): (c: Vec)
      reads this
      requires depth >= 1 && hitInfo.solid.Some?
      decreases depth, 0
      ensures (depth == 1 || ClosestHit(w, solids, ReflectedRay(w, hitInfo, incomingRay, depth)).solid.None?) ==>
                c == w.sky(ReflectedRay(w, hitInfo, incomingRay, depth).direction)
    {
      RayColor(w, ReflectedRay(w, hitInfo, incomingRay, depth), depth - 1).color
    }
  }
}
