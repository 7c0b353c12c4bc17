/** What the recursive colour evaluation of a scene (`Scene.getRayColor`)
    guarantees: its terminal cases, its reflectivity branches, which random
    samples it can draw, and the range of the colours it returns. */
module RayColorFacts {
  import opened Vectors
  import opened Elements
  import opened HitSearch
  import opened Shading
  import opened Raytracer

  /** With no bounce left the result is the sky seen along the ray, and no
      solid is consulted. */
  lemma DepthZeroIsSky(sc: Scene, w: World, ray: Ray)
    ensures sc.RayColor(w, ray, 0) == Pixel(w.sky(ray.direction), NoDistance)
  {
  }

  /** When the closest-hit search names no solid, the result is the sky seen
      along the ray, whatever the budget. */
  lemma NoHitIsSky(sc: Scene, w: World, ray: Ray, depth: int)
    requires depth >= 0
    requires ClosestHit(w, sc.solids, ray).solid.None?
    ensures sc.RayColor(w, ray, depth) == Pixel(w.sky(ray.direction), NoDistance)
  {
  }

  /** A scene without solids shows the sky along every ray. */
  lemma EmptySceneIsSky(sc: Scene, w: World, ray: Ray, depth: int)
    requires depth >= 0 && sc.solids == []
    ensures sc.RayColor(w, ray, depth) == Pixel(w.sky(ray.direction), NoDistance)
  {
  }

  /** A hit on a solid of reflectivity exactly 0 gives the local colour and
      the hit distance; no reflection is evaluated, so neither the remaining
      budget nor the random samples change the result. */
  lemma NonReflectiveHitIsLocal(sc: Scene, w: World, ray: Ray, depth: int, otherDepth: int, otherSample: int -> Vec)
    requires depth >= 1 && otherDepth >= 1
    requires ClosestHit(w, sc.solids, ray).solid.Some?
    requires ClosestHit(w, sc.solids, ray).solid.value.reflectivity == 0.0
    ensures sc.RayColor(w, ray, depth)
         == Pixel(HitColor(w, sc.solids, sc.lights, ClosestHit(w, sc.solids, ray), ray), ClosestHit(w, sc.solids, ray).t)
    ensures sc.RayColor(w.(sample := otherSample), ray, otherDepth) == sc.RayColor(w, ray, depth)
  {
    var w' := w.(sample := otherSample);
    var hit := ClosestHit(w, sc.solids, ray);
    ClosestHitSameIntersections(w, w', sc.solids, ray);
    HitColorSameIntersections(w, w', sc.solids, sc.lights, hit, ray);
  }

  /** A hit on a solid of non-zero reflectivity `r` blends the local colour
      with weight `1 - r` and the reflected colour with weight `r`, and
      reports the distance of this first hit, not of the reflected one. */
  lemma ReflectiveHitBlends(sc: Scene, w: World, ray: Ray, depth: int)
    requires depth >= 1
    requires ClosestHit(w, sc.solids, ray).solid.Some?
    requires ClosestHit(w, sc.solids, ray).solid.value.reflectivity != 0.0
    ensures (var hit := ClosestHit(w, sc.solids, ray);
             var r := hit.solid.value.reflectivity;
             sc.RayColor(w, ray, depth)
             == Pixel(Add(Scale(HitColor(w, sc.solids, sc.lights, hit, ray), 1.0 - r),
                          Scale(sc.ReflectionColor(w, hit, ray, depth), r)),
                      hit.t))
  {
  }

  /** On a solid of reflectivity 1 the local colour weighs nothing: the
      colour is exactly the reflected colour. */
  lemma FullyReflectiveIsPureReflection(sc: Scene, w: World, ray: Ray, depth: int)
    requires depth >= 1
    requires ClosestHit(w, sc.solids, ray).solid.Some?
    requires ClosestHit(w, sc.solids, ray).solid.value.reflectivity == 1.0
    ensures sc.RayColor(w, ray, depth).color == sc.ReflectionColor(w, ClosestHit(w, sc.solids, ray), ray, depth)
    ensures sc.RayColor(w, ray, depth).distance == ClosestHit(w, sc.solids, ray).t
  {
  }

  /** A perfect mirror (reflectivity 1, roughness 0) whose reflected ray
      escapes, or has no bounce left, shows the sky in the exact mirror
      direction of the normalised incoming direction, at the distance of the
      mirror itself. */
  lemma PerfectMirrorShowsMirroredSky(sc: Scene, w: World, ray: Ray, depth: int)
    requires depth >= 1
    requires ClosestHit(w, sc.solids, ray).solid.Some?
    requires ClosestHit(w, sc.solids, ray).solid.value.reflectivity == 1.0
    requires ClosestHit(w, sc.solids, ray).solid.value.roughness == 0.0
    requires depth == 1 || ClosestHit(w, sc.solids, ReflectedRay(w, ClosestHit(w, sc.solids, ray), ray, depth)).solid.None?
    ensures (var hit := ClosestHit(w, sc.solids, ray);
             sc.RayColor(w, ray, depth)
             == Pixel(w.sky(MirrorDirection(w.normalize(ray.direction), hit.normal.value)), hit.t))
  {
    var hit := ClosestHit(w, sc.solids, ray);
    var mirror := MirrorDirection(w.normalize(ray.direction), hit.normal.value);
    assert Add(mirror, Scale(w.sample(depth), 0.0)) == mirror;
    FullyReflectiveIsPureReflection(sc, w, ray, depth);
  }

  /** A solid's material keeps the blend convex and the colours displayable:
      reflectivity in [0, 1] and a non-negative colour. */
  predicate ValidMaterial(s: Solid) {
    0.0 <= s.reflectivity <= 1.0 && NonNegative(s.color)
  }

  /** Every solid that a hit on one of the scene's solids names has a valid
      material; solids outside the scene are unconstrained. */
  ghost predicate ReportsValidMaterials(w: World, solids: seq<Solid>) {
    forall i, r :: 0 <= i < |solids| && w.intersect(solids[i], r).solid.Some? ==>
      ValidMaterial(w.intersect(solids[i], r).solid.value)
  }

  /** The usual world, where a hit names the solid that was intersected,
      meets the hypothesis as soon as the scene's own solids are valid. */
  lemma SelfReportingWorldReportsValidMaterials(w: World, solids: seq<Solid>)
    requires forall s, r :: w.intersect(s, r).solid.Some? ==> w.intersect(s, r).solid.value == s
    requires forall s :: s in solids ==> ValidMaterial(s)
    ensures ReportsValidMaterials(w, solids)
  {
  }

  /** With a sky of displayable colours, reflectivities in [0, 1], and
      non-negative solid colours, light colours and intensities, every colour
      the evaluation returns lies in [0, 1] on every channel, at every
      depth. */
  lemma {:induction false} RayColorInUnitCube(sc: Scene, w: World, ray: Ray, depth: int)
    requires depth >= 0
    requires forall d :: InUnitCube(w.sky(d))
    requires ReportsValidMaterials(w, sc.solids)
    requires forall l :: l in sc.lights ==> l.intensity >= 0.0 && NonNegative(l.color)
    ensures InUnitCube(sc.RayColor(w, ray, depth).color)
    decreases depth
  {
    if depth > 0 {
      var hit := ClosestHit(w, sc.solids, ray);
      if hit.solid.Some? {
        assert hit == Sentinel || exists i :: 0 <= i < |sc.solids| && hit == w.intersect(sc.solids[i], ray);
        var solid := hit.solid.value;
        assert 0.0 <= solid.reflectivity <= 1.0 && NonNegative(solid.color) by {
          var i :| 0 <= i < |sc.solids| && hit == w.intersect(sc.solids[i], ray);
        }
        HitColorInUnitCube(w, sc.solids, sc.lights, hit, ray);
        if solid.reflectivity != 0.0 {
          RayColorInUnitCube(sc, w, ReflectedRay(w, hit, ray, depth), depth - 1);
          BlendInUnitCube(HitColor(w, sc.solids, sc.lights, hit, ray), sc.ReflectionColor(w, hit, ray, depth), solid.reflectivity);
        }
      }
    }
  }

  /** The evaluation draws at most one random sample per bounce of its
      budget: two worlds that differ only in their samples, and agree on the
      samples for budgets 1 to `depth`, give the same pixel. */
  lemma {:induction false} SamplesBeyondBudgetUnused(sc: Scene, w: World, sample: int -> Vec, ray: Ray, depth: int)
    requires depth >= 0
    requires forall d :: 1 <= d <= depth ==> sample(d) == w.sample(d)
    ensures sc.RayColor(w.(sample := sample), ray, depth) == sc.RayColor(w, ray, depth)
    decreases depth
  {
    var w' := w.(sample := sample);
    if depth > 0 {
      var hit := ClosestHit(w, sc.solids, ray);
      assert ClosestHit(w', sc.solids, ray) == hit by {
        ClosestHitSameIntersections(w, w', sc.solids, ray);
      }
      if hit.solid.Some? {
        assert HitColor(w', sc.solids, sc.lights, hit, ray) == HitColor(w, sc.solids, sc.lights, hit, ray) by {
          HitColorSameIntersections(w, w', sc.solids, sc.lights, hit, ray);
        }
        if hit.solid.value.reflectivity != 0.0 {
          assert ReflectedRay(w', hit, ray, depth) == ReflectedRay(w, hit, ray, depth);
          SamplesBeyondBudgetUnused(sc, w, sample, ReflectedRay(w, hit, ray, depth), depth - 1);
        }
      }
    }
  }

  /** The closest-hit search depends on the world only through its
      intersection function. */
  lemma {:induction false} ClosestHitSameIntersections(w: World, w': World, solids: seq<Solid>, ray: Ray)
    requires w'.intersect == w.intersect
    ensures ClosestHit(w', solids, ray) == ClosestHit(w, solids, ray)
  {
    ScanSameIntersections(w, w', Sentinel, solids, ray);
  }

  lemma {:induction false} ScanSameIntersections(w: World, w': World, best: Hit, solids: seq<Solid>, ray: Ray)
    requires w'.intersect == w.intersect
    ensures ScanFrom(w', best, solids, ray) == ScanFrom(w, best, solids, ray)
    decreases |solids|
  {
    if solids != [] {
      ScanSameIntersections(w, w', best, solids[..|solids| - 1], ray);
    }
  }

  /** Local shading depends on the world only through its intersection and
      normalisation functions. */
  lemma {:induction false} HitColorSameIntersections(w: World, w': World, solids: seq<Solid>, lights: seq<Light>, hit: Hit, ray: Ray)
    requires hit.solid.Some?
    requires w'.intersect == w.intersect && w'.normalize == w.normalize
    ensures HitColor(w', solids, lights, hit, ray) == HitColor(w, solids, lights, hit, ray)
  {
    LightingSameIntersections(w, w', solids, Zero, lights, hit, ray);
  }

  lemma {:induction false} LightingSameIntersections(w: World, w': World, solids: seq<Solid>, color: Vec, lights: seq<Light>, hit: Hit, ray: Ray)
    requires hit.solid.Some?
    requires w'.intersect == w.intersect && w'.normalize == w.normalize
    ensures LightingFrom(w', solids, color, lights, hit, ray) == LightingFrom(w, solids, color, lights, hit, ray)
    decreases |lights|
  {
    if lights != [] {
      var n := |lights| - 1;
      var before := LightingFrom(w, solids, color, lights[..n], hit, ray);
      LightingSameIntersections(w, w', solids, color, lights[..n], hit, ray);
      var shadowRay := ShadowRay(w, lights[n], hit, ray);
      assert ShadowRay(w', lights[n], hit, ray) == shadowRay;
      ClosestHitSameIntersections(w, w', solids, shadowRay);
      assert w'.normalize(ray.direction) == w.normalize(ray.direction);
      assert Accumulate(w', solids, before, lights[n], hit, ray) == Accumulate(w, solids, before, lights[n], hit, ray);
    }
  }
}
