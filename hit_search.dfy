/** The closest-hit search of the scene (`Scene.getHitInfo`), as the left
    fold the scan performs, and what that fold selects. */
module HitSearch {
  import opened Vectors
  import opened Elements

  /** Hits nearer than this are taken for the ray's own origin. */
  const Epsilon: real := 0.001

  /** The distance of the "no hit" record the scan starts from. */
  const Far: real := 99999.0

  /** The record the scan starts from: no solid, no normal. */
  const Sentinel: Hit := HitInfo(Far, None, None)

  /** A candidate the scan can ever take: at least `Epsilon` away and no
      farther than the sentinel. */
  predicate InRange(h: HitInfo) {
    Epsilon <= h.t <= Far
  }

  /** One step of the scan: the candidate replaces the best record when it
      is at least `Epsilon` away and not farther than the best. */
  function Accept(best: Hit, candidate: Hit): (h: Hit)
    ensures h == best || h == candidate
    ensures h.t <= best.t
    ensures Epsilon <= candidate.t <= best.t ==> h == candidate
    ensures candidate.t < Epsilon ==> h == best
  {
    if candidate.t >= Epsilon && candidate.t <= best.t then candidate else best
  }

  /** The record the scan holds after visiting `solids` in order, starting
      from `best`. */
  function ScanFrom(w: World, best: Hit, solids: seq<Solid>, ray: Ray): (h: Hit)
    decreases |solids|
    ensures h.t <= best.t
    ensures h == best || (Epsilon <= h.t && exists i :: 0 <= i < |solids| && h == w.intersect(solids[i], ray))
  {
    if solids == [] then best
    else
      var prefix := solids[..|solids| - 1];
      var h' := ScanFrom(w, best, prefix, ray);
      assert h' != best ==> exists i :: 0 <= i < |solids| && h' == w.intersect(solids[i], ray) by {
        if h' != best {
          var i :| 0 <= i < |prefix| && h' == w.intersect(prefix[i], ray);
          assert prefix[i] == solids[i];
        }
      }
      Accept(h', w.intersect(solids[|solids| - 1], ray))
  }

  /** The result of `Scene.getHitInfo`: the scan over all solids from the
      sentinel. It is either the sentinel or a record some solid reported,
      and never nearer than `Epsilon` or farther than `Far`. */
  function ClosestHit(w: World, solids: seq<Solid>, ray: Ray): (h: Hit)
    ensures InRange(h)
    ensures h == Sentinel || exists i :: 0 <= i < |solids| && h == w.intersect(solids[i], ray)
  {
    ScanFrom(w, Sentinel, solids, ray)
  }

  /** Solid `k` reports the nearest admissible hit, and no later solid
      reports an admissible hit at the same distance. */
  ghost predicate IsLastNearest(w: World, solids: seq<Solid>, ray: Ray, k: int) {
    && 0 <= k < |solids|
    && InRange(w.intersect(solids[k], ray))
    && (forall i :: 0 <= i < |solids| && InRange(w.intersect(solids[i], ray)) ==>
          w.intersect(solids[k], ray).t <= w.intersect(solids[i], ray).t)
    && (forall i :: k < i < |solids| && InRange(w.intersect(solids[i], ray)) ==>
          w.intersect(solids[k], ray).t < w.intersect(solids[i], ray).t)
  }

  /** The closest-hit search never returns a distance beyond an admissible
      candidate's. */
  lemma {:induction false} ClosestHitIsMinimal(w: World, solids: seq<Solid>, ray: Ray)
    ensures forall i :: 0 <= i < |solids| && InRange(w.intersect(solids[i], ray)) ==>
              ClosestHit(w, solids, ray).t <= w.intersect(solids[i], ray).t
  {
    if solids != [] {
      var n := |solids| - 1;
      var prefix := solids[..n];
      ClosestHitIsMinimal(w, prefix, ray);
      assert forall i :: 0 <= i < n ==> prefix[i] == solids[i];
    }
  }

  /** With no admissible candidate the search returns the sentinel
      untouched. */
  lemma ClosestHitWithoutCandidate(w: World, solids: seq<Solid>, ray: Ray)
    requires forall i :: 0 <= i < |solids| ==> !InRange(w.intersect(solids[i], ray))
    ensures ClosestHit(w, solids, ray) == Sentinel
  {
  }

  /** With an admissible candidate the search is an argmin with ties going
      to the later solid: it returns the record of the last solid, in list
      order, among those reporting the minimum admissible distance. */
  lemma {:induction false} ClosestHitIsLastNearest(w: World, solids: seq<Solid>, ray: Ray)
    requires exists i :: 0 <= i < |solids| && InRange(w.intersect(solids[i], ray))
    ensures exists k :: IsLastNearest(w, solids, ray, k) && ClosestHit(w, solids, ray) == w.intersect(solids[k], ray)
  {
    var n := |solids| - 1;
    var prefix := solids[..n];
    var c := w.intersect(solids[n], ray);
    var hp := ClosestHit(w, prefix, ray);
    assert ClosestHit(w, solids, ray) == Accept(hp, c);
    assert forall i :: 0 <= i < n ==> prefix[i] == solids[i];
    ClosestHitIsMinimal(w, prefix, ray);
    if InRange(c) && c.t <= hp.t {
      assert IsLastNearest(w, solids, ray, n);
    } else {
      assert ClosestHit(w, solids, ray) == hp;
      var i :| 0 <= i < |solids| && InRange(w.intersect(solids[i], ray));
      if !InRange(c) {
        assert i < n && InRange(w.intersect(prefix[i], ray));
      } else if forall j :: 0 <= j < n ==> !InRange(w.intersect(prefix[j], ray)) {
        ClosestHitWithoutCandidate(w, prefix, ray);
        assert false;
      }
      ClosestHitIsLastNearest(w, prefix, ray);
      var k :| IsLastNearest(w, prefix, ray, k) && hp == w.intersect(prefix[k], ray);
      assert IsLastNearest(w, solids, ray, k);
    }
  }

  /** Ties go to the later solid: when solid `j` reports the minimum
      admissible distance, the result comes from `j` or from a solid after
      it, never from an earlier solid at the same distance. */
  lemma TieGoesToLaterSolid(w: World, solids: seq<Solid>, ray: Ray, j: int)
    requires 0 <= j < |solids| && InRange(w.intersect(solids[j], ray))
    requires forall i :: 0 <= i < |solids| && InRange(w.intersect(solids[i], ray)) ==>
               w.intersect(solids[j], ray).t <= w.intersect(solids[i], ray).t
    ensures exists k :: j <= k < |solids| && ClosestHit(w, solids, ray) == w.intersect(solids[k], ray)
  {
    ClosestHitIsLastNearest(w, solids, ray);
    var k :| IsLastNearest(w, solids, ray, k) && ClosestHit(w, solids, ray) == w.intersect(solids[k], ray);
    assert j <= k;
  }

  /** A candidate outside `[Epsilon, Far]` is never the result, wherever its
      solid stands in the list. */
  lemma NeverSelectsRejected(w: World, solids: seq<Solid>, ray: Ray, i: int)
    requires 0 <= i < |solids|
    requires !InRange(w.intersect(solids[i], ray))
    ensures ClosestHit(w, solids, ray) != w.intersect(solids[i], ray)
  {
  }

  /** Scanning a concatenation is scanning the second part from where the
      first part left off. */
  lemma {:induction false} ScanAppend(w: World, best: Hit, a: seq<Solid>, b: seq<Solid>, ray: Ray)
    ensures ScanFrom(w, best, a + b, ray) == ScanFrom(w, ScanFrom(w, best, a, ray), b, ray)
    decreases |b|
  {
    if b == [] {
      assert a + b == a;
    } else {
      var n := |b| - 1;
      assert (a + b)[..|a + b| - 1] == a + b[..n];
      assert (a + b)[|a + b| - 1] == b[n];
      ScanAppend(w, best, a, b[..n], ray);
    }
  }

  /** A solid whose candidate lies outside `[Epsilon, Far]` can be taken out
      of the list without changing the search's result: in particular a
      surface reporting a self-intersection nearer than `Epsilon` never
      counts as a hit. */
  lemma RejectedSolidIrrelevant(w: World, a: seq<Solid>, s: Solid, b: seq<Solid>, ray: Ray)
    requires !InRange(w.intersect(s, ray))
    ensures ClosestHit(w, a + [s] + b, ray) == ClosestHit(w, a + b, ray)
  {
    var h := ScanFrom(w, Sentinel, a, ray);
    ScanAppend(w, Sentinel, a + [s], b, ray);
    ScanAppend(w, Sentinel, a, [s], ray);
    assert [s][..0] == [];
    assert ScanFrom(w, h, [s], ray) == Accept(h, w.intersect(s, ray));
    ScanAppend(w, Sentinel, a, b, ray);
  }
}
