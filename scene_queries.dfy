/** The two scene queries of main.cpp: getClosestIntersection (the nearest hit,
    skipping one shape id) and hasIntersection (the shadow test: the intersection
    id of the first non-skipped hit in scan order whose entry point lies in a
    distance window from the ray origin short of the light, not necessarily the
    nearest). Both are linear scans over the scene's shapes
    that call nothing on a shape but its intersection test. */
module SceneQueries {
  import opened RayTrace

  /** std::numeric_limits<float>::max(), the initial bound of the closest-hit scan. */
  const FloatMax: real := 340282346638528859811704183484516925440.0

  /** Distances within which hasIntersection counts a hit as a blocker: beyond the
      ray's own origin, and short of the light by a margin. */
  const NearCutoff: real := 0.00001
  const LightMargin: real := 0.01

  function HitAt(ext: Externals, shapes: seq<Shape>, ray: Ray, k: nat): Intersection
    requires k < |shapes|
  {
    GetIntersection(ext, shapes[k], ray)
  }

  function EntryDistance(ext: Externals, shapes: seq<Shape>, ray: Ray, k: nat): real
    requires k < |shapes|
  {
    ext.distance(HitAt(ext, shapes, ray, k).entryPoint, ray.origin)
  }

  // ---------------------------------------------------------------------------
  // Closest hit

  /** A hit the closest-hit scan may take: not the skipped shape, a real hit, and
      nearer than the initial bound FLT_MAX. */
  predicate Candidate(ext: Externals, shapes: seq<Shape>, ray: Ray, skipId: int, k: nat)
    requires k < |shapes|
  {
    && shapes[k].id != skipId
    && IsHit(HitAt(ext, shapes, ray, k))
    && EntryDistance(ext, shapes, ray, k) < FloatMax
  }

  /** The value of `min` once `best` is the shape taken so far. */
  function Bound(ext: Externals, shapes: seq<Shape>, ray: Ray, best: Option<nat>): real
    requires best.Some? ==> best.value < |shapes|
  {
    match best
    case None => FloatMax
    case Some(k) => EntryDistance(ext, shapes, ray, k)
  }

  /** The index of the shape getClosestIntersection has taken after scanning the
      first n shapes, or None while it still holds the default Intersection. */
  function ClosestIndex(ext: Externals, shapes: seq<Shape>, ray: Ray, skipId: int, n: nat): (best: Option<nat>)
    requires n <= |shapes|
    ensures best.Some? ==> best.value < n && Candidate(ext, shapes, ray, skipId, best.value)
  {
    if n == 0 then None
    else
      var prev := ClosestIndex(ext, shapes, ray, skipId, n - 1);
      var k := n - 1;
      if shapes[k].id != skipId && IsHit(HitAt(ext, shapes, ray, k))
         && EntryDistance(ext, shapes, ray, k) < Bound(ext, shapes, ray, prev)
      then Some(k)
      else prev
  }

  /** What getClosestIntersection returns. */
  function ClosestHit(ext: Externals, scene: Scene, ray: Ray, skipId: int): Intersection
  {
    var shapes := scene.shapesInScene;
    match ClosestIndex(ext, shapes, ray, skipId, |shapes|)
    case None => NoHit(ext.defaultMaterial)
    case Some(k) => HitAt(ext, shapes, ray, k)
  }

  /** Shape b is the nearest candidate, and strictly nearer than every candidate
      before it: ties go to the earliest shape. */
  ghost predicate IsClosest(ext: Externals, shapes: seq<Shape>, ray: Ray, skipId: int, b: nat)
  {
    && b < |shapes|
    && Candidate(ext, shapes, ray, skipId, b)
    && (forall k :: 0 <= k < |shapes| && Candidate(ext, shapes, ray, skipId, k) ==>
          EntryDistance(ext, shapes, ray, b) <= EntryDistance(ext, shapes, ray, k))
    && (forall k :: 0 <= k < b && Candidate(ext, shapes, ray, skipId, k) ==>
          EntryDistance(ext, shapes, ray, b) < EntryDistance(ext, shapes, ray, k))
  }

  /** After n shapes the scan holds nothing exactly when none of them is a candidate,
      and otherwise holds the nearest of them, the earliest among equals. */
  lemma {:induction false} ClosestIndexIsNearest(ext: Externals, shapes: seq<Shape>, ray: Ray, skipId: int, n: nat)
    requires n <= |shapes|
    ensures ClosestIndex(ext, shapes, ray, skipId, n) == None <==>
              forall k :: 0 <= k < n ==> !Candidate(ext, shapes, ray, skipId, k)
    ensures forall k :: 0 <= k < n && Candidate(ext, shapes, ray, skipId, k) ==>
              Bound(ext, shapes, ray, ClosestIndex(ext, shapes, ray, skipId, n)) <= EntryDistance(ext, shapes, ray, k)
    ensures ClosestIndex(ext, shapes, ray, skipId, n).Some? ==>
              var b := ClosestIndex(ext, shapes, ray, skipId, n).value;
              forall k :: 0 <= k < b && Candidate(ext, shapes, ray, skipId, k) ==>
                EntryDistance(ext, shapes, ray, b) < EntryDistance(ext, shapes, ray, k)
  {
    if n > 0 {
      ClosestIndexIsNearest(ext, shapes, ray, skipId, n - 1);
    }
  }

  /** The closest-hit scan picks exactly the shape IsClosest describes. */
  lemma ClosestIndexCharacterized(ext: Externals, shapes: seq<Shape>, ray: Ray, skipId: int, b: nat)
    ensures ClosestIndex(ext, shapes, ray, skipId, |shapes|) == Some(b) <==> IsClosest(ext, shapes, ray, skipId, b)
  {
    var n := |shapes|;
    ClosestIndexIsNearest(ext, shapes, ray, skipId, n);
    if IsClosest(ext, shapes, ray, skipId, b) {
      var c := ClosestIndex(ext, shapes, ray, skipId, n).value;
      assert EntryDistance(ext, shapes, ray, b) <= EntryDistance(ext, shapes, ray, c);
      assert EntryDistance(ext, shapes, ray, c) <= EntryDistance(ext, shapes, ray, b);
    }
  }

  /** getClosestIntersection returns the default Intersection exactly when no shape
      other than the skipped one reports a hit (nearer than FLT_MAX); otherwise it
      returns the hit of the closest such shape, never one of the skipped id. */
  lemma ClosestHitSpec(ext: Externals, scene: Scene, ray: Ray, skipId: int)
    ensures var shapes := scene.shapesInScene;
      (!IsHit(ClosestHit(ext, scene, ray, skipId)) <==>
         forall k :: 0 <= k < |shapes| ==> !Candidate(ext, shapes, ray, skipId, k))
    ensures var shapes := scene.shapesInScene;
      !IsHit(ClosestHit(ext, scene, ray, skipId)) ==> ClosestHit(ext, scene, ray, skipId) == NoHit(ext.defaultMaterial)
    ensures var shapes := scene.shapesInScene;
      IsHit(ClosestHit(ext, scene, ray, skipId)) ==>
        exists b :: 0 <= b < |shapes| && IsClosest(ext, shapes, ray, skipId, b)
          && shapes[b].id != skipId && ClosestHit(ext, scene, ray, skipId) == HitAt(ext, shapes, ray, b)
  {
    var shapes := scene.shapesInScene;
    ClosestIndexIsNearest(ext, shapes, ray, skipId, |shapes|);
    match ClosestIndex(ext, shapes, ray, skipId, |shapes|)
    case None =>
    case Some(b) =>
      ClosestIndexCharacterized(ext, shapes, ray, skipId, b);
  }

  /** getClosestIntersection (main.cpp): a scan that keeps the nearest hit so far. */
  method GetClosestIntersection(ext: Externals, scene: Scene, ray: Ray, skipId: int) returns (closest: Intersection)
    ensures closest == ClosestHit(ext, scene, ray, skipId)
  {
    var shapes := scene.shapesInScene;
    closest := NoHit(ext.defaultMaterial);
    var min := FloatMax;
    ghost var best: Option<nat> := None;
    for i := 0 to |shapes|
      invariant best == ClosestIndex(ext, shapes, ray, skipId, i)
      invariant min == Bound(ext, shapes, ray, best)
      invariant closest == match best
        case None => NoHit(ext.defaultMaterial)
        case Some(k) => HitAt(ext, shapes, ray, k)
    {
      if skipId == shapes[i].id {
        continue;
      }
      var p := GetIntersection(ext, shapes[i], ray);
      var distance := ext.distance(p.entryPoint, ray.origin);
      if IsHit(p) && distance < min {
        min := distance;
        closest := p;
        best := Some(i);
      }
    }
  }

  // ---------------------------------------------------------------------------
  // Shadow test

  /** Shape k blocks: not the skipped shape, a real hit, and its entry point lies
      strictly between the ray's origin and (a margin short of) the light. */
  predicate Blocks(ext: Externals, scene: Scene, ray: Ray, skipId: int, k: nat)
    requires k < |scene.shapesInScene|
  {
    var shapes := scene.shapesInScene;
    var tmp := HitAt(ext, shapes, ray, k);
    && shapes[k].id != skipId
    && IsHit(tmp)
    && ext.distance(tmp.entryPoint, ray.origin) > NearCutoff
    && ext.distance(tmp.entryPoint, ray.origin) < ext.distance(ray.origin, scene.lightPosition) - LightMargin
  }

  /** The first blocker at or after index i, in scan order. */
  function FirstBlockerFrom(ext: Externals, scene: Scene, ray: Ray, skipId: int, i: nat): (r: Option<nat>)
    requires i <= |scene.shapesInScene|
    ensures r.Some? ==> i <= r.value < |scene.shapesInScene| && Blocks(ext, scene, ray, skipId, r.value)
    decreases |scene.shapesInScene| - i
  {
    if i == |scene.shapesInScene| then None
    else if Blocks(ext, scene, ray, skipId, i) then Some(i)
    else FirstBlockerFrom(ext, scene, ray, skipId, i + 1)
  }

  /** What hasIntersection returns: the intersection id of the first blocker, or -1. */
  function BlockerId(ext: Externals, scene: Scene, ray: Ray, skipId: int): int
  {
    match FirstBlockerFrom(ext, scene, ray, skipId, 0)
    case None => -1
    case Some(k) => HitAt(ext, scene.shapesInScene, ray, k).id
  }

  /** From index i, the scan finds nothing exactly when no later shape blocks, and
      otherwise stops at a blocker with no blocker before it. */
  lemma {:induction false} FirstBlockerIsFirst(ext: Externals, scene: Scene, ray: Ray, skipId: int, i: nat)
    requires i <= |scene.shapesInScene|
    ensures FirstBlockerFrom(ext, scene, ray, skipId, i) == None <==>
              forall k :: i <= k < |scene.shapesInScene| ==> !Blocks(ext, scene, ray, skipId, k)
    ensures FirstBlockerFrom(ext, scene, ray, skipId, i).Some? ==>
              forall k :: i <= k < FirstBlockerFrom(ext, scene, ray, skipId, i).value ==>
                !Blocks(ext, scene, ray, skipId, k)
    decreases |scene.shapesInScene| - i
  {
    if i < |scene.shapesInScene| {
      FirstBlockerIsFirst(ext, scene, ray, skipId, i + 1);
    }
  }

  /** The intersections report the owning shape's id, which is never -1. */
  ghost predicate HitsCarryIds(ext: Externals, scene: Scene, ray: Ray)
  {
    forall k :: 0 <= k < |scene.shapesInScene| && IsHit(HitAt(ext, scene.shapesInScene, ray, k)) ==>
      HitAt(ext, scene.shapesInScene, ray, k).id == scene.shapesInScene[k].id != -1
  }

  /** hasIntersection answers a blocker's id only if some shape blocks, and then the
      first blocker in scan order (not necessarily the nearest); when the hits carry
      their shapes' ids, -1 means exactly that nothing blocks. */
  lemma BlockerIdSpec(ext: Externals, scene: Scene, ray: Ray, skipId: int)
    ensures (forall k :: 0 <= k < |scene.shapesInScene| ==> !Blocks(ext, scene, ray, skipId, k)) ==>
              BlockerId(ext, scene, ray, skipId) == -1
    ensures (exists k :: 0 <= k < |scene.shapesInScene| && Blocks(ext, scene, ray, skipId, k)) ==>
              exists k :: 0 <= k < |scene.shapesInScene| && Blocks(ext, scene, ray, skipId, k)
                && (forall j :: 0 <= j < k ==> !Blocks(ext, scene, ray, skipId, j))
                && BlockerId(ext, scene, ray, skipId) == HitAt(ext, scene.shapesInScene, ray, k).id
    ensures HitsCarryIds(ext, scene, ray) ==>
              (BlockerId(ext, scene, ray, skipId) == -1 <==>
                 forall k :: 0 <= k < |scene.shapesInScene| ==> !Blocks(ext, scene, ray, skipId, k))
  {
    FirstBlockerIsFirst(ext, scene, ray, skipId, 0);
  }

  /** With no hypothesis on the ids, hasIntersection answers -1 exactly when nothing
      blocks or the first blocker's intersection reports id -1. */
  lemma BlockerIdExact(ext: Externals, scene: Scene, ray: Ray, skipId: int)
    ensures BlockerId(ext, scene, ray, skipId) == -1 <==>
              (forall k :: 0 <= k < |scene.shapesInScene| ==> !Blocks(ext, scene, ray, skipId, k))
              || (exists k :: 0 <= k < |scene.shapesInScene| && Blocks(ext, scene, ray, skipId, k)
                   && (forall j :: 0 <= j < k ==> !Blocks(ext, scene, ray, skipId, j))
                   && HitAt(ext, scene.shapesInScene, ray, k).id == -1)
  {
    FirstBlockerIsFirst(ext, scene, ray, skipId, 0);
  }

  /** hasIntersection (main.cpp): an early-return scan for the first blocker. */
  method HasIntersection(ext: Externals, scene: Scene, ray: Ray, skipId: int) returns (id: int)
    ensures id == BlockerId(ext, scene, ray, skipId)
  {
    var shapes := scene.shapesInScene;
    for i := 0 to |shapes|
      invariant FirstBlockerFrom(ext, scene, ray, skipId, 0) == FirstBlockerFrom(ext, scene, ray, skipId, i)
    {
      var tmp := GetIntersection(ext, shapes[i], ray);
      if shapes[i].id != skipId
         && IsHit(tmp)
         && ext.distance(tmp.entryPoint, ray.origin) > NearCutoff
         && ext.distance(tmp.entryPoint, ray.origin) < ext.distance(ray.origin, scene.lightPosition) - LightMargin
      {
        return tmp.id;
      }
    }
    return -1;
  }

  /** A two-sphere scene, with a ray from the origin along -z, in which
      both spheres block the way to the light at z = -10, and hasIntersection
      reports the farther sphere (radius 1 about z = -5, entered at z = -4), first in
      scan order, while getClosestIntersection reports the nearer
      one (radius 0.5 about z = -2, entered at z = -1.5). */
  lemma FirstBlockerNeedNotBeClosest()
    ensures var m := Material(Zero, Zero, Zero, 0.0, []);
      var hitOf := (s: Shape, r: Ray) =>
        Intersection(1, Vec3(0.0, 0.0, if s.id == 1 then -4.0 else -1.5), Zero, Zero, Zero, s.id, m);
      var ext := Externals(hitOf, hitOf, hitOf,
                           (a: Vec3, b: Vec3) => if a.z < b.z then b.z - a.z else a.z - b.z,
                           (v: Vec3) => v, (n: Vec3, d: Vec3, k: real) => d,
                           (r: Ray, sc: Scene, mat: Material, p: Intersection) => Zero, m);
      var scene := Scene([Shape(1, m, Sphere(Vec3(0.0, 0.0, -5.0), 1.0)),
                          Shape(2, m, Sphere(Vec3(0.0, 0.0, -2.0), 0.5))],
                         Vec3(0.0, 0.0, -10.0));
      var ray := Ray(Zero, Vec3(0.0, 0.0, -1.0));
      Blocks(ext, scene, ray, -1, 0) && Blocks(ext, scene, ray, -1, 1)
        && BlockerId(ext, scene, ray, -1) == 1 && ClosestHit(ext, scene, ray, -1).id == 2
  {
  }

  // ---------------------------------------------------------------------------
  // Both scans see a shape only through its intersection test

  lemma {:induction false} ClosestIndexSeesOnlyHits(ext: Externals, s1: seq<Shape>, s2: seq<Shape>, ray: Ray, skipId: int, n: nat)
    requires n <= |s1| == |s2|
    requires forall k :: 0 <= k < |s1| ==>
               s1[k].id == s2[k].id && GetIntersection(ext, s1[k], ray) == GetIntersection(ext, s2[k], ray)
    ensures ClosestIndex(ext, s1, ray, skipId, n) == ClosestIndex(ext, s2, ray, skipId, n)
  {
    if n > 0 {
      ClosestIndexSeesOnlyHits(ext, s1, s2, ray, skipId, n - 1);
    }
  }

  lemma {:induction false} FirstBlockerSeesOnlyHits(ext: Externals, a: Scene, b: Scene, ray: Ray, skipId: int, i: nat)
    requires i <= |a.shapesInScene| == |b.shapesInScene|
    requires a.lightPosition == b.lightPosition
    requires forall k :: 0 <= k < |a.shapesInScene| ==>
               a.shapesInScene[k].id == b.shapesInScene[k].id
               && GetIntersection(ext, a.shapesInScene[k], ray) == GetIntersection(ext, b.shapesInScene[k], ray)
    ensures FirstBlockerFrom(ext, a, ray, skipId, i) == FirstBlockerFrom(ext, b, ray, skipId, i)
    decreases |a.shapesInScene| - i
  {
    if i < |a.shapesInScene| {
      FirstBlockerSeesOnlyHits(ext, a, b, ray, skipId, i + 1);
    }
  }

  /** Two scenes whose shapes have the same ids and answer getIntersection alike
      (whatever their variants and geometry) give the same answers to both queries. */
  lemma ScansSeeOnlyIntersections(ext: Externals, a: Scene, b: Scene, ray: Ray, skipId: int)
    requires |a.shapesInScene| == |b.shapesInScene|
    requires a.lightPosition == b.lightPosition
    requires forall k :: 0 <= k < |a.shapesInScene| ==>
               a.shapesInScene[k].id == b.shapesInScene[k].id
               && GetIntersection(ext, a.shapesInScene[k], ray) == GetIntersection(ext, b.shapesInScene[k], ray)
    ensures ClosestHit(ext, a, ray, skipId) == ClosestHit(ext, b, ray, skipId)
    ensures BlockerId(ext, a, ray, skipId) == BlockerId(ext, b, ray, skipId)
  {
    ClosestIndexSeesOnlyHits(ext, a.shapesInScene, b.shapesInScene, ray, skipId, |a.shapesInScene|);
    FirstBlockerSeesOnlyHits(ext, a, b, ray, skipId, 0);
  }
}
