/** raytraceSingleRay (main.cpp): local Phong shading of the closest hit, the shadow
    rule, and the reflection and refraction terms, each traced by a recursive call
    with one less unit of depth that skips every shape whose id equals the hit's
    intersection id (`result.id`). */
module Shading {
  import opened RayTrace
  import opened SceneQueries

  /** The arguments of one recursive call of raytraceSingleRay. */
  datatype Call = Call(ray: Ray, depth: int, sourceId: int)

  /** The ray from a hit's entry point toward the light. */
  function ShadowRay(ext: Externals, scene: Scene, hit: Intersection): (r: Ray)
    ensures r.origin == hit.entryPoint
  {
    Ray(hit.entryPoint, ext.normalize(Sub(scene.lightPosition, hit.entryPoint)))
  }

  /** The shadow query, skipping the shape that was hit, finds a blocker. */
  predicate InShadow(ext: Externals, scene: Scene, hit: Intersection)
  {
    BlockerId(ext, scene, ShadowRay(ext, scene, hit), hit.id) != -1
  }

  /** The call is past its terminal test (depth left, a hit) and the hit is lit:
      the only case in which secondary rays are considered. */
  predicate Lit(ext: Externals, scene: Scene, ray: Ray, depth: int, sourceId: int)
  {
    var hit := ClosestHit(ext, scene, ray, sourceId);
    depth >= 1 && IsHit(hit) && !InShadow(ext, scene, hit)
  }

  /** The mirror direction `normalize(2 (N . -d) N + d)`. */
  function ReflectedDirection(ext: Externals, normal: Vec3, direction: Vec3): Vec3
  {
    ext.normalize(Add(Scale(2.0 * Dot(normal, Neg(direction)), normal), direction))
  }

  /** The reflected direction is the usual mirror image `d - 2 (N . d) N` of d about
      the normal, normalised. */
  lemma ReflectionIsMirror(ext: Externals, normal: Vec3, direction: Vec3)
    ensures ReflectedDirection(ext, normal, direction)
              == ext.normalize(Sub(direction, Scale(2.0 * Dot(normal, direction), normal)))
  {
    var k := Dot(normal, direction);
    assert Dot(normal, Neg(direction)) == -k;
    assert Add(Scale(2.0 * -k, normal), direction) == Sub(direction, Scale(2.0 * k, normal));
  }

  /** The refracted ray: from the exit point, bent by transmitRay at the exit normal. */
  function TransmittedRay(ext: Externals, hit: Intersection): (r: Ray)
    ensures r.origin == hit.exitPoint
  {
    var through := ext.normalize(Sub(hit.exitPoint, hit.entryPoint));
    Ray(hit.exitPoint, ext.transmitRay(hit.exitNormal, through, hit.material.indexOfRefraction))
  }

  /** The recursive call for the reflection term, if one is made. */
  function ReflectionCall(ext: Externals, scene: Scene, ray: Ray, depth: int, sourceId: int): (call: Option<Call>)
    ensures call.Some? ==> depth >= 1 && call.value.depth == depth - 1
    ensures call.Some? ==> call.value.sourceId == ClosestHit(ext, scene, ray, sourceId).id
    ensures call.Some? ==> call.value.ray.origin == ClosestHit(ext, scene, ray, sourceId).entryPoint
  {
    var hit := ClosestHit(ext, scene, ray, sourceId);
    if Lit(ext, scene, ray, depth, sourceId) && hit.material.reflectionStrength != Zero
    then Some(Call(Ray(hit.entryPoint, ReflectedDirection(ext, hit.entryNormal, ray.direction)), depth - 1, hit.id))
    else None
  }

  /** The recursive call for the refraction term, if one is made. */
  function RefractionCall(ext: Externals, scene: Scene, ray: Ray, depth: int, sourceId: int): (call: Option<Call>)
    ensures call.Some? ==> depth >= 1 && call.value.depth == depth - 1
    ensures call.Some? ==> call.value.sourceId == ClosestHit(ext, scene, ray, sourceId).id
    ensures call.Some? ==> call.value.ray.origin == ClosestHit(ext, scene, ray, sourceId).exitPoint
  {
    var hit := ClosestHit(ext, scene, ray, sourceId);
    if Lit(ext, scene, ray, depth, sourceId) && hit.material.indexOfRefraction != 0.0
    then Some(Call(TransmittedRay(ext, hit), depth - 1, hit.id))
    else None
  }

  /** phong.material: the hit's material, with diffuse and specular zeroed when a
      hit with depth left is in shadow. */
  function LocalMaterial(ext: Externals, scene: Scene, ray: Ray, depth: int, sourceId: int): (m: Material)
    ensures var hit := ClosestHit(ext, scene, ray, sourceId);
      m.(diffuse := hit.material.diffuse, specular := hit.material.specular) == hit.material
    ensures var hit := ClosestHit(ext, scene, ray, sourceId);
      m != hit.material ==> depth >= 1 && IsHit(hit) && InShadow(ext, scene, hit) && m.diffuse == m.specular == Zero
    ensures var hit := ClosestHit(ext, scene, ray, sourceId);
      depth >= 1 && IsHit(hit) && InShadow(ext, scene, hit) ==> m.diffuse == Zero && m.specular == Zero
  {
    var hit := ClosestHit(ext, scene, ray, sourceId);
    if depth >= 1 && IsHit(hit) && InShadow(ext, scene, hit)
    then hit.material.(diffuse := Zero, specular := Zero)
    else hit.material
  }

  /** raytraceSingleRay: `phong.I() + reflectColor + transmitColor`, where phong.I()
      shades the closest-hit result with LocalMaterial. With no depth left the
      recursion bottoms out: the colour is phong.I() of the closest-hit result and
      its own material alone, whatever the shadow test would say. */
  function RaytraceSingleRay(ext: Externals, scene: Scene, ray: Ray, depth: int, sourceId: int): (color: Vec3)
    ensures depth < 1 ==>
              color == ext.phongI(ray, scene, ClosestHit(ext, scene, ray, sourceId).material,
                                  ClosestHit(ext, scene, ray, sourceId))
    decreases depth
  {
    var hit := ClosestHit(ext, scene, ray, sourceId);
    var local := ext.phongI(ray, scene, LocalMaterial(ext, scene, ray, depth, sourceId), hit);
    var reflectColor :=
      match ReflectionCall(ext, scene, ray, depth, sourceId)
      case None => Zero
      case Some(c) => Mul(hit.material.reflectionStrength, RaytraceSingleRay(ext, scene, c.ray, c.depth, c.sourceId));
    var transmitColor :=
      match RefractionCall(ext, scene, ray, depth, sourceId)
      case None => Zero
      case Some(c) => RaytraceSingleRay(ext, scene, c.ray, c.depth, c.sourceId);
    Add(Add(local, reflectColor), transmitColor)
  }

  /** Case statement, by one unfolding of the definitions: with no depth left, or no
      hit, no ray is traced further and the colour is the local term of the
      (possibly default) closest-hit result alone. */
  lemma TerminalCase(ext: Externals, scene: Scene, ray: Ray, depth: int, sourceId: int)
    requires depth < 1 || !IsHit(ClosestHit(ext, scene, ray, sourceId))
    ensures ReflectionCall(ext, scene, ray, depth, sourceId) == None
    ensures RefractionCall(ext, scene, ray, depth, sourceId) == None
    ensures var hit := ClosestHit(ext, scene, ray, sourceId);
      RaytraceSingleRay(ext, scene, ray, depth, sourceId) == ext.phongI(ray, scene, hit.material, hit)
  {
  }

  /** Case statement, by one unfolding of the definitions: a shadowed hit loses its
      diffuse and specular terms and traces neither a reflected nor a refracted ray. */
  lemma ShadowedCase(ext: Externals, scene: Scene, ray: Ray, depth: int, sourceId: int)
    requires depth >= 1
    requires IsHit(ClosestHit(ext, scene, ray, sourceId))
    requires InShadow(ext, scene, ClosestHit(ext, scene, ray, sourceId))
    ensures ReflectionCall(ext, scene, ray, depth, sourceId) == None
    ensures RefractionCall(ext, scene, ray, depth, sourceId) == None
    ensures var hit := ClosestHit(ext, scene, ray, sourceId);
      RaytraceSingleRay(ext, scene, ray, depth, sourceId)
        == ext.phongI(ray, scene, hit.material.(diffuse := Zero, specular := Zero), hit)
  {
  }

  /** Case statement, by one unfolding of the definitions: a lit hit traces a
      reflected ray from its entry point exactly when its reflection strength is
      non-zero, and a refracted ray from its exit point exactly when its index of
      refraction is non-zero. */
  lemma LitCalls(ext: Externals, scene: Scene, ray: Ray, depth: int, sourceId: int)
    requires Lit(ext, scene, ray, depth, sourceId)
    ensures var hit := ClosestHit(ext, scene, ray, sourceId);
      ReflectionCall(ext, scene, ray, depth, sourceId)
        == if hit.material.reflectionStrength == Zero then None
           else Some(Call(Ray(hit.entryPoint, ReflectedDirection(ext, hit.entryNormal, ray.direction)), depth - 1, hit.id))
    ensures var hit := ClosestHit(ext, scene, ray, sourceId);
      RefractionCall(ext, scene, ray, depth, sourceId)
        == if hit.material.indexOfRefraction == 0.0 then None
           else Some(Call(TransmittedRay(ext, hit), depth - 1, hit.id))
    ensures LocalMaterial(ext, scene, ray, depth, sourceId) == ClosestHit(ext, scene, ray, sourceId).material
  {
  }

  /** Case statement, by one unfolding of the definitions: the colour of a lit hit
      is the local term plus the reflected colour weighted by the reflection strength
      plus the unweighted transmitted colour. The first two clauses repeat the call
      facts of LitCalls, from which they come, so that this lemma states the whole
      lit case in one place. */
  lemma LitCase(ext: Externals, scene: Scene, ray: Ray, depth: int, sourceId: int)
    requires Lit(ext, scene, ray, depth, sourceId)
    ensures var hit := ClosestHit(ext, scene, ray, sourceId);
      ReflectionCall(ext, scene, ray, depth, sourceId)
        == if hit.material.reflectionStrength == Zero then None
           else Some(Call(Ray(hit.entryPoint, ReflectedDirection(ext, hit.entryNormal, ray.direction)), depth - 1, hit.id))
    ensures var hit := ClosestHit(ext, scene, ray, sourceId);
      RefractionCall(ext, scene, ray, depth, sourceId)
        == if hit.material.indexOfRefraction == 0.0 then None
           else Some(Call(TransmittedRay(ext, hit), depth - 1, hit.id))
    ensures var hit := ClosestHit(ext, scene, ray, sourceId);
      var reflected := Ray(hit.entryPoint, ReflectedDirection(ext, hit.entryNormal, ray.direction));
      RaytraceSingleRay(ext, scene, ray, depth, sourceId)
        == Add(Add(ext.phongI(ray, scene, hit.material, hit),
                   if hit.material.reflectionStrength == Zero then Zero
                   else Mul(hit.material.reflectionStrength, RaytraceSingleRay(ext, scene, reflected, depth - 1, hit.id))),
               if hit.material.indexOfRefraction == 0.0 then Zero
               else RaytraceSingleRay(ext, scene, TransmittedRay(ext, hit), depth - 1, hit.id))
  {
    LitCalls(ext, scene, ray, depth, sourceId);
  }

  function Max0(n: int): nat { if n < 0 then 0 else n }

  function Pow2(n: nat): (p: nat)
    ensures p >= 1
  {
    if n == 0 then 1 else 2 * Pow2(n - 1)
  }

  /** The number of raytraceSingleRay invocations one call makes, itself included:
      at most two children per call and one level less each time, so at most
      2^(depth+1) - 1. */
  function RayCount(ext: Externals, scene: Scene, ray: Ray, depth: int, sourceId: int): (n: nat)
    ensures 1 <= n <= 2 * Pow2(Max0(depth)) - 1
    decreases depth
  {
    assert depth >= 1 ==> Pow2(Max0(depth)) == 2 * Pow2(Max0(depth - 1));
    1
    + (match ReflectionCall(ext, scene, ray, depth, sourceId)
       case None => 0
       case Some(c) => RayCount(ext, scene, c.ray, c.depth, c.sourceId))
    + (match RefractionCall(ext, scene, ray, depth, sourceId)
       case None => 0
       case Some(c) => RayCount(ext, scene, c.ray, c.depth, c.sourceId))
  }

  /** The length of the longest chain of nested recursive calls below one call:
      never more than its depth budget. */
  function Nesting(ext: Externals, scene: Scene, ray: Ray, depth: int, sourceId: int): (levels: nat)
    ensures levels <= Max0(depth)
    decreases depth
  {
    var reflected :=
      match ReflectionCall(ext, scene, ray, depth, sourceId)
      case None => 0
      case Some(c) => 1 + Nesting(ext, scene, c.ray, c.depth, c.sourceId);
    var refracted :=
      match RefractionCall(ext, scene, ray, depth, sourceId)
      case None => 0
      case Some(c) => 1 + Nesting(ext, scene, c.ray, c.depth, c.sourceId);
    if reflected < refracted then refracted else reflected
  }
}
