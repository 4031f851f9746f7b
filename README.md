# Ray tracer control logic, modelled in Dafny

This project models the discrete control logic of a small C++ ray tracer (the
`453-skeleton` program) and proves properties of it. The model covers four parts:

- **Records** (`raytrace.dfy`, module `RayTrace`, from `RayTrace.h`). `Vec3` is a triple of reals.
  The other records are `Ray`, `Intersection`, `Triangle` and the material fields the core reads.
  The `Shape` variants `Triangles`, `Sphere` and `Plane` sit behind one `GetIntersection` dispatch.
  `Scene` is a sequence of shapes plus a light position.
- **Scene queries** (`scene_queries.dfy`, module `SceneQueries`).
  - `getClosestIntersection` scans for the nearest hit and skips one shape id.
  - `hasIntersection` is the shadow test. It returns the intersection id (`tmp.id`) of the first non-skipped hit, in scan order, whose entry point is farther than 0.00001 from the ray origin and nearer than the light's distance minus 0.01. That hit is not necessarily the nearest one. When there is no such hit it returns -1.
  - Each is an imperative scan proved equal to a specification function. Lemmas then characterise that function.
- **Recursive shader** (`shading.dfy`, module `Shading`). `raytraceSingleRay` is a function that recurses on `depth`.
  It takes the closest hit, applies the shadow rule, and adds a reflection term and a refraction term.
  Each term comes from a recursive call with `depth - 1` that skips every shape whose id equals the hit's intersection id (`result.id`). That is the shape just hit only when its intersection carries its own id and no other shape shares it.
- **Camera** (`camera.dfy`, module `Camera`).
  - `getRaysForViewpoint` is a pair of nested loops that emit one ray per pixel, column by column.
  - `raytraceImage` traces each of those rays with depth 10 and skip id -1. Skip id -1 skips only a shape whose id is -1, so it skips nothing while every shape id is valid. Its result is the sequence of `SetPixel` calls it makes.

Some collaborators have bodies that are not part of this model:
- each variant's intersection test;
- `glm::distance` and `glm::normalize`;
- `transmitRay`;
- `PhongReflection::I()`;
- the default `ObjectMaterial`.

They are the fields of one `Externals` value of arbitrary total functions. Every result therefore holds whatever those functions compute.

The model follows the behaviour of the code as written:
- With `depth < 1`, or when nothing is hit, the only statement in that branch is `glm::vec3(0, 0, 0);` at `main.cpp:84`. That value is discarded, though it suggests black was meant. The function therefore still returns `phong.I()` for the (possibly default) closest-hit result, not black.
- A shadowed hit traces neither reflection nor refraction, because both branches sit in the `else` at `main.cpp:94-110`.
- `hasIntersection` returns the blocking *intersection's* `id`, not `shape->id`. With no hypothesis, `BlockerIdExact` states when the result is -1: nothing blocks, or the first blocker's intersection reports id -1. "Returns -1 exactly when nothing blocks" holds under the hypothesis `HitsCarryIds`: every hit carries its shape's id and no id is -1. `BlockerIdSpec` states it under that hypothesis.
- The closest-hit bound starts at `FLT_MAX`, so a hit whose distance is not below `FLT_MAX` is never chosen.
- The camera ray's origin is always `(0,0,0)`. The viewpoint only shifts the direction.

## Model

| member | source | states |
|---|---|---|
| `RayTrace.DefaultRay` | 453-skeleton/RayTrace.h:34-35 | The default `Ray()` has zero origin and zero direction. |
| `RayTrace.NoHit` | 453-skeleton/RayTrace.h:48-49 | The default `Intersection()` is a miss (0 hits) with id -1, all four point/normal vectors zero, and the default material. |
| `RayTrace.TriangleFromArray` | 453-skeleton/RayTrace.h:59-63 | `Triangle(vec3 t[3])` stores `t[0], t[1], t[2]` as `p1, p2, p3`: reading the vertices back gives the array. |
| `RayTrace.GetIntersection` | 453-skeleton/RayTrace.h:68-99 | The virtual `getIntersection` runs the intersection test of the shape's own variant: triangles, sphere or plane. |
| `RayTrace.TriangleConstructorsAgree` | 453-skeleton/RayTrace.h:54-63 | The three-vertex constructor and the array constructor build the same triangle from the same vertices in the same order. |
| `SceneQueries.ClosestIndex` | 453-skeleton/main.cpp:45-61 | After any prefix of the scan, the shape held (if any) lies in that prefix, is not the skipped id, is a hit, and is nearer than `FLT_MAX`. |
| `SceneQueries.ClosestIndexIsNearest` | 453-skeleton/main.cpp:48-59 | After n shapes the scan holds nothing iff none of them is a candidate. Otherwise its distance is at most every candidate's, and strictly below every earlier candidate's (strict `<`: ties go to the earlier shape). |
| `SceneQueries.ClosestIndexCharacterized` | 453-skeleton/main.cpp:55-59 | The full scan selects shape b iff b is the nearest candidate and strictly nearer than every candidate before it. This determines the selected shape uniquely. |
| `SceneQueries.ClosestHitSpec` | 453-skeleton/main.cpp:45-61 | `getClosestIntersection` returns a miss iff no non-skipped shape reports a hit (below `FLT_MAX`), and that miss is the default Intersection. Otherwise it returns the hit of the closest non-skipped shape. |
| `SceneQueries.GetClosestIntersection` | 453-skeleton/main.cpp:45-62 | The loop that updates `min` and `closestIntersection` returns exactly the closest-hit specification `ClosestHit`. |
| `SceneQueries.FirstBlockerFrom` | 453-skeleton/main.cpp:31-41 | The shape the shadow scan stops at lies in range and blocks: not the skipped id, a hit, farther than 0.00001, and nearer than the light distance minus 0.01. |
| `SceneQueries.FirstBlockerIsFirst` | 453-skeleton/main.cpp:31-42 | The scan finds nothing iff no shape blocks. Otherwise no shape before the one it stops at blocks. |
| `SceneQueries.BlockerIdSpec` | 453-skeleton/main.cpp:30-43 | `hasIntersection` is -1 when nothing blocks. When something blocks, it is the intersection id of the first blocker in scan order. If hits carry their shapes' non-(-1) ids, -1 means exactly that nothing blocks. |
| `SceneQueries.BlockerIdExact` | 453-skeleton/main.cpp:30-43 | With no hypothesis on ids, `hasIntersection` returns -1 iff nothing blocks, or the first blocker's intersection reports id -1. |
| `SceneQueries.HasIntersection` | 453-skeleton/main.cpp:30-43 | The early-return loop returns exactly `BlockerId`. |
| `SceneQueries.FirstBlockerNeedNotBeClosest` | 453-skeleton/main.cpp:30-62 | In a two-sphere scene with fixed intersection answers (entries at z = -4 and z = -1.5 on a ray along -z, light at z = -10), both spheres block. The shadow scan reports the farther sphere, which comes first in scan order, while the closest-hit scan reports the nearer one. |
| `SceneQueries.ScansSeeOnlyIntersections` | 453-skeleton/main.cpp:30-62 | Both scans depend on a shape only through its id and its `getIntersection` answer. Scenes whose shapes agree on those two things give the same closest hit and the same blocker id, whatever their variants and geometry. |
| `Shading.ShadowRay` | 453-skeleton/main.cpp:88 | The shadow ray starts at the hit's entry point. |
| `Shading.ReflectionIsMirror` | 453-skeleton/main.cpp:98 | The reflected direction is the mirror image `d - 2 (N . d) N` of the incoming direction about the entry normal, normalised. |
| `Shading.TransmittedRay` | 453-skeleton/main.cpp:105-107 | The refracted ray starts at the hit's exit point. |
| `Shading.LocalMaterial` | 453-skeleton/main.cpp:77-93 | The material used for local shading differs from the hit's material only in diffuse and specular. A shadowed hit with depth left gets zero diffuse and specular, and only such a hit gets a material different from its own. |
| `Shading.RaytraceSingleRay` | 453-skeleton/main.cpp:64-114 | With `depth < 1` the recursion bottoms out: the colour is `phong.I()` of the closest-hit result with its own material, and nothing more, whatever the shadow test would say. The colour in every case is given by `TerminalCase`, `ShadowedCase` and `LitCase`: for a lit hit it is `phong.I()` plus `reflectionStrength` times the reflected colour plus the transmitted colour. |
| `Shading.ReflectionCall` | 453-skeleton/main.cpp:96-101 | A reflection call is made only with depth left. It passes `depth - 1` and `source_id = result.id`, and it starts at the hit's entry point. |
| `Shading.RefractionCall` | 453-skeleton/main.cpp:103-109 | A refraction call is made only with depth left. It passes `depth - 1` and `source_id = result.id`, and it starts at the hit's exit point. |
| `Shading.TerminalCase` | 453-skeleton/main.cpp:80-85 | Case statement by unfolding the definition: with `depth < 1` or no closest hit, neither recursive call is made and the colour is `phong.I()` of the closest-hit result and its material alone. |
| `Shading.ShadowedCase` | 453-skeleton/main.cpp:88-93 | Case statement by unfolding the definition: if the shadow query from the entry point, skipping the hit shape, finds a blocker, diffuse and specular are zeroed, no secondary ray is traced, and the colour is `phong.I()` with that material. |
| `Shading.LitCalls` | 453-skeleton/main.cpp:94-109 | Case statement by unfolding the definition: a lit hit keeps its full material. It traces a reflected ray from the entry point iff `reflectionStrength != 0`, and a refracted ray from the exit point iff `indexOfRefraction != 0`, each with `depth - 1` and the hit's id. |
| `Shading.LitCase` | 453-skeleton/main.cpp:94-113 | Case statement by unfolding the definition: for a lit hit, a reflected ray from the entry point is traced iff `reflectionStrength != 0`, and a refracted ray from the exit point iff `indexOfRefraction != 0`. The colour is `I() + reflectionStrength * reflected + transmitted`. |
| `Shading.RayCount` | 453-skeleton/main.cpp:64-114 | One call of `raytraceSingleRay` makes between 1 and 2^(depth+1) - 1 invocations in all. |
| `Shading.Nesting` | 453-skeleton/main.cpp:100-108 | The recursion nests at most `depth` levels deep: each call goes one level down with `depth - 1`. |
| `Camera.PixelEnumerationIsBijective` | 453-skeleton/main.cpp:133-138 | Position k of the enumeration is pixel (k / H, k % H). Each pixel (x, y) of the W x H grid sits at exactly one position, x*H + y. |
| `Camera.PixelEntry` | 453-skeleton/main.cpp:133-138 | The entry for pixel (x, y) records that pixel, and its ray starts at the origin. Pixel (0, 0) gets direction `normalize(-0.5 - vp.x, -0.5 - vp.y, -1)`. |
| `Camera.GetRaysForViewpoint` | 453-skeleton/main.cpp:122-144 | The result has exactly Width*Height entries (none if either is not positive). Entry k is pixel (k / H, k % H), with origin (0,0,0) and direction `normalize(-0.5 + x/W - vp.x, -0.5 + y/H - vp.y, -1)`. |
| `Camera.RaytraceImage` | 453-skeleton/main.cpp:146-168 | Every generated pixel, in ray order, is written once with the colour of `raytraceSingleRay(ray, 10, -1)`. |

## Left out

- Window and GLFW setup, the render loop, OpenGL state and `ImageBuffer::Render` (main.cpp:224-259): these are I/O and display.
- The `Assignment5` key-callback class (main.cpp:171-220): it is UI event handling, and the scene builders it calls are not part of this model.
- The bodies of `Sphere`, `Plane` and `Triangles::getIntersection`, of `transmitRay` and of `PhongReflection::I()`: they are not part of this model. Each is an arbitrary function in `Externals`, so nothing is proved about intersection geometry or Phong shading.
- `glm::distance` and `glm::normalize` are arbitrary functions. No metric property (symmetry, non-negativity) is assumed.
- Material.h and Scene.h are not part of this model. The core reads only `diffuse`, `specular`, `reflectionStrength` and `indexOfRefraction`. The other material coefficients are carried untouched, and the default material is a parameter.
- `Triangles::intersectTriangle`, `initTriangles` and the `Sphere`/`Plane` constructors are declared in RayTrace.h, but their bodies are not part of this model.
- `ImageBuffer::Initialize` and the buffer's storage: `RaytraceImage` returns the sequence of `SetPixel` calls instead of updating a buffer.
- The commented-out parallel `for_each` (main.cpp:163): concurrency is not modelled.
- GetRaysForViewpoint: the float accumulators `i` and `j` are exact reals, so float rounding in `-0.5 + x/W` is not modelled. The unused `scene` parameter is dropped, and `image.Width()`/`Height()` are passed as integers.
- Floating point in general: every `float` is a `real`, so there is no rounding, overflow, infinity or NaN. The epsilon constants 0.00001 and 0.01 are exact reals.
