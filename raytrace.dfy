/** The record types of the ray tracer (RayTrace.h): vectors, rays, intersections,
    triangles, materials, the shape variants and the scene, together with the
    collaborators whose bodies lie outside this model. */
module RayTrace {

  datatype Option<T> = None | Some(value: T)

  /** glm::vec3, with exact real components in place of floats. */
  datatype Vec3 = Vec3(x: real, y: real, z: real)

  const Zero: Vec3 := Vec3(0.0, 0.0, 0.0)

  function Add(a: Vec3, b: Vec3): Vec3 { Vec3(a.x + b.x, a.y + b.y, a.z + b.z) }

  function Sub(a: Vec3, b: Vec3): Vec3 { Vec3(a.x - b.x, a.y - b.y, a.z - b.z) }

  function Neg(a: Vec3): Vec3 { Vec3(-a.x, -a.y, -a.z) }

  function Scale(k: real, a: Vec3): Vec3 { Vec3(k * a.x, k * a.y, k * a.z) }

  /** Component-wise product, glm's `vec3 * vec3`. */
  function Mul(a: Vec3, b: Vec3): Vec3 { Vec3(a.x * b.x, a.y * b.y, a.z * b.z) }

  function Dot(a: Vec3, b: Vec3): real { a.x * b.x + a.y * b.y + a.z * b.z }

  /** `Ray(point, dir)` keeps both vectors exactly as given: the direction is not
      normalised by the record itself. */
  datatype Ray = Ray(origin: Vec3, direction: Vec3)

  /** The default-constructed `Ray()`. */
  function DefaultRay(): (r: Ray)
    ensures r.origin == Zero && r.direction == Zero
  {
    Ray(Zero, Zero)
  }

  /** The parts of ObjectMaterial the core reads; the remaining coefficients, which
      only the local-shading collaborator consumes, travel untouched in otherTerms. */
  datatype Material = Material(
    diffuse: Vec3,
    specular: Vec3,
    reflectionStrength: Vec3,
    indexOfRefraction: real,
    otherTerms: seq<real>)

  datatype Intersection = Intersection(
    numberOfIntersections: int,
    entryPoint: Vec3,
    exitPoint: Vec3,
    entryNormal: Vec3,
    exitNormal: Vec3,
    id: int,
    material: Material)

  predicate IsHit(p: Intersection) { p.numberOfIntersections != 0 }

  /** The default-constructed `Intersection()`: a miss owned by no shape, all of
      whose vectors are zero; `material` is ObjectMaterial's default. */
  function NoHit(defaultMaterial: Material): (p: Intersection)
    ensures !IsHit(p) && p.id == -1
    ensures p.entryPoint == p.exitPoint == p.entryNormal == p.exitNormal == Zero
    ensures p.material == defaultMaterial
  {
    Intersection(0, Zero, Zero, Zero, Zero, -1, defaultMaterial)
  }

  datatype Triangle = Triangle(p1: Vec3, p2: Vec3, p3: Vec3)

  /** The constructor `Triangle(vec3 t[3])`. */
  function TriangleFromArray(t: seq<Vec3>): (tri: Triangle)
    requires |t| == 3
    ensures [tri.p1, tri.p2, tri.p3] == t
  {
    Triangle(t[0], t[1], t[2])
  }

  /** Both Triangle constructors store the vertices in the order given. */
  lemma TriangleConstructorsAgree(a: Vec3, b: Vec3, c: Vec3)
    ensures TriangleFromArray([a, b, c]) == Triangle(a, b, c)
  {
  }

  /** The geometry of each variant of the Shape hierarchy. */
  datatype Geometry =
    | Triangles(triangles: seq<Triangle>)
    | Sphere(centre: Vec3, radius: real)
    | Plane(point: Vec3, normal: Vec3)

  /** The fields every Shape carries, and its variant's geometry. */
  datatype Shape = Shape(id: int, material: Material, geometry: Geometry)

  /** The scene the queries scan: its shapes in order and one point light. */
  datatype Scene = Scene(shapesInScene: seq<Shape>, lightPosition: Vec3)

  /** Collaborators whose bodies are not part of this model, taken as arbitrary total
      functions: each variant's intersection test, glm::distance, glm::normalize,
      transmitRay, PhongReflection::I() over its (ray, scene, material, intersection)
      fields, and the default ObjectMaterial. */
  datatype Externals = Externals(
    trianglesIntersection: (Shape, Ray) -> Intersection,
    sphereIntersection: (Shape, Ray) -> Intersection,
    planeIntersection: (Shape, Ray) -> Intersection,
    distance: (Vec3, Vec3) -> real,
    normalize: Vec3 -> Vec3,
    transmitRay: (Vec3, Vec3, real) -> Vec3,
    phongI: (Ray, Scene, Material, Intersection) -> Vec3,
    defaultMaterial: Material)

  /** The virtual `getIntersection(Ray)`: one entry point, dispatched on the variant. */
  function GetIntersection(ext: Externals, s: Shape, ray: Ray): (p: Intersection)
    ensures s.geometry.Triangles? ==> p == ext.trianglesIntersection(s, ray)
    ensures s.geometry.Sphere? ==> p == ext.sphereIntersection(s, ray)
    ensures s.geometry.Plane? ==> p == ext.planeIntersection(s, ray)
  {
    match s.geometry
    case Triangles(_) => ext.trianglesIntersection(s, ray)
    case Sphere(_, _) => ext.sphereIntersection(s, ray)
    case Plane(_, _) => ext.planeIntersection(s, ray)
  }
}
