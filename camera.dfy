/** getRaysForViewpoint and raytraceImage (main.cpp): one ray per pixel of the image,
    enumerated column by column, each traced with the full depth budget. */
module Camera {
  import opened RayTrace
  import opened Shading

  datatype RayAndPixel = RayAndPixel(ray: Ray, x: int, y: int)

  /** One SetPixel(x, y, color) call on the external image buffer. */
  datatype PixelWrite = PixelWrite(x: int, y: int, color: Vec3)

  /** The depth budget and skip id raytraceImage gives every primary ray; skip id -1
      skips only shapes whose id is -1, so none when every id is valid. */
  const PrimaryDepth: int := 10
  const PrimarySkipId: int := -1

  /** Number of pixels of a width x height image (none if either is not positive). */
  function PixelCount(width: int, height: int): nat
  {
    if width > 0 && height > 0 then width * height else 0
  }

  /** Position of pixel (x, y) in the column-by-column enumeration. */
  function PixelIndex(x: int, y: int, height: int): int { x * height + y }

  /** The entry for pixel (x, y): a ray from the origin whose un-normalised direction
      is (-0.5 + x/width - viewPoint.x, -0.5 + y/height - viewPoint.y, -1). */
  function PixelEntry(ext: Externals, viewPoint: Vec3, width: int, height: int, x: int, y: int): (e: RayAndPixel)
    requires width > 0 && height > 0
    ensures e.x == x && e.y == y && e.ray.origin == Zero
    ensures x == 0 && y == 0 ==> e.ray.direction == ext.normalize(Vec3(-0.5 - viewPoint.x, -0.5 - viewPoint.y, -1.0))
  {
    var i := -0.5 + (x as real) / (width as real);
    var j := -0.5 + (y as real) / (height as real);
    RayAndPixel(Ray(Zero, ext.normalize(Vec3(i - viewPoint.x, j - viewPoint.y, -1.0))), x, y)
  }

  lemma DivModOfPixel(x: int, y: int, height: int)
    requires 0 <= x && 0 <= y < height
    ensures PixelIndex(x, y, height) / height == x
    ensures PixelIndex(x, y, height) % height == y
  {
    var k := PixelIndex(x, y, height);
    var q, r := k / height, k % height;
    assert k == q * height + r;
    assert (q - x + 1) * height == q * height - x * height + height;
    PositiveFactor(q - x + 1, height);
    assert (x + 1 - q) * height == x * height + height - q * height;
    PositiveFactor(x + 1 - q, height);
  }

  lemma PositiveFactor(a: int, h: int)
    requires h > 0 && a * h > 0
    ensures a > 0
  {
  }

  /** Position k of the enumeration is the pixel (k / height, k % height). */
  lemma PositionToPixel(k: int, width: int, height: int)
    requires width > 0 && height > 0 && 0 <= k < width * height
    ensures 0 <= k / height < width && 0 <= k % height < height
    ensures PixelIndex(k / height, k % height, height) == k
  {
    var q, r := k / height, k % height;
    assert k == q * height + r;
    assert (q + 1) * height == k - r + height;
    PositiveFactor(q + 1, height);
    assert (width - q) * height == width * height - k + r;
    PositiveFactor(width - q, height);
  }

  /** Pixel (x, y) of the grid sits at a position inside the enumeration. */
  lemma PixelToPosition(x: int, y: int, width: int, height: int)
    requires 0 <= x < width && 0 <= y < height
    ensures 0 <= PixelIndex(x, y, height) < width * height
  {
    assert (width - x - 1) * height >= 0;
    assert width * height - PixelIndex(x, y, height) == (width - x - 1) * height + (height - y);
  }

  /** The enumeration is a bijection between positions 0 .. width*height - 1 and
      the pixels (x, y) with 0 <= x < width and 0 <= y < height. */
  lemma PixelEnumerationIsBijective(width: int, height: int)
    requires width > 0 && height > 0
    ensures forall k :: 0 <= k < PixelCount(width, height) ==>
              0 <= k / height < width && 0 <= k % height < height && PixelIndex(k / height, k % height, height) == k
    ensures forall x, y :: 0 <= x < width && 0 <= y < height ==>
              0 <= PixelIndex(x, y, height) < PixelCount(width, height)
              && PixelIndex(x, y, height) / height == x && PixelIndex(x, y, height) % height == y
  {
    forall k | 0 <= k < PixelCount(width, height)
      ensures 0 <= k / height < width && 0 <= k % height < height && PixelIndex(k / height, k % height, height) == k
    {
      PositionToPixel(k, width, height);
    }
    forall x, y | 0 <= x < width && 0 <= y < height
      ensures 0 <= PixelIndex(x, y, height) < PixelCount(width, height)
              && PixelIndex(x, y, height) / height == x && PixelIndex(x, y, height) % height == y
    {
      DivModOfPixel(x, y, height);
      PixelToPosition(x, y, width, height);
    }
  }

  /** getRaysForViewpoint: `width * height` entries, entry k for pixel
      (k / height, k % height), every ray starting at the origin. The accumulators
      i and j are exact reals here. */
  method GetRaysForViewpoint(ext: Externals, width: int, height: int, viewPoint: Vec3) returns (rays: seq<RayAndPixel>)
    ensures |rays| == PixelCount(width, height)
    ensures forall k :: 0 <= k < |rays| ==>
              rays[k] == PixelEntry(ext, viewPoint, width, height, k / height, k % height)
    ensures forall k :: 0 <= k < |rays| ==> rays[k].ray.origin == Zero
  {
    var x := 0;
    var y := 0;
    rays := [];
    ghost var columns := if height > 0 then height else 0;
    var origin := Zero;
    var i := -0.5;
    while x < width
      invariant 0 <= x && (width > 0 ==> x <= width) && (width <= 0 ==> x == 0)
      invariant |rays| == x * columns
      invariant height <= 0 ==> rays == []
      invariant width > 0 ==> i == -0.5 + (x as real) / (width as real)
      invariant forall k :: 0 <= k < |rays| ==>
                  width > 0 && height > 0 && rays[k] == PixelEntry(ext, viewPoint, width, height, k / height, k % height)
    {
      y := 0;
      var j := -0.5;
      while y < height
        invariant 0 <= x < width
        invariant 0 <= y && (height > 0 ==> y <= height)
        invariant |rays| == x * columns + y
        invariant height <= 0 ==> rays == []
        invariant height > 0 ==> j == -0.5 + (y as real) / (height as real)
        invariant forall k :: 0 <= k < |rays| ==>
                    height > 0 && rays[k] == PixelEntry(ext, viewPoint, width, height, k / height, k % height)
      {
        var direction := ext.normalize(Vec3(i - viewPoint.x, j - viewPoint.y, -1.0));
        var r := Ray(origin, direction);
        DivModOfPixel(x, y, height);
        rays := rays + [RayAndPixel(r, x, y)];
        j := j + 1.0 / (height as real);
        y := y + 1;
      }
      assert (x + 1) * columns == x * columns + columns;
      i := i + 1.0 / (width as real);
      x := x + 1;
    }
    assert width > 0 ==> x == width;
    assert width <= 0 ==> x == 0;
  }

  /** raytraceImage: every generated pixel is traced with depth 10 and skip id -1,
      and its colour written at that pixel, in the order of the rays. */
  method RaytraceImage(ext: Externals, scene: Scene, width: int, height: int, viewPoint: Vec3)
    returns (writes: seq<PixelWrite>)
    ensures |writes| == PixelCount(width, height)
    ensures forall k :: 0 <= k < |writes| ==>
              var e := PixelEntry(ext, viewPoint, width, height, k / height, k % height);
              writes[k] == PixelWrite(e.x, e.y, RaytraceSingleRay(ext, scene, e.ray, PrimaryDepth, PrimarySkipId))
  {
    var rays := GetRaysForViewpoint(ext, width, height, viewPoint);
    writes := [];
    for k := 0 to |rays|
      invariant |writes| == k
      invariant forall m :: 0 <= m < k ==>
                  writes[m] == PixelWrite(rays[m].x, rays[m].y, RaytraceSingleRay(ext, scene, rays[m].ray, PrimaryDepth, PrimarySkipId))
    {
      var r := rays[k];
      var color := RaytraceSingleRay(ext, scene, r.ray, PrimaryDepth, PrimarySkipId);
      writes := writes + [PixelWrite(r.x, r.y, color)];
    }
  }
}
