/**
 * Post-processing of the object detector's output: each detected object's
 * box is clamped to the frame and cropped, an object without classifier
 * labels is labelled "Unknown", and the camera frame's three YUV planes are
 * packed into one NV21 buffer.
 *
 * The detector itself, JPEG compression, rotation and `Bitmap.createBitmap`
 * are library calls: the crop is a parameter that returns `None` where the
 * library throws.
 */
module ObjectDetectorAnalyzer {
  import opened Wrappers
  import opened Graphics

  /** What the analyzer hands on for one object. */
  datatype DetectedObjectInfo = DetectedObjectInfo(
    boundingBox: Rect,
    labels: seq<string>,
    trackingId: Option<Int32>,
    croppedBitmap: Option<Bitmap>)

  /** What the detector reports for one object: its box, its classifier label texts and its tracking id. */
  datatype DetectedObject = DetectedObject(boundingBox: Rect, labelTexts: seq<string>, trackingId: Option<Int32>)

  /** The outcome of one detector run: its success listener or its failure listener. */
  datatype Detection = Succeeded(objects: seq<DetectedObject>) | Failed

  /** The arguments passed to `Bitmap.createBitmap(bitmap, left, top, width, height)`. */
  datatype CropRegion = CropRegion(left: Int32, top: Int32, width: Int32, height: Int32)

  /** The label used when the classifier gives none. */
  const UnknownLabel: string := "Unknown"

  // ---------------------------------------------------------------------------
  // Crop rectangle

  function Max(a: int, b: int): int { if a < b then b else a }
  function Min(a: int, b: int): int { if a < b then a else b }

  /**
   * The crop arguments for `rect` on a `width` by `height` bitmap: the
   * origin moved to non-negative coordinates, the far edges moved inside the
   * bitmap, and each size (an `Int` subtraction) raised to at least 1.
   */
  function ClampCrop(width: Int32, height: Int32, rect: Rect): (c: CropRegion)
    ensures c.left >= 0 && c.top >= 0
    ensures c.width >= 1 && c.height >= 1
    ensures c.left == Max(rect.left, 0) && c.top == Max(rect.top, 0)
    ensures Min(rect.right, width) - c.left >= 1 ==> c.left + c.width == Min(rect.right, width) <= width
    ensures Min(rect.bottom, height) - c.top >= 1 ==> c.top + c.height == Min(rect.bottom, height) <= height
    ensures -0x8000_0000 <= Min(rect.right, width) - c.left < 1 ==> c.width == 1
    ensures -0x8000_0000 <= Min(rect.bottom, height) - c.top < 1 ==> c.height == 1
  {
    var left := if rect.left < 0 then 0 else rect.left;
    var top := if rect.top < 0 then 0 else rect.top;
    var right := if rect.right > width then width else rect.right;
    var bottom := if rect.bottom > height then height else rect.bottom;
    var w := Wrap32(right - left);
    var h := Wrap32(bottom - top);
    CropRegion(left, top, if w < 1 then 1 else w, if h < 1 then 1 else h)
  }

  /** A box that already lies inside the bitmap, with positive size, is cropped exactly. */
  lemma ClampCropInside(width: Int32, height: Int32, rect: Rect)
    requires 0 <= rect.left < rect.right <= width
    requires 0 <= rect.top < rect.bottom <= height
    ensures ClampCrop(width, height, rect)
         == CropRegion(rect.left, rect.top, rect.right - rect.left, rect.bottom - rect.top)
  {
  }

  /**
   * `cropBitmap`: the library crop of the clamped region; `None` where the
   * library throws. The library is only ever asked for a region with a
   * non-negative origin and a positive size, and a box inside the bitmap is
   * asked for as it is.
   */
  function CropBitmap(bitmap: Bitmap, rect: Rect, createBitmap: (Bitmap, CropRegion) -> Option<Bitmap>): (r: Option<Bitmap>)
    ensures exists c: CropRegion :: c.left >= 0 && c.top >= 0 && c.width >= 1 && c.height >= 1 && r == createBitmap(bitmap, c)
    ensures 0 <= rect.left < rect.right <= bitmap.width && 0 <= rect.top < rect.bottom <= bitmap.height ==>
      r == createBitmap(bitmap, CropRegion(rect.left, rect.top, rect.right - rect.left, rect.bottom - rect.top))
  {
    var c := ClampCrop(bitmap.width, bitmap.height, rect);
    createBitmap(bitmap, c)
  }

  // ---------------------------------------------------------------------------
  // Result mapping

  /** The classifier's label texts, or `["Unknown"]` when there are none. */
  function DefaultLabels(texts: seq<string>): (labels: seq<string>)
    ensures |labels| >= 1
    ensures texts != [] ==> labels == texts
    ensures texts == [] ==> labels == [UnknownLabel]
  {
    if texts == [] then [UnknownLabel] else texts
  }

  /** The info for one detected object; the crop is taken only when the frame could be converted. */
  function ToInfo(obj: DetectedObject, fullBitmap: Option<Bitmap>, createBitmap: (Bitmap, CropRegion) -> Option<Bitmap>): (info: DetectedObjectInfo)
    ensures info.boundingBox == obj.boundingBox && info.trackingId == obj.trackingId
    ensures |info.labels| >= 1 && (obj.labelTexts != [] ==> info.labels == obj.labelTexts)
    ensures fullBitmap.None? ==> info.croppedBitmap.None?
    ensures fullBitmap.Some? ==> info.croppedBitmap == CropBitmap(fullBitmap.value, obj.boundingBox, createBitmap)
  {
    var cropped := if fullBitmap.Some? then CropBitmap(fullBitmap.value, obj.boundingBox, createBitmap) else None;
    DetectedObjectInfo(obj.boundingBox, DefaultLabels(obj.labelTexts), obj.trackingId, cropped)
  }

  /** The list `analyze` passes to its callback: empty on failure, else one entry per object. */
  function AnalyzeResults(detection: Detection, fullBitmap: Option<Bitmap>, createBitmap: (Bitmap, CropRegion) -> Option<Bitmap>): (results: seq<DetectedObjectInfo>)
    ensures detection.Failed? ==> results == []
    ensures detection.Succeeded? ==> |results| == |detection.objects|
    ensures detection.Succeeded? ==> forall i :: 0 <= i < |results| ==>
      && results[i].boundingBox == detection.objects[i].boundingBox
      && results[i].trackingId == detection.objects[i].trackingId
      && |results[i].labels| >= 1
      && (detection.objects[i].labelTexts != [] ==> results[i].labels == detection.objects[i].labelTexts)
      && (fullBitmap.None? ==> results[i].croppedBitmap.None?)
  {
    match detection
    case Failed => []
    case Succeeded(objects) => MapToInfo(objects, fullBitmap, createBitmap)
  }

  function MapToInfo(objects: seq<DetectedObject>, fullBitmap: Option<Bitmap>, createBitmap: (Bitmap, CropRegion) -> Option<Bitmap>): (infos: seq<DetectedObjectInfo>)
    ensures |infos| == |objects|
    ensures forall i :: 0 <= i < |objects| ==> infos[i] == ToInfo(objects[i], fullBitmap, createBitmap)
  {
    if objects == [] then []
    else MapToInfo(objects[..|objects| - 1], fullBitmap, createBitmap) + [ToInfo(objects[|objects| - 1], fullBitmap, createBitmap)]
  }

  // ---------------------------------------------------------------------------
  // NV21 assembly

  /** Kotlin `Byte`. */
  type Int8 = x: int | -0x80 <= x < 0x80

  /** `ByteBuffer.get(dst, offset, length)` for a buffer whose remaining bytes are `src`. */
  method BufferGet(src: seq<Int8>, dst: array<Int8>, offset: nat)
    requires offset + |src| <= dst.Length
    modifies dst
    ensures dst[..] == old(dst[..offset]) + src + old(dst[offset + |src|..])
  {
    for k := 0 to |src|
      invariant forall i :: 0 <= i < dst.Length && !(offset <= i < offset + k) ==> dst[i] == old(dst[i])
      invariant forall i :: 0 <= i < k ==> dst[offset + i] == src[i]
    {
      dst[offset + k] := src[k];
    }
    assert dst[..] == old(dst[..offset]) + src + old(dst[offset + |src|..]) by {
      forall i | 0 <= i < dst.Length
        ensures dst[i] == (old(dst[..offset]) + src + old(dst[offset + |src|..]))[i]
      {
        if offset <= i < offset + |src| {
          assert dst[offset + (i - offset)] == src[i - offset];
        }
      }
    }
  }

  /** The NV21 buffer: the Y plane, then the V plane, then the U plane. */
  method PlanesToNv21(y: seq<Int8>, u: seq<Int8>, v: seq<Int8>) returns (nv21: array<Int8>)
    ensures fresh(nv21)
    ensures nv21[..] == y + v + u
  {
    nv21 := new Int8[|y| + |u| + |v|];
    BufferGet(y, nv21, 0);
    assert nv21[..|y|] == y;
    BufferGet(v, nv21, |y|);
    assert nv21[..|y| + |v|] == y + v;
    BufferGet(u, nv21, |y| + |v|);
    assert nv21[..] == nv21[..|y| + |v|] + u;
  }
}
