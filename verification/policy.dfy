/**
 * The target-dimension policy of `compressImageWithSize`: classify the
 * bounds, short-circuit small files, and clamp the rest into a box.
 */
module DimensionPolicy {
  import opened Profiles
  import Arith

  /** Files shorter than this many bytes keep their original bounds. */
  const SmallFileBytes: int := 100 * 1024

  /** A width and a height in pixels. */
  datatype Dims = Dims(width: int, height: int)

  datatype Orientation = Landscape | Portrait | Square

  function Min(a: int, b: int): int
  {
    if a < b then a else b
  }

  /** The orientation of the bounds; the three cases cover every input. */
  function Classify(w: int, h: int): (o: Orientation)
    ensures o == Landscape <==> w > h
    ensures o == Portrait <==> h > w
    ensures o == Square <==> w == h
  {
    if w > h then Landscape
    else if h > w then Portrait
    else Square
  }

  /**
   * The rule shared by landscape and portrait images: with strict
   * comparisons, cap both sides, or cap the side that exceeds and scale the
   * other by the same factor (truncated), or keep the bounds.
   */
  function ClampToBox(w: int, h: int, capW: int, capH: int): (r: Dims)
    requires w > 0 && h > 0 && capW > 0 && capH > 0
    ensures w <= capW && h <= capH ==> r == Dims(w, h)
    ensures w > capW && h > capH ==> r == Dims(capW, capH)
    ensures w > capW && h <= capH ==>
              r.width == capW && r.height * w <= capW * h < (r.height + 1) * w
    ensures w <= capW && h > capH ==>
              r.height == capH && r.width * h <= capH * w < (r.width + 1) * h
    ensures 0 <= r.width <= w && 0 <= r.height <= h
    ensures r.width <= capW && r.height <= capH
  {
    if w > capW && h > capH then
      Dims(capW, capH)
    else if w > capW then
      Arith.ScaledFloor(capW, h, w);
      Dims(capW, capW * h / w)
    else if h > capH then
      Arith.ScaledFloor(capH, w, h);
      Dims(capH * w / h, capH)
    else
      Dims(w, h)
  }

  /**
   * The square rule: clamp to side × side when both sides are at least
   * `side` (non-strict), otherwise keep the bounds.
   */
  function SquareClamp(w: int, h: int, side: int): (r: Dims)
    requires w == h
    ensures r.width == r.height == Min(w, side)
  {
    if w >= side && h >= side then Dims(side, side) else Dims(w, h)
  }

  /**
   * The requested dimensions `(newReqWidth, newReqHeight)` that the policy
   * passes on to the aspect fit. Landscape images use the box
   * maxWidthLandscape × maxHeightLandscape, portrait images the transposed
   * box, square images maxSquare. Small files never look at the caps, and
   * square images look only at maxSquare.
   */
  function TargetRequest(w: int, h: int, fileSize: int, caps: Caps): (r: Dims)
    requires w > 0 && h > 0
    requires caps.Valid() || fileSize < SmallFileBytes || (w == h && caps.maxSquare > 0)
    ensures fileSize < SmallFileBytes ==> r == Dims(w, h)
    ensures 0 <= r.width <= w && 0 <= r.height <= h
    ensures fileSize >= SmallFileBytes && w > h ==>
              r.width <= caps.maxWidthLandscape && r.height <= caps.maxHeightLandscape
    ensures fileSize >= SmallFileBytes && h > w ==>
              r.width <= caps.maxHeightLandscape && r.height <= caps.maxWidthLandscape
    ensures fileSize >= SmallFileBytes && w == h ==>
              r.width == r.height == Min(w, caps.maxSquare)
  {
    if fileSize < SmallFileBytes then
      Dims(w, h)
    else
      match Classify(w, h)
      case Landscape => ClampToBox(w, h, caps.maxWidthLandscape, caps.maxHeightLandscape)
      case Portrait => ClampToBox(w, h, caps.maxHeightLandscape, caps.maxWidthLandscape)
      case Square => SquareClamp(w, h, caps.maxSquare)
  }

  /**
   * The strict `>` of the landscape rule matters at the boundary: a large
   * landscape image whose width equals its cap but whose height exceeds the
   * height cap is scaled by height instead of being clamped to the box.
   * `CUSTOM(1280, 1400)` gives landscape images the box 1400 × 1280.
   */
  lemma LandscapeBoundaryIsStrict()
    ensures TargetRequest(1400, 1300, SmallFileBytes, EntryCaps(Custom(1280, 1400))) == Dims(1378, 1280)
  {
  }

  /**
   * For a large landscape image the request is the landscape box itself
   * exactly when both sides exceed the box or the image already has the
   * box's size: a single side over its cap never yields the box.
   */
  lemma {:induction false} LandscapeRequestIsBoxIff(w: int, h: int, fileSize: int, caps: Caps)
    requires w > h > 0 && caps.Valid() && fileSize >= SmallFileBytes
    ensures TargetRequest(w, h, fileSize, caps) == Dims(caps.maxWidthLandscape, caps.maxHeightLandscape)
            <==> (w > caps.maxWidthLandscape && h > caps.maxHeightLandscape)
                 || (w == caps.maxWidthLandscape && h == caps.maxHeightLandscape)
  {
    var cw, ch := caps.maxWidthLandscape, caps.maxHeightLandscape;
    var r := ClampToBox(w, h, cw, ch);
    assert TargetRequest(w, h, fileSize, caps) == r;
    if w > cw && h <= ch {
      Arith.ScaledFloor(cw, h, w);
      assert r.height < h;
    } else if w <= cw && h > ch {
      Arith.ScaledFloor(ch, w, h);
      assert r.width < w;
    }
  }
}
