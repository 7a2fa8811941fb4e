/**
 * The aspect fit at the top of `compressImage`: the requested box is
 * adjusted to the image's shape by comparing a TRUNCATED width/height
 * ratio with the box's exact ratio.
 */
module AspectFit {
  import opened DimensionPolicy
  import Arith

  /**
   * The dimensions the scaled bitmap is allocated with. `w / h` is Kotlin's
   * integer division (truncating, here on positive operands); the box ratio
   * rw / rh is compared exactly, by cross-multiplication.
   */
  function Fit(w: int, h: int, rw: int, rh: int): (r: Dims)
    requires w > 0 && h > 0 && rw > 0 && rh > 0
    ensures h <= rh && w <= rw ==> r == Dims(w, h)
    ensures (h > rh || w > rw) && (w / h) * rh < rw ==>
              r.height == rh && r.width * h <= rh * w < (r.width + 1) * h
    ensures (h > rh || w > rw) && (w / h) * rh > rw ==>
              r.width == rw && r.height * w <= rw * h < (r.height + 1) * w
    ensures (h > rh || w > rw) && (w / h) * rh == rw ==> r == Dims(rw, rh)
    ensures r.width >= 0 && r.height >= 0
  {
    if h > rh || w > rw then
      var imgRatio := w / h;
      if imgRatio * rh < rw then
        Arith.ScaledFloor(rh, w, h);
        Dims(rh * w / h, rh)
      else if imgRatio * rh > rw then
        Arith.ScaledFloor(rw, h, w);
        Dims(rw, rw * h / w)
      else
        Dims(rw, rh)
    else
      Dims(w, h)
  }

  /**
   * The fit leaves the requested box only through the truncated ratio: the
   * height branch was taken although the image is in fact wider than the box
   * (w / h > rw / rh exactly), so the width scaled to height rh overshoots.
   */
  lemma {:induction false} FitExceedsOnlyThroughTruncation(w: int, h: int, rw: int, rh: int)
    requires w > 0 && h > 0 && rw > 0 && rh > 0
    requires Fit(w, h, rw, rh).width > rw || Fit(w, h, rw, rh).height > rh
    ensures h > rh || w > rw
    ensures (w / h) * rh < rw && rw * h < rh * w
    ensures Fit(w, h, rw, rh).height == rh
  {
    var r := Fit(w, h, rw, rh);
    var q := w / h;
    if q * rh > rw {
      WidthBranchStaysInside(w, h, rw, rh);
      assert false;
    } else if q * rh < rw {
      Arith.ScaledFloor(rh, w, h);
      assert r.width >= rw + 1;
      Arith.MulLeft(rw + 1, r.width, h);
      assert h * (rw + 1) <= h * r.width <= rh * w;
    }
  }

  /** In the width branch the exact ratio is wider than the box, so the scaled height stays below rh. */
  lemma {:induction false} WidthBranchStaysInside(w: int, h: int, rw: int, rh: int)
    requires w > 0 && h > 0 && rw > 0 && rh > 0
    requires (w / h) * rh > rw
    ensures rw * h < rh * w
    ensures rw * h / w < rh
  {
    var q := w / h;
    assert q * h <= w;
    Arith.MulLeft(rw + 1, q * rh, h);
    assert h * (q * rh) == rh * (q * h);
    Arith.MulLeft(q * h, w, rh);
    assert h * (rw + 1) <= rh * w;
    var t := rw * h / w;
    Arith.ScaledFloor(rw, h, w);
    if t >= rh {
      Arith.MulLeft(rh, t, w);
      assert false;
    }
  }

  /**
   * Conversely, when the truncated and the exact ratio agree the result stays
   * within the request.
   */
  lemma {:induction false} FitWithinRequestWhenRatiosAgree(w: int, h: int, rw: int, rh: int)
    requires w > 0 && h > 0 && rw > 0 && rh > 0
    requires (w / h) * rh < rw ==> w * rh <= rw * h
    ensures Fit(w, h, rw, rh).width <= rw && Fit(w, h, rw, rh).height <= rh
  {
    if Fit(w, h, rw, rh).width > rw || Fit(w, h, rw, rh).height > rh {
      FitExceedsOnlyThroughTruncation(w, h, rw, rh);
    }
  }

  /**
   * A concrete case of the truncation quirk: a 1900 × 990 image fitted to a
   * 1800 × 1000 request becomes 1919 × 1000, wider than both the request
   * and the original.
   */
  lemma FitCanEnlarge()
    ensures Fit(1900, 990, 1800, 1000) == Dims(1919, 1000)
  {
  }
}
