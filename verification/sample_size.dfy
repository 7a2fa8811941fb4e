/**
 * `calculateInSampleSize`: the decode-time reduction factor. It starts from
 * the smaller of the two rounded side ratios and is raised one step at a
 * time until the decoded pixel count is at most twice the requested one.
 */
module Sampling {
  import Arith

  /**
   * `Math.round(a / b)` for a >= 0, b > 0: the nearest integer, halves
   * rounded up.
   */
  function RoundDiv(a: int, b: int): (r: int)
    requires a >= 0 && b > 0
    ensures r >= 0
    ensures 2 * r * b <= 2 * a + b < 2 * (r + 1) * b
  {
    Arith.ScaledFloor(1, 2 * a + b, 2 * b);
    (2 * a + b) / (2 * b)
  }

  /**
   * Decoding w × h at factor s stays within twice the requested pixel
   * count: (w * h) / s² <= 2 * rw * rh, read without division. At s == 0
   * the source divides by zero in floating point, which gives +Infinity,
   * so the budget is exceeded there, as it is here since w * h > 0.
   */
  predicate WithinDecodeBudget(w: int, h: int, rw: int, rh: int, s: int)
  {
    w * h <= rw * rh * 2 * (s * s)
  }

  /**
   * The factor before the loop: 1 when the image already fits the request,
   * otherwise the smaller of the rounded height and width ratios (which may
   * be 0 when one side is far below its request).
   */
  function InitialSampleSize(w: int, h: int, rw: int, rh: int): (s: int)
    requires w > 0 && h > 0 && rw > 0 && rh > 0
    ensures s >= 0
    ensures h <= rh && w <= rw ==> s == 1
    ensures h > rh || w > rw ==>
              s <= RoundDiv(h, rh) && s <= RoundDiv(w, rw)
              && (s == RoundDiv(h, rh) || s == RoundDiv(w, rw))
  {
    if h > rh || w > rw then
      var heightRatio := RoundDiv(h, rh);
      var widthRatio := RoundDiv(w, rw);
      if heightRatio < widthRatio then heightRatio else widthRatio
    else
      1
  }

  /** While the budget is exceeded, the factor is still below the pixel count. */
  lemma {:induction false} FactorBelowPixelCount(w: int, h: int, rw: int, rh: int, s: int)
    requires w > 0 && h > 0 && rw > 0 && rh > 0 && s >= 0
    requires !WithinDecodeBudget(w, h, rw, rh, s)
    ensures s < w * h
  {
    if s > 0 {
      Arith.MulLeft(1, s, s);
      Arith.MulLeft(1, 2 * rw * rh, s * s);
    }
  }

  /** The least factor at or above s that meets the budget. */
  function LeastFactorFrom(w: int, h: int, rw: int, rh: int, s: int): (r: int)
    requires w > 0 && h > 0 && rw > 0 && rh > 0 && s >= 0
    ensures s <= r
    ensures WithinDecodeBudget(w, h, rw, rh, r)
    ensures forall k :: s <= k < r ==> !WithinDecodeBudget(w, h, rw, rh, k)
    decreases w * h - s
  {
    if WithinDecodeBudget(w, h, rw, rh, s) then
      s
    else
      FactorBelowPixelCount(w, h, rw, rh, s);
      LeastFactorFrom(w, h, rw, rh, s + 1)
  }

  /** The factor `calculateInSampleSize` returns, as a function. */
  function SampleSize(w: int, h: int, rw: int, rh: int): (s: int)
    requires w > 0 && h > 0 && rw > 0 && rh > 0
    ensures s >= 1
    ensures s >= InitialSampleSize(w, h, rw, rh)
    ensures WithinDecodeBudget(w, h, rw, rh, s)
    ensures forall k :: InitialSampleSize(w, h, rw, rh) <= k < s ==> !WithinDecodeBudget(w, h, rw, rh, k)
  {
    var s := LeastFactorFrom(w, h, rw, rh, InitialSampleSize(w, h, rw, rh));
    assert !WithinDecodeBudget(w, h, rw, rh, 0);
    s
  }

  /**
   * The loop of `calculateInSampleSize`. The source tests
   * `totalPixels / (inSampleSize * inSampleSize) > totalReqPixelsCap` in
   * single-precision floating point; here the test is the exact
   * `totalPixels > totalReqPixelsCap * inSampleSize²`, which can differ from
   * the float test by one step only when the two sides are within rounding
   * error of each other.
   */
  method CalculateInSampleSize(width: int, height: int, reqWidth: int, reqHeight: int)
    returns (inSampleSize: int)
    requires width > 0 && height > 0 && reqWidth > 0 && reqHeight > 0
    ensures inSampleSize == SampleSize(width, height, reqWidth, reqHeight)
    ensures inSampleSize >= 1
    ensures WithinDecodeBudget(width, height, reqWidth, reqHeight, inSampleSize)
  {
    inSampleSize := 1;
    if height > reqHeight || width > reqWidth {
      var heightRatio := RoundDiv(height, reqHeight);
      var widthRatio := RoundDiv(width, reqWidth);
      inSampleSize := if heightRatio < widthRatio then heightRatio else widthRatio;
    }
    ghost var start := inSampleSize;
    assert start == InitialSampleSize(width, height, reqWidth, reqHeight);
    var totalPixels := width * height;
    var totalReqPixelsCap := reqWidth * reqHeight * 2;
    while totalPixels > totalReqPixelsCap * (inSampleSize * inSampleSize)
      invariant 0 <= start <= inSampleSize
      invariant LeastFactorFrom(width, height, reqWidth, reqHeight, inSampleSize)
                == LeastFactorFrom(width, height, reqWidth, reqHeight, start)
      decreases totalPixels - inSampleSize
    {
      FactorBelowPixelCount(width, height, reqWidth, reqHeight, inSampleSize);
      inSampleSize := inSampleSize + 1;
    }
  }

  /** Meeting the budget is preserved by larger factors. */
  lemma {:induction false} BudgetMonotone(w: int, h: int, rw: int, rh: int, s: int, t: int)
    requires w > 0 && h > 0 && rw > 0 && rh > 0
    requires 0 <= s <= t && WithinDecodeBudget(w, h, rw, rh, s)
    ensures WithinDecodeBudget(w, h, rw, rh, t)
  {
    Arith.MulLeft(s, t, s);
    Arith.MulLeft(s, t, t);
    Arith.MulLeft(s * s, t * t, 2 * rw * rh);
  }

  /**
   * The factors at or above the starting value that meet the budget are
   * exactly those at or above the returned one: the result is the least
   * admissible factor, and every larger one would also do.
   */
  lemma {:induction false} SampleSizeIsLeastAdmissible(w: int, h: int, rw: int, rh: int, k: int)
    requires w > 0 && h > 0 && rw > 0 && rh > 0
    requires k >= InitialSampleSize(w, h, rw, rh)
    ensures WithinDecodeBudget(w, h, rw, rh, k) <==> k >= SampleSize(w, h, rw, rh)
  {
    var s := SampleSize(w, h, rw, rh);
    if k >= s {
      BudgetMonotone(w, h, rw, rh, s, k);
    }
  }

  /** An image that already fits its request is decoded at full size. */
  lemma {:induction false} NoSubsamplingWithinRequest(w: int, h: int, rw: int, rh: int)
    requires w > 0 && h > 0 && rw > 0 && rh > 0
    requires w <= rw && h <= rh
    ensures SampleSize(w, h, rw, rh) == 1
  {
    Arith.MulLeft(h, rh, w);
    Arith.MulLeft(w, rw, rh);
    assert WithinDecodeBudget(w, h, rw, rh, 1);
  }
}
