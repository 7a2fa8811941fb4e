/**
 * The dimension pipeline of `compressImage` / `compressAndSaveImage`: from
 * the original bounds, the file's byte size, the profile and the EXIF
 * orientation to the size of the scaled bitmap, the decode factor and the
 * rotation.
 */
module Compressor {
  import opened Wrappers
  import opened Profiles
  import opened DimensionPolicy
  import opened AspectFit
  import opened Sampling
  import opened Exif
  import Arith

  /** What the pipeline settles on before any pixel is decoded. */
  datatype Plan = Plan(width: int, height: int, sampleSize: int, rotation: int)

  /** Why no compressed bitmap comes out. */
  datatype Failure =
    | NoImage      // the decoder reports no positive bounds for the file
    | EmptyTarget  // the computed size has a side that is not positive

  /**
   * The fit never produces a side larger than the original when the request
   * itself does not exceed the original.
   */
  lemma {:induction false} FitWithinOriginal(w: int, h: int, rw: int, rh: int)
    requires w > 0 && h > 0 && 0 < rw <= w && 0 < rh <= h
    ensures Fit(w, h, rw, rh).width <= w && Fit(w, h, rw, rh).height <= h
  {
    var q := w / h;
    if (h > rh || w > rw) && q * rh < rw {
      Arith.ScaledFloor(rh, w, h);
    } else if (h > rh || w > rw) && q * rh > rw {
      Arith.ScaledFloor(rw, h, w);
    }
  }

  /**
   * The inputs the model covers: any valid profile; and, whatever the
   * profile, a file the decoder cannot read (non-positive bounds), a
   * decodable file below 100 KiB (the caps are then never used) or a square
   * image when the profile width, the square cap, is positive.
   */
  predicate Modelled(w: int, h: int, fileSize: int, profile: CompressSize)
  {
    || profile.Valid()
    || w <= 0 || h <= 0
    || fileSize < SmallFileBytes
    || (w == h && profile.Width() > 0)
  }

  /** The whole dimension pipeline as a function of its inputs. */
  function Compress(w: int, h: int, fileSize: int, profile: CompressSize, exif: Option<int>)
    : (r: Result<Plan, Failure>)
    requires Modelled(w, h, fileSize, profile)
    ensures r == Failure(NoImage) <==> w <= 0 || h <= 0
    ensures r.Success? ==>
              && r.value.width > 0 && r.value.height > 0
              && r.value.sampleSize >= 1
              && WithinDecodeBudget(w, h, r.value.width, r.value.height, r.value.sampleSize)
              && r.value.rotation == AppliedRotation(exif)
  {
    if w <= 0 || h <= 0 then
      Failure(NoImage)
    else
      var req := TargetRequest(w, h, fileSize, EntryCaps(profile));
      if req.width <= 0 || req.height <= 0 then
        Failure(EmptyTarget)
      else
        var target := Fit(w, h, req.width, req.height);
        if target.width <= 0 || target.height <= 0 then
          Failure(EmptyTarget)
        else
          Success(Plan(target.width, target.height,
                       SampleSize(w, h, target.width, target.height), AppliedRotation(exif)))
  }

  /** The compressor never enlarges: the planned bitmap fits inside the original bounds. */
  lemma {:induction false} CompressNeverEnlarges(w: int, h: int, fileSize: int, profile: CompressSize, exif: Option<int>)
    requires Modelled(w, h, fileSize, profile)
    requires Compress(w, h, fileSize, profile, exif).Success?
    ensures Compress(w, h, fileSize, profile, exif).value.width <= w
    ensures Compress(w, h, fileSize, profile, exif).value.height <= h
  {
    var req := TargetRequest(w, h, fileSize, EntryCaps(profile));
    FitWithinOriginal(w, h, req.width, req.height);
  }

  /**
   * A file below 100 KiB keeps its bounds and is decoded at full size,
   * whatever the profile; only the rotation applies.
   */
  lemma {:induction false} SmallFilePassesThrough(w: int, h: int, fileSize: int, profile: CompressSize, exif: Option<int>)
    requires w > 0 && h > 0 && fileSize < SmallFileBytes
    ensures Compress(w, h, fileSize, profile, exif) == Success(Plan(w, h, 1, AppliedRotation(exif)))
  {
    assert TargetRequest(w, h, fileSize, EntryCaps(profile)) == Dims(w, h);
    assert Fit(w, h, w, h) == Dims(w, h);
    NoSubsamplingWithinRequest(w, h, w, h);
  }

  /**
   * The pipeline as the source runs it: the policy, the fit, then the
   * sample-size loop, then the rotation. Its steps are those of `Compress`;
   * what it adds is that the decode factor comes from the loop of
   * `CalculateInSampleSize` rather than from its specification `SampleSize`.
   */
  method CompressImage(w: int, h: int, fileSize: int, profile: CompressSize, exif: Option<int>)
    returns (r: Result<Plan, Failure>)
    requires Modelled(w, h, fileSize, profile)
    ensures r == Compress(w, h, fileSize, profile, exif)
  {
    if w <= 0 || h <= 0 {
      return Failure(NoImage);
    }
    var req := TargetRequest(w, h, fileSize, EntryCaps(profile));
    if req.width <= 0 || req.height <= 0 {
      return Failure(EmptyTarget);
    }
    var target := Fit(w, h, req.width, req.height);
    if target.width <= 0 || target.height <= 0 {
      return Failure(EmptyTarget);
    }
    var inSampleSize := CalculateInSampleSize(w, h, target.width, target.height);
    r := Success(Plan(target.width, target.height, inSampleSize, AppliedRotation(exif)));
  }

  /**
   * A 4000 × 3000 photo of at least 100 KiB under the HD profile: the swapped
   * landscape box 720 × 1280 is clamped to, the fit then scales by width to
   * 720 × 540, and the decode factor is round(5.55) = 6.
   */
  lemma WorkedExampleHD()
    ensures Compress(4000, 3000, SmallFileBytes, HD, Some(6)) == Success(Plan(720, 540, 6, 90))
  {
    assert TargetRequest(4000, 3000, SmallFileBytes, EntryCaps(HD)) == Dims(720, 1280);
    assert Fit(4000, 3000, 720, 1280) == Dims(720, 540);
    assert InitialSampleSize(4000, 3000, 720, 540) == 6;
    assert WithinDecodeBudget(4000, 3000, 720, 540, 6);
  }

  /**
   * A large square photo under the HD profile is clamped to the square cap
   * 1280 and decoded at factor 2.
   */
  lemma LargeSquareHD()
    ensures Compress(3000, 3000, SmallFileBytes, HD, None) == Success(Plan(1280, 1280, 2, 0))
  {
    assert TargetRequest(3000, 3000, SmallFileBytes, EntryCaps(HD)) == Dims(1280, 1280);
    assert Fit(3000, 3000, 1280, 1280) == Dims(1280, 1280);
    assert InitialSampleSize(3000, 3000, 1280, 1280) == 2;
    assert WithinDecodeBudget(3000, 3000, 1280, 1280, 2);
  }

  /**
   * A very thin large panorama has its short side truncated to zero by the
   * proportional rule, and no bitmap can be produced for it.
   */
  lemma ThinPanoramaHasNoTarget()
    ensures Compress(100000, 1, SmallFileBytes, HD, None) == Failure(EmptyTarget)
  {
    assert TargetRequest(100000, 1, SmallFileBytes, EntryCaps(HD)) == Dims(720, 0);
  }

  /**
   * A large square photo needs only the profile width: under `CUSTOM(1280, 0)`
   * it is treated exactly as under HD.
   */
  lemma LargeSquareIgnoresProfileHeight()
    ensures Compress(3000, 3000, SmallFileBytes, Custom(1280, 0), None) == Success(Plan(1280, 1280, 2, 0))
  {
    assert TargetRequest(3000, 3000, SmallFileBytes, EntryCaps(Custom(1280, 0))) == Dims(1280, 1280);
    assert Fit(3000, 3000, 1280, 1280) == Dims(1280, 1280);
    assert InitialSampleSize(3000, 3000, 1280, 1280) == 2;
    assert WithinDecodeBudget(3000, 3000, 1280, 1280, 2);
  }

  /**
   * A file the decoder cannot read (it reports bounds of -1) yields no
   * bitmap under every profile, including CUSTOM boxes with non-positive sides.
   */
  lemma UnreadableFileHasNoImage(fileSize: int, profile: CompressSize, exif: Option<int>)
    ensures Modelled(-1, -1, fileSize, profile)
    ensures Compress(-1, -1, fileSize, profile, exif) == Failure(NoImage)
  {
  }
}
