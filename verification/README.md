# ImageCompressor dimension arithmetic, in Dafny

This project models the integer dimension arithmetic of the Android image compressor
`ImageCompressor` (`app/src/main/java/com/yogeshpareek/android/imagecompressor/ImageCompressor.kt`). The compressor shrinks a photo to fit a size profile.
The model is a pure pipeline. Its inputs are:

- the original bounds (width × height);
- the file's byte size;
- the size profile;
- the EXIF orientation code.

Its output is a `Plan`: the size of the scaled bitmap, the decoder's `inSampleSize` and the
rotation in degrees. It can also be a `Failure` when no bitmap comes out.

The stages follow the source:

1. **Profiles** (`profiles.dfy`). `HD`, `FullHD`, `QuadHD` and `Custom(w, h)` are mapped onto the three
   caps `compressImageWithSize` receives. The entry points pass the profile WIDTH as
   `maxHeightLandscape` and as `maxSqure`, and the profile HEIGHT as `maxwidthLandscape`. The model keeps
   this swap, so every preset gives landscape photos a box that is taller than it is wide.
2. **Target-dimension policy** (`policy.dfy`). This stage classifies the image as landscape, portrait or
   square. Files under 100 KiB keep their bounds. Larger landscape and portrait images go through one
   strict clamp rule (`ClampToBox`); the portrait box is the landscape box transposed. Square images are
   clamped to the square cap.
3. **Aspect fit** (`fit.dfy`). This stage compares the truncated integer ratio `width / height` with the
   request's exact ratio. It then pins the height, the width or both to the request.
4. **Sample size** (`sample_size.dfy`). The start value is the smaller of the two rounded side ratios when a side exceeds the request, and 1 otherwise.
   A loop (`CalculateInSampleSize`) then raises the factor until the decoded pixel count is at most twice
   the requested pixel count.
5. **EXIF rotation** (`exif.dfy`). Code 6 maps to 90°, 3 to 180° and 8 to 270°. Everything else maps to 0°.

`compressor.dfy` composes the stages. `Compress` is the pipeline as a function, and `CompressImage`
is the same pipeline as a method that runs the sample-size loop. The end-to-end lemmas are:

- the compressor never enlarges the image;
- small files pass through at decode factor 1;
- three worked inputs.

Floating-point expressions of the source are modelled as exact rationals over positive integers:

- `(a.toFloat() / c.toFloat() * b.toFloat()).toInt()` is `a * b / c`, rounded down;
- `Math.round(x / y)` is `(2x + y) / (2y)`;
- the loop test `totalPixels / s² > totalReqPixelsCap` is `w * h > rw * rh * 2 * s²`.

Single-precision rounding can make the source differ from the model by one pixel, or by one loop
step, when an exact value sits within rounding error of an integer or of the budget.

Three behaviours of the code are kept as written:

- **The HD example.** A 4000 × 3000 photo of at least 100 KiB under HD ends at 720 × 540 with decode
  factor 6 (`WorkedExampleHD`). The profile's name suggests 1280 × 960; the swapped arguments produce
  720 × 540.
- **The truncated ratio.** Because of it, the fit can exceed its request: a 1900 × 990 image against a
  1800 × 1000 request gives 1919 × 1000 (`FitCanEnlarge`). `FitExceedsOnlyThroughTruncation` proves this
  is the only way the fit can exceed the request. Through the whole pipeline, though, the result never
  exceeds the original bounds (`CompressNeverEnlarges`).
- **Thin panoramas.** A large enough one has its short side truncated to 0 by the proportional rule
  (`ThinPanoramaHasNoTarget`). The source then spins its sample-size loop into `Int` overflow, and
  `Bitmap.createBitmap` refuses a zero side. The model reports `Failure(EmptyTarget)` instead.

The final `else` of the orientation chain (lines 107-110) cannot be reached. `Classify` states the
trichotomy and has no such branch. The `reqWidth`/`reqHeight` values assigned during classification
(lines 91-110) are overwritten on every path before use, so the model omits them.

## Model

| member | source | states |
|---|---|---|
| Profiles.EntryCaps | app/src/main/java/com/yogeshpareek/android/imagecompressor/ImageCompressor.kt:11-28 | the landscape height cap and the square cap are the profile width, the landscape width cap is the profile height; the caps are valid exactly when the profile is |
| Profiles.PresetCaps | app/src/main/java/com/yogeshpareek/android/imagecompressor/ImageCompressor.kt:11-16 | HD, FULL_HD and QUAD_HD give caps (1280, 720, 1280), (1920, 1080, 1920), (2560, 1440, 2560); CUSTOM(w, h) gives (w, h, w) |
| Profiles.PresetLandscapeBoxIsTall | app/src/main/java/com/yogeshpareek/android/imagecompressor/ImageCompressor.kt:21-28 | for every preset the landscape box handed to the policy is narrower than it is tall |
| DimensionPolicy.Classify | app/src/main/java/com/yogeshpareek/android/imagecompressor/ImageCompressor.kt:94-110 | landscape iff width > height, portrait iff height > width, square iff equal: a trichotomy, so the final else is dead |
| DimensionPolicy.ClampToBox | app/src/main/java/com/yogeshpareek/android/imagecompressor/ImageCompressor.kt:122-153 | within the box: unchanged; both sides over: exactly the caps; one side over: that side is the cap and the other is the floor of the proportional value; never larger than the original nor than the box |
| DimensionPolicy.SquareClamp | app/src/main/java/com/yogeshpareek/android/imagecompressor/ImageCompressor.kt:154-168 | a square image becomes min(side, maxSqure) on both sides |
| DimensionPolicy.TargetRequest | app/src/main/java/com/yogeshpareek/android/imagecompressor/ImageCompressor.kt:112-170 | files under 100 * 1024 bytes keep their bounds whatever the caps; otherwise the request never exceeds the original, lies within the landscape box (landscape), the transposed box (portrait) or is min(side, maxSqure) square |
| DimensionPolicy.LandscapeBoundaryIsStrict | app/src/main/java/com/yogeshpareek/android/imagecompressor/ImageCompressor.kt:122-137 | a landscape image whose width equals its cap is scaled by height, not clamped (strict comparisons) |
| DimensionPolicy.LandscapeRequestIsBoxIff | app/src/main/java/com/yogeshpareek/android/imagecompressor/ImageCompressor.kt:122-137 | for a large landscape image the request equals the box iff both sides exceed it or the image already has the box's size |
| AspectFit.Fit | app/src/main/java/com/yogeshpareek/android/imagecompressor/ImageCompressor.kt:202-227 | inside the request: unchanged; truncated ratio below the request's: height pinned and width the floor of the scaled width; above: width pinned and height the floor of the scaled height; equal: exactly the request |
| AspectFit.WidthBranchStaysInside | app/src/main/java/com/yogeshpareek/android/imagecompressor/ImageCompressor.kt:219-222 | when the truncated ratio exceeds the request's, the exact ratio does too and the scaled height stays below the requested height |
| AspectFit.FitExceedsOnlyThroughTruncation | app/src/main/java/com/yogeshpareek/android/imagecompressor/ImageCompressor.kt:208-227 | if the fit exceeds the request, the height branch was taken although the image is exactly wider than the request, and the height equals the request |
| AspectFit.FitWithinRequestWhenRatiosAgree | app/src/main/java/com/yogeshpareek/android/imagecompressor/ImageCompressor.kt:208-227 | when the truncated and the exact ratio comparisons agree, the fit lies within the request |
| AspectFit.FitCanEnlarge | app/src/main/java/com/yogeshpareek/android/imagecompressor/ImageCompressor.kt:208-218 | 1900 × 990 against 1800 × 1000 gives 1919 × 1000 |
| Sampling.RoundDiv | app/src/main/java/com/yogeshpareek/android/imagecompressor/ImageCompressor.kt:181-182 | Math.round of a positive quotient: the nearest integer, halves rounded up |
| Sampling.InitialSampleSize | app/src/main/java/com/yogeshpareek/android/imagecompressor/ImageCompressor.kt:178-184 | 1 when the image fits the request, otherwise the smaller of the rounded height and width ratios |
| Sampling.FactorBelowPixelCount | app/src/main/java/com/yogeshpareek/android/imagecompressor/ImageCompressor.kt:187-189 | while the budget is exceeded the factor is below the pixel count, so the loop ends |
| Sampling.LeastFactorFrom | app/src/main/java/com/yogeshpareek/android/imagecompressor/ImageCompressor.kt:185-189 | the result is at least the start, meets the decode budget, and no smaller factor from the start does |
| Sampling.SampleSize | app/src/main/java/com/yogeshpareek/android/imagecompressor/ImageCompressor.kt:175-191 | the factor is at least 1 and at least the start, decoding at it stays within twice the requested pixels, and every factor between the start and it does not |
| Sampling.CalculateInSampleSize | app/src/main/java/com/yogeshpareek/android/imagecompressor/ImageCompressor.kt:175-191 | the loop returns the least factor from the start that meets the budget, at least 1 |
| Sampling.BudgetMonotone | app/src/main/java/com/yogeshpareek/android/imagecompressor/ImageCompressor.kt:185-189 | a factor that meets the budget keeps meeting it when raised |
| Sampling.SampleSizeIsLeastAdmissible | app/src/main/java/com/yogeshpareek/android/imagecompressor/ImageCompressor.kt:175-191 | a factor no smaller than the start meets the budget iff it is at least the returned factor |
| Sampling.NoSubsamplingWithinRequest | app/src/main/java/com/yogeshpareek/android/imagecompressor/ImageCompressor.kt:178-190 | an image within its request is decoded at factor 1 |
| Exif.RotationDegrees | app/src/main/java/com/yogeshpareek/android/imagecompressor/ImageCompressor.kt:291-305 | code 6 iff 90°, 3 iff 180°, 8 iff 270°, any other code iff 0° |
| Exif.AppliedRotation | app/src/main/java/com/yogeshpareek/android/imagecompressor/ImageCompressor.kt:287-323 | a failed EXIF read means no rotation; otherwise the code's rotation; always a quarter turn |
| Compressor.FitWithinOriginal | app/src/main/java/com/yogeshpareek/android/imagecompressor/ImageCompressor.kt:208-227 | a request no larger than the original yields a fit no larger than the original |
| Compressor.Compress | app/src/main/java/com/yogeshpareek/android/imagecompressor/ImageCompressor.kt:73-230 | on every valid profile, and under any profile for unreadable files, small files and square images with a positive profile width: non-positive bounds are exactly the no-image case; a plan has positive sides, a factor of at least 1 that keeps decoding within twice the planned pixels, and the EXIF rotation |
| Compressor.CompressNeverEnlarges | app/src/main/java/com/yogeshpareek/android/imagecompressor/ImageCompressor.kt:112-227 | the planned bitmap never exceeds the original bounds |
| Compressor.SmallFilePassesThrough | app/src/main/java/com/yogeshpareek/android/imagecompressor/ImageCompressor.kt:117-120 | a decodable file under 100 KiB keeps its bounds, factor 1, under any profile, including a CUSTOM box with non-positive sides |
| Compressor.CompressImage | app/src/main/java/com/yogeshpareek/android/imagecompressor/ImageCompressor.kt:193-230 | the policy, fit and sample-size loop in sequence compute exactly the pipeline function |
| Compressor.UnreadableFileHasNoImage | app/src/main/java/com/yogeshpareek/android/imagecompressor/ImageCompressor.kt:241-252 | a file reported with bounds -1 × -1 is in the modelled domain and yields no bitmap under every profile |
| Compressor.LargeSquareIgnoresProfileHeight | app/src/main/java/com/yogeshpareek/android/imagecompressor/ImageCompressor.kt:154-157 | a large 3000 × 3000 photo under CUSTOM(1280, 0) is planned exactly as under HD: 1280 × 1280, factor 2 |
| Compressor.WorkedExampleHD | app/src/main/java/com/yogeshpareek/android/imagecompressor/ImageCompressor.kt:122-125 | HD, 4000 × 3000, large file: 720 × 540, factor 6, rotation 90° for code 6 |
| Compressor.LargeSquareHD | app/src/main/java/com/yogeshpareek/android/imagecompressor/ImageCompressor.kt:154-157 | HD, 3000 × 3000, large file: 1280 × 1280, factor 2 |
| Compressor.ThinPanoramaHasNoTarget | app/src/main/java/com/yogeshpareek/android/imagecompressor/ImageCompressor.kt:126-129 | HD, 100000 × 1, large file: the request's height truncates to 0 and no bitmap results |

## Left out

- Saving (`saveImage` and the save/recycle logic of `compressAndSaveImage`, lines 25-71): file I/O. Line 43 overwrites the extension with "jpg", so the PNG branch cannot run.
- Decoding, the Canvas/Matrix centre-anchored scaling and the `Bitmap.createBitmap` rotation (lines 78-82, 196-200, 241-276, 306-310): Android library calls and float rendering. The model does not give the bitmap's dimensions after rotation.
- `file.length()` (line 117): the byte size is a parameter. The EXIF code is a parameter too; `None` stands for a read that failed with `IOException`.
- Logging, the `OutOfMemoryError` and `IOException` catches, and the `inPurgeable`/`inTempStorage` options (lines 236-252, 257-259, 321-323): runtime plumbing. An allocation failure is not modelled.
- Kotlin `Int` overflow in `width * height` and `reqWidth * reqHeight * 2` (lines 185-186), and in the loop's `inSampleSize * inSampleSize`: integers are unbounded. Results match the source only while these products stay below 2^31.
- Exact IEEE single-precision behaviour of the ratio expressions (lines 129, 132, 144, 149, 181-182, 187, 211, 216-221): modelled as exact rationals, as described above.
- Compressor.Compress: requires the input to lie in the modelled domain (`Modelled`): a profile with positive sides, or non-positive bounds, or a file under 100 KiB, or a square image with a positive profile width. Outside it, a large file under a `CUSTOM` box with a non-positive side runs through Kotlin float arithmetic on zero, negative and infinite ratios that the model does not reproduce. Depending on the branch, the source then gets a bitmap: `CUSTOM(-5, 720)` with a 4000 × 3000 photo takes the width branch of the fit and gives 720 × 540. Or `Bitmap.createBitmap` rejects a non-positive side. The model does not predict which. Inside the domain, non-positive bounds are modelled as `Failure(NoImage)`: the decoder reports -1 when it cannot read a file, and the source then ends with a null bitmap.
- Compressor.CompressImage: has the same domain as `Compressor.Compress`.
- Compressor.Compress: a request or fit with a zero side is reported as `Failure(EmptyTarget)`. The source would instead run its sample-size loop on a zero budget until `Int` overflow stops it, and then either get no bitmap or throw from `Bitmap.createBitmap`.
- DimensionPolicy.TargetRequest: requires positive bounds, and valid caps unless the file is small or the image is square with a positive square cap. The pipeline rules out other inputs before calling it.
- AspectFit.Fit, Sampling.CalculateInSampleSize: require positive bounds and a positive request. The pipeline reports any other request as `Failure(EmptyTarget)` before calling them.
