/**
 * The compression profiles (`ImageCompressSize`) and the way the two public
 * entry points hand a profile to the dimension policy.
 */
module Profiles {

  /** The sealed family of size profiles; `Custom` carries its own box. */
  datatype CompressSize = HD | FullHD | QuadHD | Custom(maxWidth: int, maxHeight: int)
  {
    /** The profile's `width` field. */
    function Width(): int
    {
      match this
      case HD => 1280
      case FullHD => 1920
      case QuadHD => 2560
      case Custom(w, _) => w
    }

    /** The profile's `height` field. */
    function Height(): int
    {
      match this
      case HD => 720
      case FullHD => 1080
      case QuadHD => 1440
      case Custom(_, h) => h
    }

    /** Both sides positive: a box the Android bitmap allocator can honour. */
    predicate Valid()
    {
      Width() > 0 && Height() > 0
    }
  }

  /**
   * The three caps the policy receives, named as its parameters are named:
   * `maxHeightLandscape`, `maxwidthLandscape` and `maxSqure`.
   */
  datatype Caps = Caps(maxHeightLandscape: int, maxWidthLandscape: int, maxSquare: int)
  {
    predicate Valid()
    {
      maxHeightLandscape > 0 && maxWidthLandscape > 0 && maxSquare > 0
    }
  }

  /**
   * The argument mapping of `compressImage` and `compressAndSaveImage`: the
   * profile's width goes to the landscape HEIGHT cap and to the square cap,
   * the profile's height to the landscape WIDTH cap.
   */
  function EntryCaps(p: CompressSize): (c: Caps)
    ensures c.maxHeightLandscape == p.Width() && c.maxSquare == p.Width()
    ensures c.maxWidthLandscape == p.Height()
    ensures c.Valid() <==> p.Valid()
  {
    Caps(p.Width(), p.Height(), p.Width())
  }

  /** The preset boxes as the policy sees them. */
  lemma PresetCaps()
    ensures EntryCaps(HD) == Caps(1280, 720, 1280)
    ensures EntryCaps(FullHD) == Caps(1920, 1080, 1920)
    ensures EntryCaps(QuadHD) == Caps(2560, 1440, 2560)
    ensures forall w, h :: EntryCaps(Custom(w, h)) == Caps(w, h, w)
  {
  }

  /**
   * Because of the swap, every preset hands the policy a landscape box that
   * is narrower than it is tall (720 wide and 1280 high for HD).
   */
  lemma PresetLandscapeBoxIsTall(p: CompressSize)
    requires !p.Custom?
    ensures p.Valid()
    ensures EntryCaps(p).maxWidthLandscape < EntryCaps(p).maxHeightLandscape
  {
  }
}
