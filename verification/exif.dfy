/** The EXIF orientation code and the rotation applied for it. */
module Exif {
  import opened Wrappers

  /**
   * The clockwise rotation, in degrees, for an EXIF orientation code:
   * only codes 6, 3 and 8 rotate; every other code, including the default 0
   * for a missing tag, leaves the bitmap as it is.
   */
  function RotationDegrees(code: int): (d: int)
    ensures d == 90 <==> code == 6
    ensures d == 180 <==> code == 3
    ensures d == 270 <==> code == 8
    ensures d == 0 <==> code != 6 && code != 3 && code != 8
  {
    if code == 6 then 90
    else if code == 3 then 180
    else if code == 8 then 270
    else 0
  }

  /**
   * The rotation actually applied: `None` stands for an EXIF read that
   * failed with an I/O error, which the source swallows, skipping the
   * rotation.
   */
  function AppliedRotation(exif: Option<int>): (d: int)
    ensures exif.None? ==> d == 0
    ensures exif.Some? ==> d == RotationDegrees(exif.value)
    ensures d == 0 || d == 90 || d == 180 || d == 270
  {
    match exif
    case None => 0
    case Some(code) => RotationDegrees(code)
  }
}
