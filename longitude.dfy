/** The longitude correction applied after `atan2` when a pointer ray hits the globe. */
module Longitude {

  /** `if (lon < -180) lon += 360; if (lon > 180) lon -= 360;` on an already computed
      longitude. For every input the result is the input moved by at most one turn; on
      [-540, 540], which contains the [-360, 0] range that `atan2(z, -x)` in degrees minus
      180 produces, the result lies in [-180, 180]; a longitude already there is kept. */
  function WrapLon(lon: real): (w: real)
    ensures w == lon || w == lon + 360.0 || w == lon - 360.0
    ensures -540.0 <= lon <= 540.0 ==> -180.0 <= w <= 180.0
    ensures -180.0 <= lon <= 180.0 ==> w == lon
  {
    var once := if lon < -180.0 then lon + 360.0 else lon;
    if once > 180.0 then once - 360.0 else once
  }

  /** The longitude the handlers compute before the correction, from the `atan2` angle in
      degrees, which lies in [-180, 180]. */
  function PreWrapLon(atan2Degrees: real): (lon: real)
    requires -180.0 <= atan2Degrees <= 180.0
    ensures -360.0 <= lon <= 0.0
  {
    atan2Degrees - 180.0
  }

  /** No spurious jump at the seam: two pre-wrap longitudes that differ by d give corrected
      longitudes that differ by d up to one whole turn, and by d itself when neither input
      is on the far side of -180. */
  lemma SeamContinuity(a: real, b: real)
    requires -360.0 <= a <= 0.0 && -360.0 <= b <= 0.0
    ensures var d := WrapLon(a) - WrapLon(b) - (a - b);
            d == 0.0 || d == 360.0 || d == -360.0
    ensures (a < -180.0) == (b < -180.0) ==> WrapLon(a) - WrapLon(b) == a - b
  {
  }

  /** The corrected longitude of a hit is the `atan2` angle turned by half a turn: it lies in
      [-180, 180], is the angle plus 180 for a negative angle and the angle minus 180
      otherwise, so it differs from the uncorrected value by 0 or 360. */
  lemma PointerLongitude(atan2Degrees: real)
    requires -180.0 <= atan2Degrees <= 180.0
    ensures var w := WrapLon(PreWrapLon(atan2Degrees));
            && -180.0 <= w <= 180.0
            && w == (if atan2Degrees < 0.0 then atan2Degrees + 180.0 else atan2Degrees - 180.0)
            && (w == PreWrapLon(atan2Degrees) || w == PreWrapLon(atan2Degrees) + 360.0)
  {
  }
}
