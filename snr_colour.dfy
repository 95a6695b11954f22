/**
 * The colour of one received point: a fixed grey above 15 dB, otherwise the
 * red-yellow-green colour map at the normalised SNR.
 */
module SnrColour {

  const GREY_HEX: string := "#808080"
  /** Readings strictly above this many dB are drawn grey. */
  const GREY_ABOVE: real := 15.0
  /** The SNR range the colour map spans: -21 dB is red, 12 dB is green. */
  const SNR_FLOOR: real := -21.0
  const SNR_CEILING: real := 12.0

  /**
   * A marker colour: a literal hex code, or the colour the red-yellow-green
   * colour map gives at `position` (0 red, 0.5 yellow, 1 green). The map
   * itself is not modelled; none of its colours is grey, since its blue
   * component is always zero.
   */
  datatype Colour = Hex(code: string) | Gradient(position: real)

  /** `(x - (-21)) / (12 - (-21))`. */
  function Normalize(snr: real): (t: real)
    ensures SNR_FLOOR <= snr <= SNR_CEILING ==> 0.0 <= t <= 1.0
  {
    (snr - SNR_FLOOR) / (SNR_CEILING - SNR_FLOOR)
  }

  /** The colour chosen for a reading (the `if row["rx snr"] > 15` branch). */
  function ColourFor(snr: real): (c: Colour)
    ensures c.Hex? <==> snr > GREY_ABOVE
    ensures c.Gradient? ==> c.position == Normalize(snr)
  {
    if snr > GREY_ABOVE then Hex(GREY_HEX) else Gradient(Normalize(snr))
  }

  /** Grey exactly when the reading is strictly above 15 dB; every other reading uses the colour map. */
  lemma GreyIffAboveThreshold(snr: real)
    ensures ColourFor(snr) == Hex(GREY_HEX) <==> snr > GREY_ABOVE
    ensures snr <= GREY_ABOVE ==> ColourFor(snr) == Gradient(Normalize(snr))
  {
  }

  /** The boundary: 15 dB still uses the colour map, 16 dB is grey. */
  lemma ThresholdBoundary()
    ensures ColourFor(15.0) == Gradient(Normalize(15.0))
    ensures ColourFor(16.0) == Hex(GREY_HEX)
  {
  }

  /** -21 dB sits at the red end, 12 dB at the green end, -4.5 dB at the yellow midpoint. */
  lemma NormalizeLandmarks()
    ensures Normalize(-21.0) == 0.0
    ensures Normalize(12.0) == 1.0
    ensures Normalize(-4.5) == 0.5
  {
  }

  lemma NormalizeStrictlyIncreasing(a: real, b: real)
    requires a < b
    ensures Normalize(a) < Normalize(b)
  {
  }

  /**
   * Readings in [-21, 12] dB land inside the colour map; readings in (12, 15]
   * are passed on beyond its green end, unclamped.
   */
  lemma GradientPositionRange(snr: real)
    ensures SNR_FLOOR <= snr <= SNR_CEILING ==> 0.0 <= Normalize(snr) <= 1.0
    ensures SNR_CEILING < snr <= GREY_ABOVE ==> ColourFor(snr).Gradient? && ColourFor(snr).position > 1.0
    ensures snr < SNR_FLOOR ==> ColourFor(snr).Gradient? && ColourFor(snr).position < 0.0
  {
  }
}
