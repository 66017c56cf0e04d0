/** Conversion between astronomical units and meters: multiplication or division by one
    fixed, positive constant. */
module Au {

  /** Meters in one astronomical unit. */
  const AU_METERS: real := 149597870691.0

  /** `au_to_meters`: dividing the result by the constant gives the input back. */
  function AuToMeters(au: real): (meters: real)
    ensures meters / AU_METERS == au
  {
    au * AU_METERS
  }

  /** `meters_to_au`: multiplying the result by the constant gives the input back. */
  function MetersToAu(meters: real): (au: real)
    ensures au * AU_METERS == meters
  {
    meters / AU_METERS
  }

  /** Converting to meters and back is the identity, and so is the other order. */
  lemma RoundTrips(x: real)
    ensures MetersToAu(AuToMeters(x)) == x
    ensures AuToMeters(MetersToAu(x)) == x
  {
  }

  /** One astronomical unit converts to the constant itself. */
  lemma OneAu()
    ensures AuToMeters(1.0) == AU_METERS
  {
  }

  /** Both conversions are strictly increasing: the constant is positive. */
  lemma ConversionsMonotone(a: real, b: real)
    requires a < b
    ensures AuToMeters(a) < AuToMeters(b)
    ensures MetersToAu(a) < MetersToAu(b)
  {
  }
}
