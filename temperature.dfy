/**
 Temperature conversion between Kelvin, Celsius and Fahrenheit by affine
 formulas (no factor table). Any other unit yields the sentinel -1.
 */
module Temperature {
  import opened Wrappers
  import Conversion

  // Enumerants of the temperature unit type (their values are assumed; the
  // formulas only rely on them being distinct).
  const KELVIN: int := 0
  const CELSIUS: int := 1
  const FAHRENHEIT: int := 2

  const ABS_ZERO: real := -273.15
  const F_MULTI: real := 1.8
  const ZEROC: real := 32.0

  predicate IsTempUnit(u: int) {
    u == KELVIN || u == CELSIUS || u == FAHRENHEIT
  }

  /** convert_temp as written: the Celsius-to-Fahrenheit case scales by 1.8
      but does not add the 32-degree offset. */
  function ConvertTemp(temp: real, src: int, dst: int): (r: real)
    ensures !IsTempUnit(src) || !IsTempUnit(dst) ==> r == Conversion.SENTINEL
    ensures IsTempUnit(src) && src == dst ==> r == temp
  {
    if src == KELVIN then
      if dst == KELVIN then temp
      else if dst == CELSIUS then temp + ABS_ZERO
      else if dst == FAHRENHEIT then (temp + ABS_ZERO) * F_MULTI + ZEROC
      else Conversion.SENTINEL
    else if src == CELSIUS then
      if dst == KELVIN then temp - ABS_ZERO
      else if dst == CELSIUS then temp
      else if dst == FAHRENHEIT then temp * F_MULTI
      else Conversion.SENTINEL
    else if src == FAHRENHEIT then
      if dst == KELVIN then ((temp - ZEROC) / F_MULTI) - ABS_ZERO
      else if dst == CELSIUS then (temp - ZEROC) / F_MULTI
      else if dst == FAHRENHEIT then temp
      else Conversion.SENTINEL
    else Conversion.SENTINEL
  }

  /** Kelvin and Celsius differ by 273.15 and convert back and forth exactly. */
  lemma KelvinCelsiusRoundTrip(temp: real)
    ensures ConvertTemp(temp, CELSIUS, KELVIN) == temp + 273.15
    ensures ConvertTemp(temp, KELVIN, CELSIUS) == temp - 273.15
    ensures ConvertTemp(ConvertTemp(temp, KELVIN, CELSIUS), CELSIUS, KELVIN) == temp
    ensures ConvertTemp(ConvertTemp(temp, CELSIUS, KELVIN), KELVIN, CELSIUS) == temp
  {
  }

  /** Kelvin and Fahrenheit convert back and forth exactly (over the reals). */
  lemma KelvinFahrenheitRoundTrip(temp: real)
    ensures ConvertTemp(ConvertTemp(temp, KELVIN, FAHRENHEIT), FAHRENHEIT, KELVIN) == temp
    ensures ConvertTemp(ConvertTemp(temp, FAHRENHEIT, KELVIN), KELVIN, FAHRENHEIT) == temp
  {
  }

  /** Fixed points: water freezes at 0 C = 273.15 K = 32 F, and Fahrenheit to
      Celsius through Kelvin agrees with the direct formula. */
  lemma FreezingPoint()
    ensures ConvertTemp(0.0, CELSIUS, KELVIN) == 273.15
    ensures ConvertTemp(32.0, FAHRENHEIT, CELSIUS) == 0.0
    ensures ConvertTemp(273.15, KELVIN, FAHRENHEIT) == 32.0
  {
  }

  lemma FahrenheitToCelsiusThroughKelvin(temp: real)
    ensures ConvertTemp(ConvertTemp(temp, FAHRENHEIT, KELVIN), KELVIN, CELSIUS)
         == ConvertTemp(temp, FAHRENHEIT, CELSIUS)
  {
  }

  /** The Celsius-to-Fahrenheit case as written is 32 degrees below the route
      through Kelvin, and neither Celsius/Fahrenheit round trip is the identity. */
  lemma CelsiusToFahrenheitDisagrees(temp: real)
    ensures ConvertTemp(temp, CELSIUS, FAHRENHEIT)
         == ConvertTemp(ConvertTemp(temp, CELSIUS, KELVIN), KELVIN, FAHRENHEIT) - 32.0
    ensures ConvertTemp(ConvertTemp(temp, CELSIUS, FAHRENHEIT), FAHRENHEIT, CELSIUS) == temp - 160.0 / 9.0
    ensures ConvertTemp(ConvertTemp(temp, FAHRENHEIT, CELSIUS), CELSIUS, FAHRENHEIT) == temp - 32.0
    ensures ConvertTemp(0.0, CELSIUS, FAHRENHEIT) != 32.0
  {
  }

  /** The conversion with the Celsius-to-Fahrenheit offset restored. */
  function ConvertTempIntended(temp: real, src: int, dst: int): (r: real)
    ensures !IsTempUnit(src) || !IsTempUnit(dst) ==> r == Conversion.SENTINEL
    ensures IsTempUnit(src) && src == dst ==> r == temp
  {
    if src == CELSIUS && dst == FAHRENHEIT then temp * F_MULTI + ZEROC
    else ConvertTemp(temp, src, dst)
  }

  /** Only the Celsius-to-Fahrenheit case differs from the code as written. */
  lemma IntendedAgreesElsewhere(temp: real, src: int, dst: int)
    requires !(src == CELSIUS && dst == FAHRENHEIT)
    ensures ConvertTempIntended(temp, src, dst) == ConvertTemp(temp, src, dst)
  {
  }

  /** The Kelvin value a valid temperature stands for. */
  function ToKelvin(temp: real, u: int): real
    requires IsTempUnit(u)
  {
    if u == KELVIN then temp
    else if u == CELSIUS then temp + 273.15
    else (temp - 32.0) * 5.0 / 9.0 + 273.15
  }

  /** The corrected converter preserves the physical temperature between any
      two valid units; hence every round trip and every composition is exact. */
  lemma IntendedPreservesKelvin(temp: real, src: int, dst: int)
    requires IsTempUnit(src) && IsTempUnit(dst)
    ensures ToKelvin(ConvertTempIntended(temp, src, dst), dst) == ToKelvin(temp, src)
  {
  }

  lemma ToKelvinInjective(a: real, b: real, u: int)
    requires IsTempUnit(u) && ToKelvin(a, u) == ToKelvin(b, u)
    ensures a == b
  {
  }

  lemma IntendedRoundTrip(temp: real, a: int, b: int)
    requires IsTempUnit(a) && IsTempUnit(b)
    ensures ConvertTempIntended(ConvertTempIntended(temp, a, b), b, a) == temp
  {
    var there := ConvertTempIntended(temp, a, b);
    IntendedPreservesKelvin(temp, a, b);
    IntendedPreservesKelvin(there, b, a);
    ToKelvinInjective(ConvertTempIntended(there, b, a), temp, a);
  }

  lemma IntendedComposes(temp: real, a: int, b: int, c: int)
    requires IsTempUnit(a) && IsTempUnit(b) && IsTempUnit(c)
    ensures ConvertTempIntended(ConvertTempIntended(temp, a, b), b, c) == ConvertTempIntended(temp, a, c)
  {
    var mid := ConvertTempIntended(temp, a, b);
    IntendedPreservesKelvin(temp, a, b);
    IntendedPreservesKelvin(mid, b, c);
    IntendedPreservesKelvin(temp, a, c);
    ToKelvinInjective(ConvertTempIntended(mid, b, c), ConvertTempIntended(temp, a, c), c);
  }

  /** The conversion with failure made explicit: valid Celsius and Fahrenheit
      results can themselves be -1, so the sentinel cannot tell them apart. */
  function ConvertTempChecked(temp: real, src: int, dst: int): (r: Option<real>)
    ensures r.None? <==> !IsTempUnit(src) || !IsTempUnit(dst)
    ensures r.Some? ==> r.value == ConvertTemp(temp, src, dst)
  {
    if IsTempUnit(src) && IsTempUnit(dst) then Some(ConvertTemp(temp, src, dst)) else None
  }

  lemma SentinelIsAmbiguous()
    ensures ConvertTempChecked(-1.0, CELSIUS, CELSIUS) == Some(Conversion.SENTINEL)
    ensures ConvertTempChecked(272.15, KELVIN, CELSIUS) == Some(Conversion.SENTINEL)
  {
  }
}
