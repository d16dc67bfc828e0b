# Unit system of PlanetaryWorkbench (libexo), modelled in Dafny

This project models the unit system in `src/util/general/units.c`. The unit system covers four quantity kinds: length (semimajor axis), time (orbital period), mass and temperature. It provides:

- **Registries** (`registry.dfy`). Each kind has a table of accepted spellings, stored variant-major: spelling `k` of unit `i` is `names[i + k*count]`. Length and temperature units have two spellings each; time and mass units have three. Each kind also has a "no unit" sentinel. `Registry.Parse` specifies lookup: the first unit, in index order, that has a spelling equal to the argument, or else the sentinel. `Registry.DisplayName` is the clamped display lookup used by `time_T_string` and `length_T_string`.
- **Parsers** (`parsers.dfy`). These are the four `parse_*_unit` loops as methods. Each is proved equal to `Registry.Parse`.
- **Table converters** (`conversion.dfy`). `convert_length`, `convert_time` and `convert_mass` are the same code over three factor matrices, so they are modelled once over a matrix parameter. `ConvertAsWritten` keeps the source's bounds check, which accepts the index `count`. `Convert` is the same function with the bound corrected.
- **Temperature converter** (`temperature.dfy`). `ConvertTemp` is `convert_temp` as written, including its Celsius-to-Fahrenheit formula, which lacks the +32 offset. `ConvertTempIntended` restores the offset.
- **Selectors** (`selectors.dfy`). These are the threshold ladders `select_time_T` and `select_length_T`. Their thresholds are read from the time and length matrices.
- **Listing** (`listing.dfy`). `SupportedUnits` is the `supported_*_units` loop. It joins the display names with ", " and stops early near the 80-character buffer size.

The contents of `units.h` and `unit_arrays.h` are not part of this model. Unit counts, name tables, sentinels and factor matrices are therefore parameters, constrained only by their shape: `Registry.Valid` and `Conversion.IsFactorTable`. The enumerant values used by name are assumed to be 0, 1, 2, … in this order:

- seconds, minutes, hours, days, years
- m, km, AU
- Kelvin, Celsius, Fahrenheit

Doubles are modelled as `real`. The constants are exact: 273.15, 1.8 and 32. Conversion failure is the sentinel `-1`, as in the source. `ConvertChecked` and `ConvertTempChecked` give the same conversions an `Option` result, because a valid conversion can itself return -1.

Three behaviours of the code as written are kept in the model and recorded under "## Findings":

- The bounds check at lines 134-136, which its comment says rejects out-of-bounds units, accepts the index `count`. The same holds for the checks at lines 152-154 and 170-172.
- `malloc(80)` leaves no room for the terminator of an 80-character listing, and the check at line 254 allows a listing of 80 characters.
- Fahrenheit → Celsius → Fahrenheit gives `temp - 32`, because line 217 omits `+ZEROC`.

## Model

| member | source | states |
|---|---|---|
| Parsers.ParseSmaUnit | src/util/general/units.c:18-42 | The loop over the two spellings of each length unit returns exactly the specified first match, or the length sentinel. |
| Parsers.ParsePerUnit | src/util/general/units.c:46-71 | The loop over the three spellings of each time unit returns exactly the specified first match, or the time sentinel. |
| Parsers.ParseMassUnit | src/util/general/units.c:75-101 | The loop over the three spellings of each mass unit returns exactly the specified first match, or the mass sentinel. |
| Parsers.ParseTempUnit | src/util/general/units.c:105-127 | The loop over the two spellings of each temperature unit returns exactly the specified first match, or the temperature sentinel. |
| Registry.ParseIsFirstMatch | src/util/general/units.c:25-37 | Parsing returns a valid unit iff some unit accepts the string. That unit accepts it and no lower unit does. Otherwise parsing returns the sentinel. |
| Registry.ParseAcceptsEveryVariant | src/util/general/units.c:53-67 | Every spelling of unit u parses to u or to a lower unit that accepts the same string. |
| Registry.ParseVariantRoundTrip | src/util/general/units.c:82-96 | Parsing any spelling of u gives u when no lower unit shares that spelling. |
| Registry.DisplayName | src/util/general/units.c:351-366 | A negative index shows the first unit's name. An index at or above the count shows the last unit's name. Any other index shows that unit's own name. |
| Registry.DisplayNameInRange | src/util/general/units.c:361-366 | The displayed name is always the display name of some valid unit, so no lookup goes out of range. |
| Registry.ParseDisplayRoundTrip | src/util/general/units.c:353-355 | Parsing the display name of a valid unit gives back that unit, unless a lower unit shares the name. |
| Conversion.ConvertAsWritten | src/util/general/units.c:131-181 | Whenever the guard rejects (an index below 0 or above N), the result is -1. Otherwise, with both indices below N, it is value × factor. If either index equals N, the guard passes but the read falls past the matrix. |
| Conversion.AsWrittenAcceptsIndexPastTable | src/util/general/units.c:134-141 | The as-written guard accepts index N as source or target, and the factor it reads lies outside the N×N matrix. |
| Conversion.Convert | src/util/general/units.c:149-163 | With the bound corrected, any index outside [0, N) gives -1. Otherwise the result is value × table[in][out]. |
| Conversion.ConvertAgreesWithAsWritten | src/util/general/units.c:152-158 | The corrected and as-written converters agree on every input except those that name index N. |
| Conversion.ConvertIdentity | src/util/general/units.c:176 | Converting a unit to itself is the identity when its diagonal factor is 1. |
| Conversion.ConvertRoundTrip | src/util/general/units.c:158 | Converting a→b→a returns the value when table[a][b]·table[b][a] = 1. |
| Conversion.ConvertComposes | src/util/general/units.c:140 | Converting a→b→c equals converting a→c when the factors compose, as factors derived from one base unit do. |
| Conversion.ConvertChecked | src/util/general/units.c:170-176 | The result is None exactly when an index is outside [0, N). Otherwise it is Some(value × factor). |
| Conversion.SentinelIsAmbiguous | src/util/general/units.c:135 | A valid identity conversion of -1 returns -1, which the sentinel cannot tell apart from failure. |
| Temperature.ConvertTemp | src/util/general/units.c:186-239 | Any unit outside {K, C, F} gives -1. A valid unit converted to itself returns the temperature unchanged. |
| Temperature.KelvinCelsiusRoundTrip | src/util/general/units.c:203-213 | C→K adds 273.15 and K→C subtracts it. Both round trips are exact. |
| Temperature.KelvinFahrenheitRoundTrip | src/util/general/units.c:205-225 | K→F→K and F→K→F are exact over the reals. |
| Temperature.FreezingPoint | src/util/general/units.c:191-205 | 0 °C = 273.15 K, 32 °F = 0 °C and 273.15 K = 32 °F. |
| Temperature.FahrenheitToCelsiusThroughKelvin | src/util/general/units.c:224-227 | F→C directly equals F→K followed by K→C. |
| Temperature.CelsiusToFahrenheitDisagrees | src/util/general/units.c:216-217 | The as-written C→F is 32 degrees below C→K→F. C→F→C gives temp − 160/9. F→C→F gives temp − 32. 0 °C does not become 32 °F. |
| Temperature.ConvertTempIntended | src/util/general/units.c:209-220 | The corrected converter gives -1 for units outside {K, C, F} and the identity for equal units. |
| Temperature.IntendedAgreesElsewhere | src/util/general/units.c:195-235 | The corrected converter differs from the code only in the C→F case. |
| Temperature.IntendedPreservesKelvin | src/util/general/units.c:191-193 | The corrected converter preserves the absolute temperature between any two valid units. |
| Temperature.IntendedRoundTrip | src/util/general/units.c:197-232 | Under the corrected converter, every a→b→a round trip over valid units is exact. |
| Temperature.IntendedComposes | src/util/general/units.c:198-231 | Under the corrected converter, a→b→c equals a→c for all valid units. |
| Temperature.ConvertTempChecked | src/util/general/units.c:206-234 | The result is None exactly for units outside {K, C, F}. Otherwise it is Some(the as-written result). |
| Temperature.SentinelIsAmbiguous | src/util/general/units.c:203 | Valid conversions (−1 °C to °C, and 272.15 K to °C) return −1. |
| Selectors.SelectTime | src/util/general/units.c:330-337 | The result is always one of seconds…years. Every threshold up to the chosen unit is at most p. p is below the next unit's threshold, which is per_table[u][seconds]. |
| Selectors.SelectTimeMonotone | src/util/general/units.c:332-336 | A longer duration never selects a finer unit, for any threshold values. |
| Selectors.SelectTimeBracket | src/util/general/units.c:333-335 | With ascending thresholds, p is below the threshold of every coarser unit, so the chosen unit is the coarsest one p holds at least once. |
| Selectors.SelectTimeExamples | src/util/general/units.c:332-336 | With 60/3600/86400/31557600-second thresholds: 30 s selects seconds, 5 h selects hours and 400 days selects years. |
| Selectors.SelectLength | src/util/general/units.c:341-346 | The result is always m, km or AU. It is m only below one km in metres and AU only from 5% of an AU upward. |
| Selectors.SelectLengthMonotone | src/util/general/units.c:343-345 | A longer length never selects a finer unit, for any threshold values. |
| Selectors.SelectLengthBracket | src/util/general/units.c:343-344 | With the km threshold below the AU threshold, the result is m iff s < 1 km and AU iff s ≥ 0.05 AU. |
| Listing.SupportedUnits | src/util/general/units.c:243-261 | The loop builds exactly the specified listing of the display names, using the as-written limit of 80−1. The other three listers (lines 265-326) run the same loop over their own tables. |
| Listing.ListingIsStoppedPrefix | src/util/general/units.c:250-257 | The listing joins a nonempty prefix of the display names, in index order. It ends at the first name after which text plus next name reaches the limit, or else at the last unit. |
| Listing.ListingLength | src/util/general/units.c:254 | The listing is at most the limit + 1 characters long, or no longer than the first name. |
| Listing.ListingHasNoTrailingSeparator | src/util/general/units.c:253-256 | When the names are nonempty and none ends in ", ", the listing never ends in ", ". |
| Listing.ListingCompleteWhenShort | src/util/general/units.c:272-279 | When all names joined fit within limit + 1 characters, every name is listed. |
| Listing.ListingCanFillBuffer | src/util/general/units.c:313-321 | A 76-character name followed by "bb" yields an 80-character listing, which leaves no room for the terminator. |
| Listing.ListingFitsBuffer | src/util/general/units.c:291-301 | With the limit corrected to 80 − 2, every listing whose first name fits is shorter than 80 characters. |
| Listing.ListingAsWrittenBound | src/util/general/units.c:294-301 | With the as-written limit, a listing whose first name fits has at most 80 characters. |

## Left out

- `src/math/orbits.c` (period, semimajor axis, mass, perihelion, aphelion) is not part of this model. It evaluates floating-point formulas with `pow`, `sqrt` and `fabs`.
- IEEE double rounding is not modelled: all values are exact reals, so the round trips hold exactly rather than within a tolerance.
- The factor values and spellings in `unit_arrays.h`, and the enumerant values in `units.h`, are not part of this model. They are parameters. Reciprocal or composing factors appear only as hypotheses of lemmas.
- The C listers `strcat` into a freshly `malloc`ed buffer that is never initialised. That is undefined behaviour in C. The model starts the listing from the empty string. Ownership of the buffer and a failed `malloc` are not modelled.
- The parsers leave `r` unassigned when the unit count is 0. The model requires at least one unit (`Registry.Valid`), and `r` starts at the sentinel.
- `strcmp` on NUL-terminated strings is modelled as equality of character sequences.
- Conversion.ConvertAsWritten does not model which value the out-of-range read returns. It reports only that the read falls outside the matrix.
- Selectors.SelectTimeMonotone and Selectors.SelectLengthMonotone state monotonicity in enumerant order. This is the ladder order only if the enumerants are declared in ladder order, as assumed above.

## Findings

| source | as written | input that shows it | evidently intended | confidence | as-written member | corrected member |
|---|---|---|---|---|---|---|
| src/util/general/units.c:134 | The guard `in > NUM_SMA_UNITS` (and the same guards at lines 136, 152, 154, 170 and 172) accepts the index equal to the unit count, then reads the factor matrix past its end. | `in == NUM_SMA_UNITS` | Reject every index `>= count`. | not executed; high | Conversion.AsWrittenAcceptsIndexPastTable | Conversion.Convert |
| src/util/general/units.c:217 | Celsius to Fahrenheit returns `temp*F_MULTI` without `+ZEROC`. | 0 °C gives 0 °F instead of 32 °F | `temp*F_MULTI+ZEROC` | not executed; high | Temperature.CelsiusToFahrenheitDisagrees | Temperature.IntendedRoundTrip |
| src/util/general/units.c:254 | The loop stops only when `strlen(r)+strlen(next) >= 79`, then appends ", " and the next name, so the text can reach 80 characters in an 80-byte buffer, with no room for the terminator (the same check is at lines 276, 298 and 320). | display names "u"×76 and "bb" | Leave room for the separator and the terminator (stop at 80 − 2). | not executed; high | Listing.ListingCanFillBuffer | Listing.ListingFitsBuffer |
