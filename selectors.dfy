/**
 Automatic unit selection for display: a threshold ladder whose thresholds are
 read from the conversion matrices (the size of one minute, hour, day or year
 in seconds; one kilometre and one twentieth of an astronomical unit in metres).
 Both selectors are total: every input selects some unit.
 */
module Selectors {
  import opened Conversion

  // Enumerants of the time and length unit types used by the selectors
  // (values assumed to follow the ladder order).
  const SECONDS: int := 0
  const MINUTES: int := 1
  const HOURS: int := 2
  const DAYS: int := 3
  const YEARS: int := 4

  const M: int := 0
  const KM: int := 1
  const AU: int := 2

  /** The fraction of an astronomical unit above which lengths are shown in AU. */
  const AU_FRACTION: real := 0.05

  /** One unit `u` of time, expressed in seconds. */
  function TimeThreshold(perTable: seq<seq<real>>, n: nat, u: int): real
    requires IsFactorTable(perTable, n) && YEARS < n && SECONDS <= u <= YEARS
  {
    perTable[u][SECONDS]
  }

  function SelectTime(perTable: seq<seq<real>>, n: nat, p: real): (u: int)
    requires IsFactorTable(perTable, n) && YEARS < n
    ensures SECONDS <= u <= YEARS
    ensures u < YEARS ==> p < TimeThreshold(perTable, n, u + 1)
    ensures forall v :: SECONDS < v <= u ==> TimeThreshold(perTable, n, v) <= p
  {
    if p < perTable[MINUTES][SECONDS] then SECONDS
    else if p < perTable[HOURS][SECONDS] then MINUTES
    else if p < perTable[DAYS][SECONDS] then HOURS
    else if p < perTable[YEARS][SECONDS] then DAYS
    else YEARS
  }

  /** A larger duration never selects a finer unit, whatever the thresholds. */
  lemma SelectTimeMonotone(perTable: seq<seq<real>>, n: nat, p: real, q: real)
    requires IsFactorTable(perTable, n) && YEARS < n && p <= q
    ensures SelectTime(perTable, n, p) <= SelectTime(perTable, n, q)
  {
  }

  /** With ascending thresholds the ladder selects the coarsest unit of which
      the duration holds at least one: p lies between one selected unit and
      one next-coarser unit. */
  lemma SelectTimeBracket(perTable: seq<seq<real>>, n: nat, p: real)
    requires IsFactorTable(perTable, n) && YEARS < n
    requires forall u :: MINUTES <= u < YEARS ==> TimeThreshold(perTable, n, u) <= TimeThreshold(perTable, n, u + 1)
    ensures var u := SelectTime(perTable, n, p);
      && (u > SECONDS ==> TimeThreshold(perTable, n, u) <= p)
      && (u < YEARS ==> p < TimeThreshold(perTable, n, u + 1))
      && forall v :: u < v <= YEARS ==> p < TimeThreshold(perTable, n, v)
  {
    var u := SelectTime(perTable, n, p);
    forall v | u < v <= YEARS
      ensures p < TimeThreshold(perTable, n, v)
    {
      var w := u + 1;
      while w < v
        invariant u + 1 <= w <= v
        invariant p < TimeThreshold(perTable, n, w)
      {
        w := w + 1;
      }
    }
  }

  /** The calendar of a conventional time table gives the expected choices. */
  lemma SelectTimeExamples(perTable: seq<seq<real>>, n: nat)
    requires IsFactorTable(perTable, n) && YEARS < n
    requires perTable[MINUTES][SECONDS] == 60.0 && perTable[HOURS][SECONDS] == 3600.0
    requires perTable[DAYS][SECONDS] == 86400.0 && perTable[YEARS][SECONDS] == 31557600.0
    ensures SelectTime(perTable, n, 30.0) == SECONDS
    ensures SelectTime(perTable, n, 3600.0 * 5.0) == HOURS
    ensures SelectTime(perTable, n, 3600.0 * 24.0 * 400.0) == YEARS
  {
  }

  /** One unit `u` of length, expressed in metres, as the ladder uses it. */
  function LengthThreshold(smaTable: seq<seq<real>>, n: nat, u: int): real
    requires IsFactorTable(smaTable, n) && AU < n && KM <= u <= AU
  {
    if u == KM then smaTable[KM][M] else smaTable[AU][M] * AU_FRACTION
  }

  function SelectLength(smaTable: seq<seq<real>>, n: nat, s: real): (u: int)
    requires IsFactorTable(smaTable, n) && AU < n
    ensures M <= u <= AU
    ensures u < AU ==> s < LengthThreshold(smaTable, n, u + 1)
    ensures forall v :: M < v <= u ==> LengthThreshold(smaTable, n, v) <= s
  {
    if s < smaTable[KM][M] then M
    else if s < smaTable[AU][M] * AU_FRACTION then KM
    else AU
  }

  /** A larger length never selects a finer unit, whatever the thresholds. */
  lemma SelectLengthMonotone(smaTable: seq<seq<real>>, n: nat, s: real, t: real)
    requires IsFactorTable(smaTable, n) && AU < n && s <= t
    ensures SelectLength(smaTable, n, s) <= SelectLength(smaTable, n, t)
  {
  }

  /** With the kilometre threshold below the AU threshold, metres are chosen
      exactly below one kilometre and AU exactly from 5% of an AU on. */
  lemma SelectLengthBracket(smaTable: seq<seq<real>>, n: nat, s: real)
    requires IsFactorTable(smaTable, n) && AU < n
    requires smaTable[KM][M] <= smaTable[AU][M] * AU_FRACTION
    ensures SelectLength(smaTable, n, s) == M <==> s < smaTable[KM][M]
    ensures SelectLength(smaTable, n, s) == AU <==> smaTable[AU][M] * AU_FRACTION <= s
  {
  }
}
