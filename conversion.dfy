/**
 Table-driven conversion of lengths, times and masses. Each kind has a square
 factor matrix `table[from][to]`; converting multiplies by one entry. The three
 C converters (convert_length, convert_time, convert_mass) are the same code
 over the length, time and mass matrices, so they are modelled once.

 Failure is signalled by returning -1, as in the source; `ConvertChecked` is
 the same conversion with an explicit optional result.
 */
module Conversion {
  import opened Wrappers

  /** The value every converter returns for a rejected unit, here and in temperature conversion. */
  const SENTINEL: real := -1.0

  /** An `n`-by-`n` factor matrix. */
  predicate IsFactorTable(table: seq<seq<real>>, n: nat) {
    n >= 1 && |table| == n && forall i :: 0 <= i < n ==> |table[i]| == n
  }

  /** The bounds check as written: `src < 0 || src > n` rejects, so `n` itself passes. */
  predicate GuardAsWritten(n: nat, src: int, dst: int) {
    !(src < 0 || src > n) && !(dst < 0 || dst > n)
  }

  /** What the C code does: return a value, or read a factor that lies past the matrix. */
  datatype Outcome = Returned(value: real) | PastTable

  /** The converters as written, including the index that passes the guard
      but has no row or column in the matrix. */
  function ConvertAsWritten(table: seq<seq<real>>, n: nat, x: real, src: int, dst: int): (r: Outcome)
    requires IsFactorTable(table, n)
    ensures !GuardAsWritten(n, src, dst) ==> r == Returned(SENTINEL)
    ensures r.PastTable? <==> GuardAsWritten(n, src, dst) && (src == n || dst == n)
    ensures 0 <= src < n && 0 <= dst < n ==> r == Returned(x * table[src][dst])
  {
    if src < 0 || src > n then Returned(SENTINEL)
    else if dst < 0 || dst > n then Returned(SENTINEL)
    else if src == n || dst == n then PastTable
    else Returned(x * table[src][dst])
  }

  /** The guard as written accepts the one-past-the-end index, whose factor
      does not exist. */
  lemma AsWrittenAcceptsIndexPastTable(table: seq<seq<real>>, n: nat, x: real, u: int)
    requires IsFactorTable(table, n) && 0 <= u <= n
    ensures GuardAsWritten(n, n, u) && GuardAsWritten(n, u, n)
    ensures ConvertAsWritten(table, n, x, n, u) == PastTable
    ensures ConvertAsWritten(table, n, x, u, n) == PastTable
  {
  }

  /** A unit index that has a row and a column in an `n`-unit matrix. */
  predicate InRange(n: nat, u: int) {
    0 <= u < n
  }

  /** The converters with the bound corrected to `0 <= unit < n`. */
  function Convert(table: seq<seq<real>>, n: nat, x: real, src: int, dst: int): (r: real)
    requires IsFactorTable(table, n)
    ensures !(InRange(n, src) && InRange(n, dst)) ==> r == SENTINEL
    ensures InRange(n, src) && InRange(n, dst) ==> r == x * table[src][dst]
  {
    if src < 0 || src >= n then SENTINEL
    else if dst < 0 || dst >= n then SENTINEL
    else x * table[src][dst]
  }

  /** The corrected converter agrees with the code as written on every input
      except those naming the index `n`. */
  lemma ConvertAgreesWithAsWritten(table: seq<seq<real>>, n: nat, x: real, src: int, dst: int)
    requires IsFactorTable(table, n) && src != n && dst != n
    ensures ConvertAsWritten(table, n, x, src, dst) == Returned(Convert(table, n, x, src, dst))
  {
  }

  /** Converting a unit to itself is the identity when the diagonal factor is 1. */
  lemma ConvertIdentity(table: seq<seq<real>>, n: nat, x: real, u: int)
    requires IsFactorTable(table, n) && InRange(n, u) && table[u][u] == 1.0
    ensures Convert(table, n, x, u, u) == x
  {
  }

  /** Converting there and back is the identity when the two factors are reciprocal. */
  lemma ConvertRoundTrip(table: seq<seq<real>>, n: nat, x: real, a: int, b: int)
    requires IsFactorTable(table, n) && InRange(n, a) && InRange(n, b)
    requires table[a][b] * table[b][a] == 1.0
    ensures Convert(table, n, Convert(table, n, x, a, b), b, a) == x
  {
  }

  /** Converting through an intermediate unit equals converting directly when
      the factors compose (as they do when all derive from one base unit). */
  lemma ConvertComposes(table: seq<seq<real>>, n: nat, x: real, a: int, b: int, c: int)
    requires IsFactorTable(table, n) && InRange(n, a) && InRange(n, b) && InRange(n, c)
    requires table[a][c] == table[a][b] * table[b][c]
    ensures Convert(table, n, Convert(table, n, x, a, b), b, c) == Convert(table, n, x, a, c)
  {
  }

  /** The conversion with failure made explicit instead of signalled by -1. */
  function ConvertChecked(table: seq<seq<real>>, n: nat, x: real, src: int, dst: int): (r: Option<real>)
    requires IsFactorTable(table, n)
    ensures r.None? <==> !(InRange(n, src) && InRange(n, dst))
    ensures r.Some? ==> r.value == x * table[src][dst]
  {
    if InRange(n, src) && InRange(n, dst) then Some(Convert(table, n, x, src, dst)) else None
  }

  /** The sentinel is ambiguous: a valid conversion can itself return -1. */
  lemma SentinelIsAmbiguous(table: seq<seq<real>>, n: nat, u: int)
    requires IsFactorTable(table, n) && InRange(n, u) && table[u][u] == 1.0
    ensures Convert(table, n, SENTINEL, u, u) == SENTINEL
    ensures ConvertChecked(table, n, SENTINEL, u, u) == Some(SENTINEL)
  {
  }
}
