/**
 Unit registries: for one quantity kind (length, time, mass or temperature),
 the accepted spellings of each unit and the "no match" sentinel, together with
 the specification of name lookup (parsing) and of the clamped display lookup.

 The spellings are stored variant-major, exactly as the C name arrays are:
 `names[i + k*count]` is spelling `k` of unit `i`, so the first `count` entries
 are the units' display names, in unit-index order.
 */
module Registry {

  datatype NameTable = NameTable(count: nat, variants: nat, names: seq<string>, noUnit: int)

  /** The shape every static name table has: at least one unit, `variants`
      spellings per unit, and a sentinel outside the range of valid units. */
  predicate Valid(t: NameTable) {
    && t.count >= 1
    && t.variants >= 1
    && |t.names| == t.count * t.variants
    && (t.noUnit < 0 || t.noUnit >= t.count)
  }

  lemma VariantIndexInRange(t: NameTable, i: int, k: int)
    requires Valid(t) && 0 <= i < t.count && 0 <= k < t.variants
    ensures 0 <= i + k * t.count < |t.names|
  {
    assert k * t.count <= (t.variants - 1) * t.count;
  }

  /** Spelling `k` of unit `i`. */
  function Variant(t: NameTable, i: int, k: int): string
    requires Valid(t) && 0 <= i < t.count && 0 <= k < t.variants
  {
    VariantIndexInRange(t, i, k);
    t.names[i + k * t.count]
  }

  /** Unit `i` accepts `arg` when some spelling of it equals `arg` exactly. */
  predicate Accepts(t: NameTable, i: int, arg: string)
    requires Valid(t) && 0 <= i < t.count
  {
    exists k | 0 <= k < t.variants :: Variant(t, i, k) == arg
  }

  /** The first unit at index `i` or above that accepts `arg`, or the sentinel. */
  function ParseFrom(t: NameTable, arg: string, i: nat): int
    requires Valid(t) && i <= t.count
    decreases t.count - i
  {
    if i == t.count then t.noUnit
    else if Accepts(t, i, arg) then i
    else ParseFrom(t, arg, i + 1)
  }

  /** Specification of the parsers: scan the units in ascending index order. */
  function Parse(t: NameTable, arg: string): int
    requires Valid(t)
  {
    ParseFrom(t, arg, 0)
  }

  lemma {:induction false} ParseFromFirstMatch(t: NameTable, arg: string, i: nat)
    requires Valid(t) && i <= t.count
    ensures var r := ParseFrom(t, arg, i);
      || (r == t.noUnit && forall j :: i <= j < t.count ==> !Accepts(t, j, arg))
      || (i <= r < t.count && Accepts(t, r, arg) && forall j :: i <= j < r ==> !Accepts(t, j, arg))
    decreases t.count - i
  {
    if i < t.count && !Accepts(t, i, arg) {
      ParseFromFirstMatch(t, arg, i + 1);
    }
  }

  /** Parsing yields the smallest unit that accepts the argument, and the
      sentinel exactly when no unit accepts it. */
  lemma ParseIsFirstMatch(t: NameTable, arg: string)
    requires Valid(t)
    ensures var r := Parse(t, arg);
      && ((0 <= r < t.count) <==> exists u :: 0 <= u < t.count && Accepts(t, u, arg))
      && (0 <= r < t.count ==> Accepts(t, r, arg) && forall j :: 0 <= j < r ==> !Accepts(t, j, arg))
      && (!(0 <= r < t.count) ==> r == t.noUnit)
  {
    ParseFromFirstMatch(t, arg, 0);
  }

  /** Every spelling of unit `u` parses to `u` or to a lower unit that shares it. */
  lemma ParseAcceptsEveryVariant(t: NameTable, u: int, k: int)
    requires Valid(t) && 0 <= u < t.count && 0 <= k < t.variants
    ensures var r := Parse(t, Variant(t, u, k));
      0 <= r <= u && Accepts(t, r, Variant(t, u, k))
  {
    var arg := Variant(t, u, k);
    assert Accepts(t, u, arg);
    ParseIsFirstMatch(t, arg);
  }

  /** Parsing any spelling of `u` gives back `u` when no lower unit shares it. */
  lemma ParseVariantRoundTrip(t: NameTable, u: int, k: int)
    requires Valid(t) && 0 <= u < t.count && 0 <= k < t.variants
    requires forall j :: 0 <= j < u ==> !Accepts(t, j, Variant(t, u, k))
    ensures Parse(t, Variant(t, u, k)) == u
  {
    ParseAcceptsEveryVariant(t, u, k);
  }

  /** Display lookup that never fails: an index below the range shows the
      first unit's name, one at or above `count` the last unit's name. */
  function DisplayName(t: NameTable, p: int): (s: string)
    requires Valid(t)
    ensures p < 0 ==> s == Variant(t, 0, 0)
    ensures p >= t.count ==> s == Variant(t, t.count - 1, 0)
    ensures 0 <= p < t.count ==> s == Variant(t, p, 0)
  {
    if p < 0 then t.names[0]
    else if p >= t.count then t.names[t.count - 1]
    else t.names[p]
  }

  /** The displayed name is always one of the units' display names. */
  lemma DisplayNameInRange(t: NameTable, p: int)
    requires Valid(t)
    ensures exists u :: 0 <= u < t.count && DisplayName(t, p) == Variant(t, u, 0)
  {
    var u := if p < 0 then 0 else if p >= t.count then t.count - 1 else p;
    assert DisplayName(t, p) == Variant(t, u, 0);
  }

  /** Display then parse is the identity on valid units with unambiguous names. */
  lemma ParseDisplayRoundTrip(t: NameTable, u: int)
    requires Valid(t) && 0 <= u < t.count
    requires forall j :: 0 <= j < u ==> !Accepts(t, j, Variant(t, u, 0))
    ensures Parse(t, DisplayName(t, u)) == u
  {
    ParseVariantRoundTrip(t, u, 0);
  }
}
