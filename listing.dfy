/**
 The listing of supported units: the display names of a kind's units, in
 index order, joined by ", ", cut short before a name that would bring the
 text past the buffer limit.
 */
module Listing {
  import opened Registry

  /** Size of the buffer the listing is written into, terminator included. */
  const BUFFER_SIZE: nat := 80

  /** The limit the code compares against: `strlen(r) + strlen(next) >= 80-1` stops. */
  const LIMIT_AS_WRITTEN: nat := BUFFER_SIZE - 1

  const SEPARATOR: string := ", "

  /** The display names: spelling 0 of each unit. */
  function Firsts(t: NameTable): (f: seq<string>)
    requires Valid(t)
    ensures |f| == t.count
    ensures forall i :: 0 <= i < t.count ==> f[i] == Variant(t, i, 0)
  {
    t.names[..t.count]
  }

  function Join(s: seq<string>): string
    requires |s| >= 1
  {
    if |s| == 1 then s[0] else Join(s[..|s| - 1]) + SEPARATOR + s[|s| - 1]
  }

  /** Whether the listing stops after name `i`: the text so far plus the next
      name reaches the limit. */
  predicate StopsAfter(f: seq<string>, limit: int, i: nat)
    requires i + 1 < |f|
  {
    |Join(f[..i + 1])| + |f[i + 1]| >= limit
  }

  /** How many names are listed, scanning from name `i` on. */
  function ListedFrom(f: seq<string>, limit: int, i: nat): nat
    requires i < |f|
    decreases |f| - i
  {
    if i == |f| - 1 || StopsAfter(f, limit, i) then i + 1
    else ListedFrom(f, limit, i + 1)
  }

  /** The listing the supported-units functions build. */
  function ListingOf(f: seq<string>, limit: int): string
    requires |f| >= 1
  {
    var j := ListedFrom(f, limit, 0);
    ListedFromBounds(f, limit, 0);
    Join(f[..j])
  }

  lemma {:induction false} ListedFromBounds(f: seq<string>, limit: int, i: nat)
    requires i < |f|
    ensures i + 1 <= ListedFrom(f, limit, i) <= |f|
    decreases |f| - i
  {
    if !(i == |f| - 1 || StopsAfter(f, limit, i)) {
      ListedFromBounds(f, limit, i + 1);
    }
  }

  /** `supported_*_units`: append each display name; before the separator,
      stop if the text and the next name together reach the limit. The buffer
      starts out empty. */
  method SupportedUnits(t: NameTable) returns (r: string)
    requires Valid(t)
    ensures r == ListingOf(Firsts(t), LIMIT_AS_WRITTEN)
  {
    var f := Firsts(t);
    r := "";
    var i := 0;
    while i < t.count
      invariant 0 <= i <= t.count
      invariant i == 0 ==> r == ""
      invariant 0 < i < t.count ==> r == Join(f[..i]) + SEPARATOR
      invariant 0 < i < t.count ==> ListedFrom(f, LIMIT_AS_WRITTEN, 0) == ListedFrom(f, LIMIT_AS_WRITTEN, i)
      invariant i == t.count ==> r == ListingOf(f, LIMIT_AS_WRITTEN)
    {
      assert f[..i + 1][..i] == f[..i];
      r := r + f[i];
      assert r == Join(f[..i + 1]);
      if i != t.count - 1 {
        if |r| + |f[i + 1]| >= LIMIT_AS_WRITTEN {
          assert StopsAfter(f, LIMIT_AS_WRITTEN, i);
          break;
        }
        r := r + SEPARATOR;
      }
      i := i + 1;
    }
  }

  /** Extending a list by one name extends the joined text by the separator and that name. */
  lemma JoinExtend(f: seq<string>, a: nat)
    requires 1 <= a < |f|
    ensures Join(f[..a + 1]) == Join(f[..a]) + SEPARATOR + f[a]
    ensures |Join(f[..a + 1])| == |Join(f[..a])| + |SEPARATOR| + |f[a]|
  {
    assert f[..a + 1][..a] == f[..a];
  }

  lemma {:induction false} JoinPrefixMonotone(f: seq<string>, a: nat, b: nat)
    requires 1 <= a <= b <= |f|
    ensures |Join(f[..a])| <= |Join(f[..b])|
    decreases b - a
  {
    if a < b {
      JoinExtend(f, a);
      JoinPrefixMonotone(f, a + 1, b);
    }
  }

  lemma {:induction false} ListedFromStopsFirst(f: seq<string>, limit: int, i: nat)
    requires i < |f|
    ensures var j := ListedFrom(f, limit, i);
      && i + 1 <= j <= |f|
      && (forall k :: i <= k < j - 1 ==> !StopsAfter(f, limit, k))
      && (j < |f| ==> StopsAfter(f, limit, j - 1))
    decreases |f| - i
  {
    if !(i == |f| - 1 || StopsAfter(f, limit, i)) {
      ListedFromStopsFirst(f, limit, i + 1);
    }
  }

  /** The listing is the names of some nonempty prefix, in index order; the
      prefix ends at the first name after which the limit is reached, or at the
      last unit. */
  lemma ListingIsStoppedPrefix(f: seq<string>, limit: int)
    requires |f| >= 1
    ensures exists j :: (1 <= j <= |f| && ListingOf(f, limit) == Join(f[..j])
      && (forall k :: 0 <= k < j - 1 ==> !StopsAfter(f, limit, k))
      && (j < |f| ==> StopsAfter(f, limit, j - 1)))
  {
    ListedFromStopsFirst(f, limit, 0);
  }

  /** Each separator is added only while text plus next name stays below the
      limit, so the listing is at most one longer than the limit, unless the
      first name alone is longer. */
  lemma ListingLength(f: seq<string>, limit: int)
    requires |f| >= 1
    ensures |ListingOf(f, limit)| <= |f[0]| || |ListingOf(f, limit)| <= limit + 1
  {
    var j := ListedFrom(f, limit, 0);
    ListedFromStopsFirst(f, limit, 0);
    if j > 1 {
      assert !StopsAfter(f, limit, j - 2);
      JoinExtend(f, j - 1);
    }
  }

  /** The text ends in the separator, as a listing with a trailing ", " would. */
  predicate EndsWithSeparator(s: string) {
    |s| >= 2 && s[|s| - 2..] == SEPARATOR
  }

  /** With nonempty names that do not themselves end in ", ", no listing does. */
  lemma ListingHasNoTrailingSeparator(f: seq<string>, limit: int)
    requires |f| >= 1
    requires forall i :: 0 <= i < |f| ==> f[i] != "" && !EndsWithSeparator(f[i])
    ensures !EndsWithSeparator(ListingOf(f, limit))
  {
    var j := ListedFrom(f, limit, 0);
    ListedFromBounds(f, limit, 0);
    var r := Join(f[..j]);
    if j > 1 {
      JoinExtend(f, j - 1);
      var x := f[j - 1];
      assert r == Join(f[..j - 1]) + SEPARATOR + x;
      if |x| >= 2 {
        assert r[|r| - 2..] == x[|x| - 2..];
      } else {
        assert r[|r| - 2] == ' ';
      }
    } else {
      assert r == f[0];
    }
  }

  /** When all names joined fit within one past the limit, nothing is cut. */
  lemma ListingCompleteWhenShort(f: seq<string>, limit: int)
    requires |f| >= 1 && |Join(f)| <= limit + 1
    ensures ListingOf(f, limit) == Join(f)
  {
    var j := ListedFrom(f, limit, 0);
    ListedFromStopsFirst(f, limit, 0);
    assert f[..|f|] == f;
    if j < |f| {
      JoinExtend(f, j);
      JoinPrefixMonotone(f, j + 1, |f|);
      assert false;
    }
    assert f[..j] == f;
  }

  /** As written, a listing can be exactly 80 characters long, which with its
      terminator does not fit the 80-byte buffer. */
  lemma ListingCanFillBuffer()
    ensures var f := [seq(76, _ => 'u'), "bb"];
      |ListingOf(f, LIMIT_AS_WRITTEN)| == BUFFER_SIZE
  {
    var f := [seq(76, _ => 'u'), "bb"];
    assert f[..1] == [f[0]];
    assert !StopsAfter(f, LIMIT_AS_WRITTEN, 0);
    assert ListedFrom(f, LIMIT_AS_WRITTEN, 0) == 2;
    JoinExtend(f, 1);
    assert f[..2] == f;
  }

  /** The limit that leaves room for the separator: stop when text, separator
      and next name together would fill the buffer. */
  const LIMIT_CORRECTED: nat := BUFFER_SIZE - |SEPARATOR|

  /** With the corrected limit every listing whose first name fits leaves room
      for the terminator. */
  lemma ListingFitsBuffer(f: seq<string>)
    requires |f| >= 1 && |f[0]| < BUFFER_SIZE
    ensures |ListingOf(f, LIMIT_CORRECTED)| < BUFFER_SIZE
  {
    ListingLength(f, LIMIT_CORRECTED);
  }

  /** As written, the bound is one character weaker: at most 80 characters. */
  lemma ListingAsWrittenBound(f: seq<string>)
    requires |f| >= 1 && |f[0]| <= BUFFER_SIZE
    ensures |ListingOf(f, LIMIT_AS_WRITTEN)| <= BUFFER_SIZE
  {
    ListingLength(f, LIMIT_AS_WRITTEN);
  }
}
