/** String helpers the cache debugger relies on: Java's String.compareTo
    (reduced to its sign) and the decimal rendering of a change count. */
module Text {

  /** Lexicographic comparison by character, a proper prefix sorting first.
      Only the sign is modelled: -1, 0 or 1. */
  function Compare(a: string, b: string): (r: int)
    ensures -1 <= r <= 1
    decreases |a|
  {
    if a == [] then (if b == [] then 0 else -1)
    else if b == [] then 1
    else if a[0] < b[0] then -1
    else if b[0] < a[0] then 1
    else Compare(a[1..], b[1..])
  }

  predicate Less(a: string, b: string) {
    Compare(a, b) < 0
  }

  lemma {:induction false} CompareZeroIffEqual(a: string, b: string)
    ensures Compare(a, b) == 0 <==> a == b
    decreases |a|
  {
    if a != [] && b != [] && a[0] == b[0] {
      CompareZeroIffEqual(a[1..], b[1..]);
      assert a == [a[0]] + a[1..] && b == [b[0]] + b[1..];
    }
  }

  lemma {:induction false} CompareAntisymmetric(a: string, b: string)
    ensures Compare(a, b) == -Compare(b, a)
    decreases |a|
  {
    if a != [] && b != [] && a[0] == b[0] {
      CompareAntisymmetric(a[1..], b[1..]);
    }
  }

  lemma {:induction false} LessTransitive(a: string, b: string, c: string)
    requires Less(a, b) && Less(b, c)
    ensures Less(a, c)
    decreases |a|
  {
    if a != [] && b != [] && c != [] && a[0] == b[0] && b[0] == c[0] {
      LessTransitive(a[1..], b[1..], c[1..]);
    }
  }

  /** Less is a strict total order: exactly one of a < b, a == b, b < a. */
  lemma Trichotomy(a: string, b: string)
    ensures Less(a, b) || a == b || Less(b, a)
    ensures !(Less(a, b) && Less(b, a))
    ensures !Less(a, a)
  {
    CompareZeroIffEqual(a, b);
    CompareAntisymmetric(a, b);
    CompareZeroIffEqual(a, a);
  }

  function DigitChar(d: nat): (c: char)
    requires d < 10
  {
    "0123456789"[d]
  }

  /** The decimal text of a count, as Java prints an int. */
  function NatToString(n: nat): (s: string)
    ensures |s| > 0
    ensures forall i :: 0 <= i < |s| ==> '0' <= s[i] <= '9'
    ensures |s| > 1 ==> s[0] != '0'
  {
    if n < 10 then [DigitChar(n)] else NatToString(n / 10) + [DigitChar(n % 10)]
  }

  /** The value a string of decimal digits denotes. */
  function DigitsValue(s: string): nat
    requires forall i :: 0 <= i < |s| ==> '0' <= s[i] <= '9'
  {
    if s == [] then 0 else 10 * DigitsValue(s[..|s| - 1]) + (s[|s| - 1] as int - '0' as int)
  }

  /** Reading the decimal text back gives the count: the rendering loses nothing. */
  lemma {:induction false} NatToStringRoundTrip(n: nat)
    ensures DigitsValue(NatToString(n)) == n
  {
    if n >= 10 {
      NatToStringRoundTrip(n / 10);
      var s := NatToString(n);
      assert s[..|s| - 1] == NatToString(n / 10);
    }
  }

  /** Two different digit strings, each followed by a space, never give the
      same text: the space cannot stand where a digit stands. */
  lemma DigitsThenSpaceDiffer(d1: string, d2: string, r1: string, r2: string)
    requires forall i :: 0 <= i < |d1| ==> '0' <= d1[i] <= '9'
    requires forall i :: 0 <= i < |d2| ==> '0' <= d2[i] <= '9'
    requires |r1| > 0 && r1[0] == ' ' && |r2| > 0 && r2[0] == ' '
    requires d1 != d2
    ensures d1 + r1 != d2 + r2
  {
    var t1, t2 := d1 + r1, d2 + r2;
    if |d1| < |d2| {
      assert t1[|d1|] == ' ' && t2[|d1|] == d2[|d1|];
    } else if |d2| < |d1| {
      assert t2[|d2|] == ' ' && t1[|d2|] == d1[|d2|];
    } else {
      var i :| 0 <= i < |d1| && d1[i] != d2[i];
      assert t1[i] == d1[i] && t2[i] == d2[i];
    }
  }

  /** A common prefix does not make different texts equal. */
  lemma PrefixedDiffer(prefix: string, x: string, y: string)
    requires x != y
    ensures prefix + x != prefix + y
  {
    assert (prefix + x)[|prefix|..] == x;
    assert (prefix + y)[|prefix|..] == y;
  }
}
