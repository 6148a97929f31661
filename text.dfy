/**
 * The parts of java.lang.String and of Java's string concatenation that the
 * entities and the pet search rely on: `String.compareTo` (the natural order
 * used by `Comparator.comparing(Pet::getName)`) and the decimal text that
 * `"" + n` produces for an `int` or a `Long`.
 */
module Text {
  import opened Wrappers

  /** Java's `int` and `long`: the fields keep their declared widths. */
  newtype int32 = x: int | -0x8000_0000 <= x < 0x8000_0000
  newtype int64 = x: int | -0x8000_0000_0000_0000 <= x < 0x8000_0000_0000_0000

  /**
   * `a.compareTo(b)`: the difference of the first pair of characters that
   * differ, or the difference of the lengths when one string is a prefix of
   * the other.
   */
  function CompareTo(a: string, b: string): int
  {
    if a == [] || b == [] then |a| - |b|
    else if a[0] != b[0] then a[0] as int - b[0] as int
    else CompareTo(a[1..], b[1..])
  }

  /** Swapping the operands negates the result (the Comparable contract's sign rule). */
  lemma {:induction false} CompareToFlip(a: string, b: string)
    ensures CompareTo(a, b) == -CompareTo(b, a)
  {
    if a != [] && b != [] && a[0] == b[0] {
      CompareToFlip(a[1..], b[1..]);
    }
  }

  /** The order is consistent with equals: only equal strings compare as 0. */
  lemma {:induction false} CompareToZero(a: string, b: string)
    ensures CompareTo(a, b) == 0 <==> a == b
  {
    if a != [] && b != [] && a[0] == b[0] {
      CompareToZero(a[1..], b[1..]);
      assert a == [a[0]] + a[1..] && b == [b[0]] + b[1..];
    }
  }

  /** "Compares at most" is transitive, so sorting by name is well defined. */
  lemma {:induction false} CompareToTransitive(a: string, b: string, c: string)
    requires CompareTo(a, b) <= 0 && CompareTo(b, c) <= 0
    ensures CompareTo(a, c) <= 0
  {
    if a != [] && b != [] && c != [] && a[0] == b[0] && b[0] == c[0] {
      CompareToTransitive(a[1..], b[1..], c[1..]);
    }
  }

  predicate IsDigits(s: string)
  {
    forall i :: 0 <= i < |s| ==> '0' <= s[i] <= '9'
  }

  function DigitChar(d: nat): (c: char)
    requires d < 10
    ensures '0' <= c <= '9' && c as int - '0' as int == d
  {
    ('0' as int + d) as char
  }

  /** The value of a string of decimal digits, most significant first. */
  function DigitsValue(s: string): nat
    requires IsDigits(s)
  {
    if s == [] then 0
    else 10 * DigitsValue(s[..|s| - 1]) + (s[|s| - 1] as int - '0' as int)
  }

  /**
   * The decimal text of a natural number: at least one digit, and no leading
   * zero except in "0" itself.
   */
  function NatText(n: nat): (s: string)
    ensures |s| >= 1 && IsDigits(s)
    ensures s[0] == '0' ==> n == 0 && s == "0"
    decreases n
  {
    if n < 10 then [DigitChar(n)] else NatText(n / 10) + [DigitChar(n % 10)]
  }

  lemma {:induction false} NatTextValue(n: nat)
    ensures DigitsValue(NatText(n)) == n
    decreases n
  {
    if n >= 10 {
      NatTextValue(n / 10);
      var s := NatText(n);
      assert s[..|s| - 1] == NatText(n / 10);
    }
  }

  /** `Integer.toString(i)` / `Long.toString(i)`: a minus sign before the digits of a negative value. */
  function IntText(i: int): (s: string)
    ensures forall k :: 0 <= k < |s| ==> s[k] == '-' || '0' <= s[k] <= '9'
  {
    if i < 0 then "-" + NatText(-i) else NatText(i)
  }

  /** Reads back a text produced by IntText; anything else is not a decimal integer. */
  function ParseInt(s: string): Option<int>
  {
    if |s| >= 2 && s[0] == '-' && IsDigits(s[1..]) then Some(-(DigitsValue(s[1..]) as int))
    else if |s| >= 1 && IsDigits(s) then Some(DigitsValue(s) as int)
    else None
  }

  /** Decimal rendering loses nothing: the text reads back as the same number. */
  lemma IntTextRoundTrip(i: int)
    ensures ParseInt(IntText(i)) == Some(i)
  {
    var s := IntText(i);
    if i < 0 {
      NatTextValue(-i);
      assert s[1..] == NatText(-i);
    } else {
      NatTextValue(i);
      assert !IsDigits(s[1..]) || s[0] != '-';
    }
  }

  /**
   * `"" + id` for a `Long` field: "null" while the id is unassigned, its
   * decimal text once assigned; the two cases can never be confused.
   */
  function LongText(id: Option<int64>): (s: string)
    ensures id.None? <==> s == "null"
    ensures id.Some? ==> ParseInt(s) == Some(id.value as int)
    ensures ',' !in s
  {
    match id
    case None => "null"
    case Some(v) =>
      IntTextRoundTrip(v as int);
      var s := IntText(v as int);
      assert s[0] == '-' || '0' <= s[0] <= '9';
      s
  }

  /** The text before the first `c`, or all of `s` when `c` does not occur. */
  function UpTo(s: string, c: char): (r: string)
    ensures c !in r
    ensures r <= s
  {
    if s == [] || s[0] == c then [] else [s[0]] + UpTo(s[1..], c)
  }

  /** A field that cannot contain its separator is read back whole. */
  lemma {:induction false} UpToSeparator(a: string, c: char, b: string)
    requires c !in a
    ensures UpTo(a + [c] + b, c) == a
  {
    if a != [] {
      assert (a + [c] + b)[1..] == a[1..] + [c] + b;
      UpToSeparator(a[1..], c, b);
    }
  }

  /** The text after the last `c`, or all of `s` when `c` does not occur. */
  function AfterLast(s: string, c: char): (r: string)
    ensures c !in r
    ensures |r| <= |s| && r == s[|s| - |r|..]
  {
    if s == [] || s[|s| - 1] == c then [] else AfterLast(s[..|s| - 1], c) + [s[|s| - 1]]
  }

  /** A last field that cannot contain its separator is read back whole. */
  lemma {:induction false} AfterLastSeparator(a: string, c: char, b: string)
    requires c !in b
    ensures AfterLast(a + [c] + b, c) == b
  {
    if b != [] {
      var s := a + [c] + b;
      assert s[..|s| - 1] == a + [c] + b[..|b| - 1];
      AfterLastSeparator(a, c, b[..|b| - 1]);
    } else {
      assert (a + [c] + b)[|a|] == c;
    }
  }
}
