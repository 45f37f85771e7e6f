/** String order and number formatting as the application's runtime provides them:
    IndexedDB orders string keys character by character, and ids and error messages
    are built with `Number.prototype.toString(radix)`. */
module Strings {

  /** `a` sorts at or before `b`: character by character, a proper prefix first. */
  predicate LexLe(a: string, b: string)
  {
    |a| == 0 || (|b| > 0 && (a[0] < b[0] || (a[0] == b[0] && LexLe(a[1..], b[1..]))))
  }

  /** `a` sorts strictly before `b`. */
  predicate LexLt(a: string, b: string)
  {
    LexLe(a, b) && a != b
  }

  lemma {:induction false} LexReflexive(a: string)
    ensures LexLe(a, a)
  {
    if |a| > 0 {
      LexReflexive(a[1..]);
    }
  }

  lemma {:induction false} LexTotal(a: string, b: string)
    ensures LexLe(a, b) || LexLe(b, a)
  {
    if |a| > 0 && |b| > 0 && a[0] == b[0] {
      LexTotal(a[1..], b[1..]);
    }
  }

  lemma {:induction false} LexAntisymmetric(a: string, b: string)
    requires LexLe(a, b) && LexLe(b, a)
    ensures a == b
  {
    if |a| > 0 && |b| > 0 {
      LexAntisymmetric(a[1..], b[1..]);
      assert a == [a[0]] + a[1..] && b == [b[0]] + b[1..];
    }
  }

  lemma {:induction false} LexTransitive(a: string, b: string, c: string)
    requires LexLe(a, b) && LexLe(b, c)
    ensures LexLe(a, c)
  {
    if |a| > 0 && |b| > 0 && |c| > 0 && a[0] == b[0] && b[0] == c[0] {
      LexTransitive(a[1..], b[1..], c[1..]);
    }
  }

  /** The digit for `d` in bases up to 36: `0`-`9`, then `a`-`z`. */
  function Digit(d: nat): (c: char)
    requires d < 36
  {
    if d < 10 then (48 + d) as char else (87 + d) as char
  }

  /** The value of a digit character; the inverse of `Digit`. */
  function DigitValue(c: char): nat
  {
    if '0' <= c <= '9' then c as int - 48
    else if 'a' <= c <= 'z' then c as int - 87
    else 0
  }

  lemma DivisionStep(n: nat, base: nat)
    requires 2 <= base <= n
    ensures n % base < base && (n / base) * base + n % base == n
    ensures 1 <= n / base < n
  {
  }

  /** `n.toString(base)`: the digits of `n`, most significant first, without leading zeros. */
  function Radix(n: nat, base: nat): (s: string)
    requires 2 <= base <= 36
    ensures |s| >= 1
    ensures forall i :: 0 <= i < |s| ==> ('0' <= s[i] <= '9' || 'a' <= s[i] <= 'z') && DigitValue(s[i]) < base
    ensures |s| > 1 ==> s[0] != '0'
    decreases n
  {
    if n < base then [Digit(n)]
    else
      DivisionStep(n, base);
      Radix(n / base, base) + [Digit(n % base)]
  }

  /** The number a digit string denotes in the given base. */
  function ParseRadix(s: string, base: nat): nat
  {
    if s == [] then 0 else ParseRadix(s[..|s| - 1], base) * base + DigitValue(s[|s| - 1])
  }

  /** Formatting a number and reading it back gives the number: ids built from the
      clock and error texts built from a status are faithful to their numbers. */
  lemma {:induction false} ParseRadixInverts(n: nat, base: nat)
    requires 2 <= base <= 36
    ensures ParseRadix(Radix(n, base), base) == n
    decreases n
  {
    var s := Radix(n, base);
    if n < base {
      assert s[..0] == [];
      DigitRoundTrip(n);
    } else {
      var q, r := n / base, n % base;
      DivisionStep(n, base);
      ParseRadixInverts(q, base);
      assert s == Radix(q, base) + [Digit(r)];
      assert s[..|s| - 1] == Radix(q, base);
      DigitRoundTrip(r);
    }
  }

  lemma DigitRoundTrip(d: nat)
    requires d < 36
    ensures DigitValue(Digit(d)) == d
  {
  }

  /** `n.toString()`: the decimal text of `n`. */
  function Decimal(n: nat): string
  {
    Radix(n, 10)
  }
}
