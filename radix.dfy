/**
 * The textual form of a non-negative integer in a given radix, as
 * Number.prototype.toString(radix) produces it (ECMA-262, section 21.1.3.6,
 * with the digit alphabet "0123456789abcdefghijklmnopqrstuvwxyz"), and its
 * inverse. The identifier generator uses radix 36; String(n) and template
 * literals use radix 10.
 */
module Radix {

  predicate ValidRadix(radix: nat) { radix == 10 || radix == 36 }

  function Pow(b: nat, e: nat): nat {
    if e == 0 then 1 else b * Pow(b, e - 1)
  }

  /** A lower-case ASCII letter or decimal digit. */
  predicate IsLowerAlnum(c: char) {
    ('0' <= c <= '9') || ('a' <= c <= 'z')
  }

  /** The digit for the value `d`: '0'..'9' then 'a'..'z'. */
  function DigitChar(d: nat): (c: char)
    requires d < 36
    ensures IsLowerAlnum(c)
  {
    if d < 10 then (48 + d) as char else (87 + d) as char
  }

  /** The value of a digit character. */
  function DigitValue(c: char): (d: nat)
    requires IsLowerAlnum(c)
    ensures d < 36 && DigitChar(d) == c
  {
    if c <= '9' then c as int - 48 else c as int - 87
  }

  predicate IsDigitOf(c: char, radix: nat) {
    IsLowerAlnum(c) && DigitValue(c) < radix
  }

  predicate AllDigits(s: string, radix: nat) {
    forall i :: 0 <= i < |s| ==> IsDigitOf(s[i], radix)
  }

  /**
   * The canonical form: at least one digit, all of the radix, and no
   * leading zero unless the whole text is "0".
   */
  predicate Canonical(s: string, radix: nat) {
    |s| >= 1 && AllDigits(s, radix) && (s[0] == '0' ==> |s| == 1)
  }

  /** Number::toString(n, radix) for an integral n >= 0. */
  function ToRadixString(n: nat, radix: nat): (s: string)
    requires ValidRadix(radix)
    ensures Canonical(s, radix)
    ensures n == 0 <==> s == "0"
    decreases n
  {
    if n < radix then [DigitChar(n)]
    else ToRadixString(n / radix, radix) + [DigitChar(n % radix)]
  }

  /** The integer that a string of digits denotes, most significant first. */
  function Value(s: string, radix: nat): nat
    requires ValidRadix(radix) && AllDigits(s, radix)
  {
    if s == [] then 0
    else Value(s[..|s| - 1], radix) * radix + DigitValue(s[|s| - 1])
  }

  lemma DivModOf(q: nat, d: nat, radix: nat)
    requires ValidRadix(radix) && d < radix
    ensures (q * radix + d) / radix == q && (q * radix + d) % radix == d
  {
  }

  /** Decoding the text of `n` gives `n` back. */
  lemma {:induction false} ValueOfToRadixString(n: nat, radix: nat)
    requires ValidRadix(radix)
    ensures Value(ToRadixString(n, radix), radix) == n
    decreases n
  {
    var s := ToRadixString(n, radix);
    if n < radix {
      assert s[..0] == [];
    } else {
      var q, d := n / radix, n % radix;
      var p := ToRadixString(q, radix);
      assert s == p + [DigitChar(d)];
      assert s[..|s| - 1] == p;
      ValueOfToRadixString(q, radix);
      assert Value(s, radix) == q * radix + d;
    }
  }

  /** A canonical text with a non-zero leading digit denotes a positive value. */
  lemma {:induction false} ValuePositive(s: string, radix: nat)
    requires ValidRadix(radix) && AllDigits(s, radix)
    requires |s| >= 1 && s[0] != '0'
    ensures Value(s, radix) >= 1
    decreases |s|
  {
    if |s| > 1 {
      var p := s[..|s| - 1];
      assert p[0] == s[0];
      ValuePositive(p, radix);
    } else {
      assert s[..0] == [];
    }
  }

  /** Encoding the value of a canonical text gives the same text back. */
  lemma {:induction false} ToRadixStringOfValue(s: string, radix: nat)
    requires ValidRadix(radix) && Canonical(s, radix)
    ensures ToRadixString(Value(s, radix), radix) == s
    decreases |s|
  {
    var last := s[|s| - 1];
    if |s| == 1 {
      assert s[..0] == [];
      assert s == [last];
    } else {
      var p := s[..|s| - 1];
      assert p[0] == s[0];
      ValuePositive(p, radix);
      ToRadixStringOfValue(p, radix);
      var q := Value(p, radix);
      DivModOf(q, DigitValue(last), radix);
      assert s == p + [last];
    }
  }

  /** Bounds on `n` carry over to `n / radix`. */
  lemma DivBounds(n: nat, radix: nat, lo: nat, hi: nat)
    requires ValidRadix(radix)
    requires lo * radix <= n < hi * radix
    ensures lo <= n / radix < hi
  {
  }

  /** The text of `n` has exactly `k` digits when radix^(k-1) <= n < radix^k. */
  lemma {:induction false} ToRadixStringLength(n: nat, radix: nat, k: nat)
    requires ValidRadix(radix) && k >= 1
    requires n < Pow(radix, k)
    requires k == 1 || Pow(radix, k - 1) <= n
    ensures |ToRadixString(n, radix)| == k
    decreases k
  {
    if k > 1 {
      var lo := if k == 2 then 0 else Pow(radix, k - 2);
      PowAtLeastBase(radix, k - 1);
      assert lo * radix <= Pow(radix, k - 1);
      DivBounds(n, radix, lo, Pow(radix, k - 1));
      ToRadixStringLength(n / radix, radix, k - 1);
    }
  }

  lemma {:induction false} PowAtLeastBase(b: nat, e: nat)
    requires b >= 1 && e >= 1
    ensures Pow(b, e) >= b
    decreases e
  {
    if e > 1 {
      PowAtLeastBase(b, e - 1);
    }
  }
}
