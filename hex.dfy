/**
 * Base-16 text form of the 64-bit trace and span ids:
 * `strconv.FormatUint(x, 16)` on write and `strconv.ParseUint(v, 16, 64)`
 * on read.
 */
module Hex {
  import opened Wrappers
  import opened Text

  const Two64: int := 0x1_0000_0000_0000_0000
  const MaxUint64: int := Two64 - 1

  /** Go's `uint64`. */
  type Uint64 = x: int | 0 <= x < 0x1_0000_0000_0000_0000

  /** The digits `FormatUint` writes: `0`-`9` and lower-case `a`-`f`. */
  predicate IsLowerHexDigit(c: char) {
    '0' <= c <= '9' || 'a' <= c <= 'f'
  }

  /** The digit `FormatUint` writes for `d`. */
  function HexDigit(d: nat): (c: char)
    requires d < 16
    ensures IsLowerHexDigit(c)
  {
    if d < 10 then ('0' as int + d) as char else ('a' as int + d - 10) as char
  }

  /** The value of a base-16 digit as `ParseUint` reads it: both cases are accepted. */
  function DigitValue(c: char): Option<nat> {
    if '0' <= c <= '9' then Some(c as int - '0' as int)
    else if 'a' <= c <= 'f' then Some(c as int - 'a' as int + 10)
    else if 'A' <= c <= 'F' then Some(c as int - 'A' as int + 10)
    else None
  }

  predicate IsHexString(s: string) {
    forall i :: 0 <= i < |s| ==> DigitValue(s[i]).Some?
  }

  /** The mathematical value of a string of base-16 digits. */
  function HexValue(s: string): nat
    requires IsHexString(s)
  {
    if s == [] then 0
    else HexValue(s[..|s| - 1]) * 16 + DigitValue(s[|s| - 1]).value
  }

  /** The form `FormatUint` writes: lower-case digits, no leading zero. */
  predicate IsCanonicalHex(s: string) {
    && s != []
    && (forall i :: 0 <= i < |s| ==> IsLowerHexDigit(s[i]))
    && (|s| > 1 ==> s[0] != '0')
  }

  /** `strconv.FormatUint(x, 16)`. */
  function FormatHex(x: nat): (r: string)
    ensures IsCanonicalHex(r)
    ensures IsHexString(r) && HexValue(r) == x
  {
    HexDigitFacts(x % 16);
    if x < 16 then [HexDigit(x)]
    else
      var p := FormatHex(x / 16);
      var r := p + [HexDigit(x % 16)];
      assert r[..|r| - 1] == p;
      assert r[0] == p[0];
      assert |p| == 1 ==> p[0] == HexDigit(x / 16) && x / 16 != 0;
      assert HexValue(r) == HexValue(p) * 16 + x % 16;
      r
  }

  lemma DivMod16(q: nat, d: nat)
    requires d < 16
    ensures (q * 16 + d) / 16 == q && (q * 16 + d) % 16 == d
  {
  }

  lemma HexDigitFacts(d: nat)
    requires d < 16
        ensures DigitValue(HexDigit(d)) == Some(d)
    ensures HexDigit(d) == '0' <==> d == 0
  {
  }

  const Cutoff: int := MaxUint64 / 16 + 1

  /** The digit loop of `ParseUint` from position `i` with `n` read so far; `None` for a syntax or range error. */
  function ParseDigitsFrom(s: string, i: nat, n: Uint64): Option<Uint64>
    requires i <= |s|
    decreases |s| - i
  {
    if i == |s| then Some(n)
    else match DigitValue(s[i])
      case None => None
      case Some(d) =>
        if n >= Cutoff then None
        else
          var n1 := n * 16 + d;
          if n1 > MaxUint64 then None else ParseDigitsFrom(s, i + 1, n1)
  }

  /**
   * `strconv.ParseUint(s, 16, 64)`: rejects the empty string, any character
   * that is not a base-16 digit and any value of 2^64 or more.
   */
  function ParseHex(s: string): (r: Option<Uint64>)
    ensures r.Some? <==> s != [] && IsHexString(s) && HexValue(s) < Two64
    ensures r.Some? ==> r.value == HexValue(s)
  {
    if s == [] then None
    else
      assert s[..0] == [];
      ParseDigitsCorrect(s, 0, 0);
      ParseDigitsFrom(s, 0, 0)
  }

  lemma {:induction false} HexValueMonotone(s: string, i: nat, j: nat)
    requires i <= j <= |s| && IsHexString(s)
    ensures IsHexString(s[..i]) && IsHexString(s[..j])
    ensures HexValue(s[..i]) <= HexValue(s[..j])
    decreases j - i
  {
    if i < j {
      HexValueMonotone(s, i, j - 1);
      assert s[..j][..j - 1] == s[..j - 1];
    }
  }

  /** The bounded digit loop computes the mathematical value, or fails exactly when it does not fit. */
  lemma {:induction false} ParseDigitsCorrect(s: string, i: nat, n: Uint64)
    requires i <= |s| && IsHexString(s[..i]) && n == HexValue(s[..i])
    ensures ParseDigitsFrom(s, i, n)
         == if IsHexString(s) && HexValue(s) < Two64 then Some(HexValue(s)) else None
    decreases |s| - i
  {
    if i == |s| {
      assert s[..i] == s;
    } else {
      match DigitValue(s[i])
      case None =>
        assert !IsHexString(s);
      case Some(d) =>
        assert s[..i + 1][..i] == s[..i];
        assert IsHexString(s[..i + 1]);
        assert HexValue(s[..i + 1]) == n * 16 + d;
        if n >= Cutoff {
          if IsHexString(s) {
            HexValueMonotone(s, i + 1, |s|);
            assert s[..|s|] == s;
          }
        } else {
          ParseDigitsCorrect(s, i + 1, n * 16 + d);
        }
    }
  }

  /** Reading back what `FormatUint` wrote gives the original id. */
  lemma ParseFormat(x: Uint64)
    ensures ParseHex(FormatHex(x)) == Some(x)
  {
  }

  lemma LowerDigitRoundTrip(c: char)
    requires IsLowerHexDigit(c)
    ensures DigitValue(c).Some? && DigitValue(c).value < 16 && HexDigit(DigitValue(c).value) == c
  {
  }

  lemma FormatHexStep(q: nat, d: nat)
    requires q >= 1 && d < 16
    ensures FormatHex(q * 16 + d) == FormatHex(q) + [HexDigit(d)]
  {
    DivMod16(q, d);
  }

  lemma HexValueSnoc(p: string, c: char)
    requires IsHexString(p) && DigitValue(c).Some?
    ensures IsHexString(p + [c]) && HexValue(p + [c]) == HexValue(p) * 16 + DigitValue(c).value
  {
    assert (p + [c])[..|p|] == p;
  }

  /** A canonical text id is exactly what `FormatUint` writes for its value. */
  lemma {:induction false} FormatParse(s: string)
    requires IsCanonicalHex(s)
    ensures IsHexString(s) && FormatHex(HexValue(s)) == s
    decreases |s|
  {
    var n := |s|;
    assert IsHexString(s) by {
      forall i | 0 <= i < n ensures DigitValue(s[i]).Some? { LowerDigitRoundTrip(s[i]); }
    }
    var c := s[n - 1];
    LowerDigitRoundTrip(c);
    var d := DigitValue(c).value;
    var p := s[..n - 1];
    assert s == p + [c];
    HexValueSnoc(p, c);
    if n == 1 {
      assert p == [];
    } else {
      assert IsCanonicalHex(p);
      FormatParse(p);
      HexValueMonotone(s, 1, n - 1);
      LowerDigitRoundTrip(s[0]);
      assert s[..1] == [] + [s[0]];
      HexValueSnoc([], s[0]);
      FormatHexStep(HexValue(p), d);
    }
  }

  /** Parsing does not depend on the case of the digits. */
  lemma {:induction false} ParseHexIgnoresCase(s: string)
    ensures ParseHex(Lower(s)) == ParseHex(s)
  {
    assert IsHexString(Lower(s)) <==> IsHexString(s) by {
      forall i | 0 <= i < |s| ensures DigitValue(Lower(s)[i]) == DigitValue(s[i]) {}
    }
    if IsHexString(s) {
      HexValueLower(s);
    }
  }

  lemma {:induction false} HexValueLower(s: string)
    requires IsHexString(s)
    ensures IsHexString(Lower(s)) && HexValue(Lower(s)) == HexValue(s)
    decreases |s|
  {
    assert forall i :: 0 <= i < |s| ==> DigitValue(Lower(s)[i]) == DigitValue(s[i]);
    if s != [] {
      HexValueLower(s[..|s| - 1]);
      assert Lower(s)[..|s| - 1] == Lower(s[..|s| - 1]);
    }
  }
}
