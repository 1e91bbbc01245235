/**
 The short `_rsc` parameter: a 32-bit polynomial hash computed with JavaScript's int32
 operators, in base 36, cut to five digits.
 */
module LegacyHash {
  import opened Wrappers

  const TWO32 := 0x1_0000_0000
  const TWO31 := 0x8000_0000
  const TWO53 := 0x20_0000_0000_0000
  const SEED := 5381

  /** A UTF-16 code unit, as `charCodeAt` returns it. */
  type CodeUnit = c: nat | c < 0x1_0000

  /** ToInt32, section 7.1.6 of ECMA-262 (2023). */
  function ToInt32(x: int): (r: int)
    ensures -TWO31 <= r < TWO31
    ensures r % TWO32 == x % TWO32
  {
    var m := x % TWO32;
    if m >= TWO31 then m - TWO32 else m
  }

  /** `x << 5` */
  function ShiftLeft5(x: int): (r: int)
    ensures -TWO31 <= r < TWO31
    ensures r % TWO32 == (32 * x) % TWO32
  {
    ToInt32(32 * x)
  }

  /** `x & 0xffffffff`: the mask is -1 as an int32, so only the conversion remains. */
  function AndAllOnes(x: int): (r: int)
    ensures -TWO31 <= r < TWO31
    ensures r % TWO32 == x % TWO32
  {
    ToInt32(x)
  }

  /** `x >>> 0` */
  function UnsignedShift0(x: int): (r: nat)
    ensures r < TWO32
  {
    x % TWO32
  }

  function Pow(base: nat, n: nat): nat {
    if n == 0 then 1 else base * Pow(base, n - 1)
  }

  /** Sum of c_i * 33^(n-1-i). */
  function Weighted(s: seq<CodeUnit>): nat {
    if |s| == 0 then 0 else s[0] * Pow(33, |s| - 1) + Weighted(s[1..])
  }

  /** The polynomial the loop evaluates, before any reduction. */
  function Polynomial(s: seq<CodeUnit>): nat {
    5381 * Pow(33, |s|) + Weighted(s)
  }

  lemma {:induction false} WeightedSnoc(s: seq<CodeUnit>, c: CodeUnit)
    ensures Weighted(s + [c]) == 33 * Weighted(s) + c
  {
    if |s| == 0 {
      assert (s + [c])[1..] == [];
      assert Pow(33, 0) == 1;
    } else {
      WeightedSnoc(s[1..], c);
      assert (s + [c])[1..] == s[1..] + [c];
      assert Pow(33, |s|) == 33 * Pow(33, |s| - 1);
      Distribute(s[0], Pow(33, |s| - 1));
    }
  }

  lemma Distribute(a: nat, p: nat)
    ensures a * (33 * p) == 33 * (a * p)
  {
  }

  /** Appending a code unit is one Horner step. */
  lemma PolynomialSnoc(s: seq<CodeUnit>, c: CodeUnit)
    ensures Polynomial(s + [c]) == 33 * Polynomial(s) + c
  {
    WeightedSnoc(s, c);
    assert Pow(33, |s| + 1) == 33 * Pow(33, |s|);
  }

  /** Reducing before a Horner step does not change its residue. */
  lemma StepModulo(hash: int, p: nat, c: nat)
    requires hash % TWO32 == p % TWO32
    ensures (ShiftLeft5(hash) + hash + c) % TWO32 == (33 * p + c) % TWO32
  {
    var shifted := ShiftLeft5(hash);
    var a, b := hash / TWO32, p / TWO32;
    var k := shifted / TWO32 - 32 * hash / TWO32;
    assert shifted - 32 * hash == TWO32 * k;
    assert hash - p == TWO32 * (a - b);
    assert shifted + hash + c == 33 * p + c + TWO32 * (k + 33 * (a - b));
    AddMultiple(33 * p + c, k + 33 * (a - b));
  }

  lemma AddMultiple(x: int, k: int)
    ensures (x + TWO32 * k) % TWO32 == x % TWO32
  {
  }

  /** Before the mask every sum is exact as a JavaScript number. */
  lemma StepIsExact(hash: int, c: CodeUnit)
    requires -TWO31 <= hash < TWO31
    ensures -TWO32 <= ShiftLeft5(hash) + hash + c < TWO32 + 0x1_0000
    ensures -TWO53 < ShiftLeft5(hash) + hash + c < TWO53
  {
  }

  method Hash(input: seq<CodeUnit>) returns (unsigned: nat)
    ensures unsigned == Polynomial(input) % TWO32
  {
    var hash := SEED;
    for i := 0 to |input|
      invariant -TWO31 <= hash < TWO31
      invariant hash % TWO32 == Polynomial(input[..i]) % TWO32
    {
      var sum := ShiftLeft5(hash) + hash + input[i];
      StepIsExact(hash, input[i]);
      StepModulo(hash, Polynomial(input[..i]), input[i]);
      PolynomialSnoc(input[..i], input[i]);
      assert input[..i + 1] == input[..i] + [input[i]];
      hash := AndAllOnes(sum);
    }
    assert input[..|input|] == input;
    unsigned := UnsignedShift0(hash);
  }

  // ---------------------------------------------------------------- base 36

  function Digit36(d: nat): (c: char)
    requires d < 36
    ensures IsDigit36(c) && Digit36Value(c) == d
  {
    if d < 10 then ('0' as int + d) as char else ('a' as int + d - 10) as char
  }

  predicate IsDigit36(c: char) {
    '0' <= c <= '9' || 'a' <= c <= 'z'
  }

  function Digit36Value(c: char): nat
    requires IsDigit36(c)
  {
    if c <= '9' then c as int - '0' as int else c as int - 'a' as int + 10
  }

  /** `n.toString(36)` */
  function ToString36(n: nat): (s: string)
    ensures |s| > 0 && forall i :: 0 <= i < |s| ==> IsDigit36(s[i])
  {
    if n < 36 then [Digit36(n)] else ToString36(n / 36) + [Digit36(n % 36)]
  }

  function Value36(s: string): nat
    requires forall i :: 0 <= i < |s| ==> IsDigit36(s[i])
  {
    if |s| == 0 then 0 else 36 * Value36(s[..|s| - 1]) + Digit36Value(s[|s| - 1])
  }

  /** `s.slice(0, 5)` */
  function FirstFive(s: string): string {
    if |s| <= 5 then s else s[..5]
  }

  /** The full rendering loses nothing of the hash; only the cut to five digits does. */
  lemma {:induction false} Value36OfToString36(n: nat)
    ensures Value36(ToString36(n)) == n
  {
    var s := ToString36(n);
    if n < 36 {
      assert s[..0] == "";
    } else {
      Value36OfToString36(n / 36);
      assert s[..|s| - 1] == ToString36(n / 36);
    }
  }

  /** The parameter is the leading base-36 digits of the polynomial hash modulo 2^32. */
  method ComputeLegacyRscCacheBustingParam(input: Option<seq<CodeUnit>>) returns (param: string)
    ensures input.None? ==> param == ""
    ensures input.Some? ==>
              var hash := Polynomial(input.value) % TWO32;
              var width := |ToString36(hash)|;
              && 0 < |param| <= 5
              && param == ToString36(hash)[..if width < 5 then width else 5]
  {
    if input.None? {
      return "";
    }
    var hash := Hash(input.value);
    param := FirstFive(ToString36(hash));
  }
}
