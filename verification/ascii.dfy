/** ASCII case folding, which is what `toLowerCase` does to text whose letters are ASCII. */
module Ascii {
  function LowerChar(c: char): char {
    if 'A' <= c <= 'Z' then (c as int + 32) as char else c
  }

  function Lower(s: string): (r: string)
    ensures |r| == |s|
  {
    seq(|s|, i requires 0 <= i < |s| => LowerChar(s[i]))
  }

  function UpperChar(c: char): char {
    if 'a' <= c <= 'z' then (c as int - 32) as char else c
  }

  function Upper(s: string): (r: string)
    ensures |r| == |s|
  {
    seq(|s|, i requires 0 <= i < |s| => UpperChar(s[i]))
  }

  /** The same letter in either case, or the same character. */
  predicate SameLetter(a: char, b: char) {
    || a == b
    || ('a' <= a <= 'z' && b as int + ('a' as int - 'A' as int) == a as int)
    || ('a' <= b <= 'z' && a as int + ('a' as int - 'A' as int) == b as int)
  }

  predicate SameLetters(a: string, b: string) {
    |a| == |b| && forall i :: 0 <= i < |a| ==> SameLetter(a[i], b[i])
  }

  /** Two texts fold to the same text exactly when they have the same letters. */
  lemma LowerSameIff(a: string, b: string)
    ensures Lower(a) == Lower(b) <==> SameLetters(a, b)
  {
    if Lower(a) == Lower(b) {
      assert |a| == |b|;
      forall i | 0 <= i < |a| ensures SameLetter(a[i], b[i]) {
        assert Lower(a)[i] == Lower(b)[i];
      }
    }
  }

  lemma UpperSameIff(a: string, b: string)
    ensures Upper(a) == Upper(b) <==> SameLetters(a, b)
  {
    if Upper(a) == Upper(b) {
      assert |a| == |b|;
      forall i | 0 <= i < |a| ensures SameLetter(a[i], b[i]) {
        assert Upper(a)[i] == Upper(b)[i];
      }
    }
  }

  /** Folding up and comparing with a text in capitals ignores case. */
  lemma UpperIs(a: string, capitals: string)
    requires forall i :: 0 <= i < |capitals| ==> 'A' <= capitals[i] <= 'Z'
    ensures Upper(a) == capitals <==> SameLetters(a, capitals)
  {
    UpperSameIff(a, capitals);
    assert Upper(capitals) == capitals;
  }

  predicate NoCapitals(s: string) {
    forall i :: 0 <= i < |s| ==> !('A' <= s[i] <= 'Z')
  }

  /** Folding down and comparing with a text without capitals ignores case. */
  lemma LowerIs(a: string, name: string)
    requires NoCapitals(name)
    ensures Lower(a) == name <==> SameLetters(a, name)
  {
    LowerSameIff(a, name);
    assert Lower(name) == name;
  }

  /** Folding down leaves no capital, and nothing but capitals is changed. */
  lemma LowerIsLower(a: string)
    ensures SameLetters(Lower(a), a)
    ensures NoCapitals(Lower(a))
  {
  }
}
