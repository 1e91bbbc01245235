/**
 Length-prefixed framing of the dispatch proof's transcript, and a decoder that inverts it.

 Octet strings are Dafny strings whose characters are code points below 256, which is also how
 Node shows octets it decoded as Latin-1.
 */
module ProofFraming {
  import opened Wrappers
  import opened Decimal
  import opened Strings

  /** A covered field: a missing header is a value of its own, not an empty string. */
  datatype Field = Absent | Present(octets: string)

  /** `<length>\n<octets>`, the length in decimal. */
  function LengthPrefixed(octets: string): string {
    Render(|octets|) + ("\n" + octets)
  }

  /** What one call of `updateProofField` appends: `-\n`, or `+<length>\n<octets>`. */
  function Frame(f: Field): string {
    match f
    case Absent => "-\n"
    case Present(octets) => "+" + LengthPrefixed(octets)
  }

  function FrameAll(fs: seq<Field>): string {
    if |fs| == 0 then "" else Frame(fs[0]) + FrameAll(fs[1..])
  }

  /** Length of the leading run of digits. */
  function DigitRun(s: string): (n: nat)
    ensures n <= |s| && AllDigits(s[..n])
    ensures n < |s| ==> !IsDigit(s[n])
  {
    if |s| > 0 && IsDigit(s[0]) then 1 + DigitRun(s[1..]) else 0
  }

  /** Read the decimal length and its line feed. */
  function ReadLength(s: string): Option<(nat, string)> {
    var n := DigitRun(s);
    if n == 0 || n == |s| || s[n] != '\n' then None else Some((Value(s[..n]), s[n + 1..]))
  }

  /** Read one frame off the front of a transcript. */
  function Unframe(s: string): Option<(Field, string)> {
    if |s| >= 2 && s[0] == '-' && s[1] == '\n' then Some((Absent, s[2..]))
    else if |s| >= 1 && s[0] == '+' then
      match ReadLength(s[1..])
      case None => None
      case Some((length, rest)) =>
        if length > |rest| then None else Some((Present(rest[..length]), rest[length..]))
    else None
  }

  function UnframeMany(n: nat, s: string): Option<(seq<Field>, string)> {
    if n == 0 then Some(([], s))
    else
      match Unframe(s)
      case None => None
      case Some((f, rest)) =>
        match UnframeMany(n - 1, rest)
        case None => None
        case Some((fs, tail)) => Some(([f] + fs, tail))
  }

  lemma {:induction false} DigitRunOfDigits(digits: string, rest: string)
    requires AllDigits(digits)
    requires |rest| > 0 && !IsDigit(rest[0])
    ensures DigitRun(digits + rest) == |digits|
  {
    if |digits| == 0 {
      assert digits + rest == rest;
    } else {
      DigitRunOfDigits(digits[1..], rest);
      assert (digits + rest)[1..] == digits[1..] + rest;
    }
  }

  lemma ReadLengthOfRender(n: nat, tail: string)
    ensures ReadLength(Render(n) + ("\n" + tail)) == Some((n, tail))
  {
    var digits, rest := Render(n), "\n" + tail;
    DigitRunOfDigits(digits, rest);
    Slices(digits, rest);
    ValueOfRender(n);
    assert (digits + rest)[|digits| + 1..] == rest[1..] == tail;
  }

  lemma Slices(a: string, b: string)
    ensures (a + b)[..|a|] == a && (a + b)[|a|..] == b
  {
  }

  /** The decoder takes back exactly one frame, whatever octets the value holds or follow it. */
  lemma UnframeFrame(f: Field, rest: string)
    ensures Unframe(Frame(f) + rest) == Some((f, rest))
  {
    match f
    case Absent =>
      Slices("-\n", rest);
    case Present(octets) =>
      UnframePresent(octets, rest, Frame(f) + rest);
  }

  lemma UnframePresent(octets: string, rest: string, s: string)
    requires s == ("+" + LengthPrefixed(octets)) + rest
    ensures Unframe(s) == Some((Present(octets), rest))
  {
    ConcatAssociative("+", LengthPrefixed(octets), rest);
    ConcatAssociative(Render(|octets|), "\n" + octets, rest);
    ConcatAssociative("\n", octets, rest);
    Slices("+", LengthPrefixed(octets) + rest);
    ReadLengthOfRender(|octets|, octets + rest);
    Slices(octets, rest);
  }

  lemma {:induction false} UnframeManyFrameAll(fs: seq<Field>, rest: string)
    ensures UnframeMany(|fs|, FrameAll(fs) + rest) == Some((fs, rest))
  {
    if |fs| == 0 {
      assert "" + rest == rest;
    } else {
      var tail := FrameAll(fs[1..]);
      UnframeManyFrameAll(fs[1..], rest);
      UnframeFrame(fs[0], tail + rest);
      ConcatAssociative(Frame(fs[0]), tail, rest);
      assert fs == [fs[0]] + fs[1..];
    }
  }

  lemma {:induction false} FrameAllAppend(xs: seq<Field>, ys: seq<Field>)
    ensures FrameAll(xs + ys) == FrameAll(xs) + FrameAll(ys)
  {
    if |xs| == 0 {
      assert xs + ys == ys;
      assert "" + FrameAll(ys) == FrameAll(ys);
    } else {
      calc {
        FrameAll(xs + ys);
        { assert (xs + ys)[1..] == xs[1..] + ys; }
        Frame(xs[0]) + FrameAll(xs[1..] + ys);
        { FrameAllAppend(xs[1..], ys); }
        Frame(xs[0]) + (FrameAll(xs[1..]) + FrameAll(ys));
        { ConcatAssociative(Frame(xs[0]), FrameAll(xs[1..]), FrameAll(ys)); }
        FrameAll(xs) + FrameAll(ys);
      }
    }
  }

  lemma FrameAllSnoc(fs: seq<Field>, f: Field)
    ensures FrameAll(fs + [f]) == FrameAll(fs) + Frame(f)
  {
    FrameAllAppend(fs, [f]);
    assert [f][1..] == [];
  }

  /** Framing is injective and prefix-free on field lists of the same length. */
  lemma FrameAllUniquelyDecodable(xs: seq<Field>, ys: seq<Field>, more: string)
    requires |xs| == |ys|
    requires FrameAll(xs) + more == FrameAll(ys)
    ensures xs == ys && more == ""
  {
    UnframeManyFrameAll(xs, more);
    UnframeManyFrameAll(ys, "");
    assert FrameAll(ys) + "" == FrameAll(ys);
  }
}
