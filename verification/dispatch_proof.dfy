/**
 The per-request dispatch credential: what it signs, how it is presented, how it is checked.
 The MAC is a parameter returning the 64 lower-case hex digits of an HMAC-SHA256
 (section 2 of RFC 2104).
 */
module DispatchProof {
  import opened Wrappers
  import opened Ascii
  import opened Decimal
  import opened Strings
  import opened ProofFraming
  import opened WireHeaders
  import opened HeaderNames
  import opened HeaderVocabulary

  const DOMAIN_TAG := "adapter-k8s-dispatch-v3\n"
  const PREFIX := "v3"
  const ABSENT_BODY_DIGEST := "-"
  const MAX_TIMESTAMP_DIGITS := 15

  /** Everything the proof binds, as the octets both tiers agree on. */
  datatype Inputs = Inputs(
    httpMethod: string,
    target: Field,
    authority: Field,
    headers: map<string, Field>,
    buildNames: seq<string>,
    issuedAtMs: real,
    bodyDigest: Field)

  function CoveredNames(buildNames: seq<string>): seq<string> {
    SortUnique(INTERNAL_DISPATCH_HEADERS + PROOF_COVERED_CONTEXT_HEADERS + buildNames)
  }

  function AsciiLower(f: Field): Field {
    match f
    case Absent => Absent
    case Present(octets) => Present(Lower(octets))
  }

  /** `Math.trunc`. */
  function Trunc(x: real): int {
    if x >= 0.0 then x.Floor else -((-x).Floor)
  }

  /** Truncation drops the fraction: towards zero from either side. */
  lemma TruncTowardsZero(x: real)
    ensures x >= 0.0 ==> Trunc(x) as real <= x < Trunc(x) as real + 1.0
    ensures x <= 0.0 ==> Trunc(x) as real - 1.0 < x <= Trunc(x) as real
  {
  }

  /** `String(n)` on an integer. */
  function IntegerString(n: int): string {
    if n >= 0 then Render(n) else "-" + Render(-n)
  }

  function HeaderField(headers: map<string, Field>, name: string): Field {
    if name in headers then headers[name] else Absent
  }

  /** The fields framed before the name/value pairs; the last is the pair count. */
  function FixedFields(inputs: Inputs): seq<Field> {
    [Present(Upper(inputs.httpMethod)),
     inputs.target,
     AsciiLower(inputs.authority),
     Present(IntegerString(Trunc(inputs.issuedAtMs))),
     inputs.bodyDigest,
     Present(Render(|CoveredNames(inputs.buildNames)|))]
  }

  /** Name, value, name, value, ... in canonical name order. */
  function PairFields(names: seq<string>, headers: map<string, Field>): (fs: seq<Field>)
    ensures |fs| == 2 * |names|
  {
    seq(2 * |names|, i requires 0 <= i < 2 * |names| =>
      if i % 2 == 0 then Present(names[i / 2]) else HeaderField(headers, names[i / 2]))
  }

  function Transcript(inputs: Inputs): string {
    DOMAIN_TAG + FrameAll(FixedFields(inputs)
                          + PairFields(CoveredNames(inputs.buildNames), inputs.headers))
  }

  // ---------------------------------------------------------------- unique decodability

  /** What a transcript pins down: the normalised inputs, names and values in canonical order. */
  datatype Covered = Covered(
    httpMethod: Field,
    target: Field,
    authority: Field,
    issuedAt: Field,
    bodyDigest: Field,
    pairs: seq<Field>)

  function CoveredBy(inputs: Inputs): Covered {
    var fixed := FixedFields(inputs);
    Covered(fixed[0], fixed[1], fixed[2], fixed[3], fixed[4],
            PairFields(CoveredNames(inputs.buildNames), inputs.headers))
  }

  /** Read back six frames, then as many pairs as the sixth announces. */
  function DecodeFields(s: string): Option<(Covered, string)> {
    match UnframeMany(6, s)
    case None => None
    case Some((fixed, rest)) =>
      if |fixed| != 6 || !fixed[5].Present? || !AllDigits(fixed[5].octets) then None
      else
        match UnframeMany(2 * Value(fixed[5].octets), rest)
        case None => None
        case Some((pairs, tail)) =>
          Some((Covered(fixed[0], fixed[1], fixed[2], fixed[3], fixed[4], pairs), tail))
  }

  function DecodeTranscript(s: string): Option<(Covered, string)> {
    if DOMAIN_TAG <= s then DecodeFields(s[|DOMAIN_TAG|..]) else None
  }

  lemma DecodeInvertsFields(fixed: seq<Field>, count: nat, pairs: seq<Field>, rest: string)
    requires |fixed| == 6 && fixed[5] == Present(Render(count)) && |pairs| == 2 * count
    ensures DecodeFields(FrameAll(fixed + pairs) + rest)
         == Some((Covered(fixed[0], fixed[1], fixed[2], fixed[3], fixed[4], pairs), rest))
  {
    FrameAllAppend(fixed, pairs);
    ConcatAssociative(FrameAll(fixed), FrameAll(pairs), rest);
    UnframeManyFrameAll(fixed, FrameAll(pairs) + rest);
    ValueOfRender(count);
    UnframeManyFrameAll(pairs, rest);
  }

  /** The decoder inverts the transcript, for any inputs and whatever octets follow. */
  lemma DecodeInvertsTranscript(inputs: Inputs, rest: string)
    ensures DecodeTranscript(Transcript(inputs) + rest) == Some((CoveredBy(inputs), rest))
  {
    var fixed := FixedFields(inputs);
    var names := CoveredNames(inputs.buildNames);
    var pairs := PairFields(names, inputs.headers);
    var fields := FrameAll(fixed + pairs);
    ConcatAssociative(DOMAIN_TAG, fields, rest);
    Slices(DOMAIN_TAG, fields + rest);
    DecodeInvertsFields(fixed, |names|, pairs, rest);
  }

  /** Every transcript opens with the version's domain tag. */
  lemma TranscriptIsTagged(inputs: Inputs)
    ensures Transcript(inputs) == "adapter-k8s-dispatch-v3\n"
                                  + FrameAll(FixedFields(inputs) + PairFields(CoveredNames(inputs.buildNames), inputs.headers))
  {
  }

  lemma PairsDetermineHeaders(
      xs: seq<string>, hx: map<string, Field>, ys: seq<string>, hy: map<string, Field>)
    requires PairFields(xs, hx) == PairFields(ys, hy)
    ensures xs == ys
    ensures forall i :: 0 <= i < |xs| ==> HeaderField(hx, xs[i]) == HeaderField(hy, xs[i])
  {
    var px, py := PairFields(xs, hx), PairFields(ys, hy);
    assert |px| == |py|;
    forall i | 0 <= i < |xs|
      ensures xs[i] == ys[i] && HeaderField(hx, xs[i]) == HeaderField(hy, ys[i])
    {
      assert px[2 * i] == Present(xs[i]) && py[2 * i] == Present(ys[i]);
      assert px[2 * i + 1] == HeaderField(hx, xs[i]) && py[2 * i + 1] == HeaderField(hy, ys[i]);
    }
  }

  ghost predicate SameValues(names: seq<string>, ha: map<string, Field>, hb: map<string, Field>) {
    forall name :: name in names ==>
      (if name in ha then ha[name] else Absent) == (if name in hb then hb[name] else Absent)
  }

  /** The same host in any letter case, or none on both sides. */
  ghost predicate SameAuthority(a: Field, b: Field) {
    match (a, b)
    case (Absent, Absent) => true
    case (Present(x), Present(y)) => SameLetters(x, y)
    case _ => false
  }

  lemma SameAuthorityIff(a: Field, b: Field)
    ensures AsciiLower(a) == AsciiLower(b) <==> SameAuthority(a, b)
  {
    if a.Present? && b.Present? {
      LowerSameIff(a.octets, b.octets);
    }
  }

  /** Every input the proof covers is the same on both sides, method and authority in any letter case. */
  ghost predicate SameCoveredInputs(a: Inputs, b: Inputs) {
    && SameLetters(a.httpMethod, b.httpMethod)
    && a.target == b.target
    && SameAuthority(a.authority, b.authority)
    && Trunc(a.issuedAtMs) == Trunc(b.issuedAtMs)
    && a.bodyDigest == b.bodyDigest
    && CoveredNames(a.buildNames) == CoveredNames(b.buildNames)
    && SameValues(CoveredNames(a.buildNames), a.headers, b.headers)
  }

  lemma IntegerStringInjective(m: int, n: int)
    requires IntegerString(m) == IntegerString(n)
    ensures m == n
  {
    ValueOfRender(if m >= 0 then m else -m);
    ValueOfRender(if n >= 0 then n else -n);
    assert m >= 0 ==> IsDigit(IntegerString(m)[0]);
    assert n >= 0 ==> IsDigit(IntegerString(n)[0]);
    assert m < 0 ==> IntegerString(m)[0] == '-';
    assert n < 0 ==> IntegerString(n)[0] == '-';
    if m < 0 && n < 0 {
      assert IntegerString(m)[1..] == Render(-m) && IntegerString(n)[1..] == Render(-n);
    }
  }

  /**
   Two inputs share a transcript exactly when every covered input is the same, and no transcript
   is a proper prefix of another.
   */
  lemma TranscriptUniquelyDecodable(a: Inputs, b: Inputs, more: string)
    ensures Transcript(a) + more == Transcript(b) <==> more == "" && SameCoveredInputs(a, b)
  {
    DecodeInvertsTranscript(a, more);
    DecodeInvertsTranscript(b, "");
    assert Transcript(b) + "" == Transcript(b);
    var na, nb := CoveredNames(a.buildNames), CoveredNames(b.buildNames);
    UpperSameIff(a.httpMethod, b.httpMethod);
    SameAuthorityIff(a.authority, b.authority);
    if Transcript(a) + more == Transcript(b) {
      assert CoveredBy(a) == CoveredBy(b);
      PairsDetermineHeaders(na, a.headers, nb, b.headers);
      IntegerStringInjective(Trunc(a.issuedAtMs), Trunc(b.issuedAtMs));
    }
    if more == "" && SameCoveredInputs(a, b) {
      SamePairs(na, a.headers, b.headers);
      assert FixedFields(a) == FixedFields(b);
      assert Transcript(a) + more == Transcript(a);
    }
  }

  lemma SamePairs(names: seq<string>, ha: map<string, Field>, hb: map<string, Field>)
    requires SameValues(names, ha, hb)
    ensures PairFields(names, ha) == PairFields(names, hb)
  {
  }

  /** The covered-name list is canonical: it depends only on which names the build adds. */
  lemma CoveredNamesCanonical(xs: seq<string>, ys: seq<string>)
    ensures StrictlySorted(CoveredNames(xs))
    ensures forall name :: name in CoveredNames(xs) <==>
              name in INTERNAL_DISPATCH_HEADERS || name in PROOF_COVERED_CONTEXT_HEADERS || name in xs
    ensures Elements(xs) == Elements(ys) ==> CoveredNames(xs) == CoveredNames(ys)
  {
    SortUniqueOfThree(INTERNAL_DISPATCH_HEADERS, PROOF_COVERED_CONTEXT_HEADERS, xs);
    if Elements(xs) == Elements(ys) {
      var fixed := INTERNAL_DISPATCH_HEADERS + PROOF_COVERED_CONTEXT_HEADERS;
      SortUniqueDependsOnSet(fixed + xs, fixed + ys);
      assert forall name :: name in xs <==> name in Elements(ys);
      assert Elements(fixed + xs) == Elements(fixed + ys);
    }
  }
}
