/** Text of the credential: splitting on dots, lower-case hex, and the parser. */
module DispatchCredential {
  import opened Wrappers
  import opened Decimal
  import opened Strings
  import opened ProofFraming
  import opened WireHeaders
  import opened DispatchProof

  predicate IsLowerHex(c: char) {
    '0' <= c <= '9' || 'a' <= c <= 'f'
  }

  predicate AllLowerHex(s: string) {
    forall i :: 0 <= i < |s| ==> IsLowerHex(s[i])
  }

  /** The 64 hex digits of a SHA-256 sized value. */
  type HexDigest = s: string | |s| == 64 && AllLowerHex(s) ghost witness seq(64, _ => '0')

  /** HMAC-SHA256 under a secret, idealised as a function of the whole transcript. */
  type Mac = (string, string) -> HexDigest

  function HexDigit(n: nat): (c: char)
    requires n < 16
    ensures IsLowerHex(c) && HexValue(c) == n
  {
    if n < 10 then ('0' as int + n) as char else ('a' as int + n - 10) as char
  }

  function HexValue(c: char): (n: nat)
    requires IsLowerHex(c)
    ensures n < 16
  {
    if c <= '9' then c as int - '0' as int else c as int - 'a' as int + 10
  }

  function Hex(octets: string): (s: string)
    requires IsOctets(octets)
    ensures |s| == 2 * |octets| && AllLowerHex(s)
  {
    if |octets| == 0 then ""
    else
      var n := octets[0] as int;
      [HexDigit(n / 16), HexDigit(n % 16)] + Hex(octets[1..])
  }

  function Unhex(s: string): (octets: string)
    requires |s| % 2 == 0 && AllLowerHex(s)
    ensures IsOctets(octets) && 2 * |octets| == |s|
  {
    if |s| == 0 then ""
    else [(16 * HexValue(s[0]) + HexValue(s[1])) as char] + Unhex(s[2..])
  }

  lemma {:induction false} UnhexOfHex(octets: string)
    requires IsOctets(octets)
    ensures Unhex(Hex(octets)) == octets
  {
    if |octets| > 0 {
      UnhexOfHex(octets[1..]);
      assert Hex(octets)[2..] == Hex(octets[1..]);
    }
  }

  /** A body digest as a signer may declare it: none, or the 32 octets of a SHA-256. */
  ghost predicate IsDigest(digest: Field) {
    digest.Present? ==> |digest.octets| == 32 && IsOctets(digest.octets)
  }

  function DigestText(digest: Field): string
    requires IsDigest(digest)
  {
    match digest
    case Absent => ABSENT_BODY_DIGEST
    case Present(octets) => Hex(octets)
  }

  /** `v3.<issued>.<digest|->.<mac>`, the value a signer puts in the proof header. */
  function Credential(mac: Mac, secret: string, inputs: Inputs): string
    requires IsDigest(inputs.bodyDigest)
  {
    CredentialText(IntegerString(Trunc(inputs.issuedAtMs)), DigestText(inputs.bodyDigest),
                   mac(secret, Transcript(inputs)))
  }

  function CredentialText(issuedAt: string, digest: string, tag: string): string {
    Join([PREFIX, issuedAt, digest, tag], ".")
  }

  datatype Parsed = Parsed(issuedAtMs: nat, bodyDigest: Field)

  function ParseDispatchProof(credential: string): (parsed: Option<Parsed>)
    ensures parsed.Some? ==>
              IsDigest(parsed.value.bodyDigest) && parsed.value.issuedAtMs < Pow10(MAX_TIMESTAMP_DIGITS)
  {
    var parts := Split(credential, '.');
    if |parts| != 4 then None
    else
      var prefix, issuedAt, digest, mac := parts[0], parts[1], parts[2], parts[3];
      if prefix != PREFIX then None
      else if !(1 <= |issuedAt| <= MAX_TIMESTAMP_DIGITS && AllDigits(issuedAt)) then None
      else if !(|mac| == 64 && AllLowerHex(mac)) then None
      else if digest != ABSENT_BODY_DIGEST && !(|digest| == 64 && AllLowerHex(digest)) then None
      else
        ValueBound(issuedAt, MAX_TIMESTAMP_DIGITS);
        Some(Parsed(Value(issuedAt),
                    if digest == ABSENT_BODY_DIGEST then Absent else Present(Unhex(digest))))
  }

  lemma {:induction false} ValueBound(s: string, k: nat)
    requires AllDigits(s) && |s| <= k
    ensures Value(s) < Pow10(k)
  {
    if |s| > 0 {
      ValueBound(s[..|s| - 1], k - 1);
    }
  }

  lemma SplitOfCredential(n: nat, digest: Field, tag: HexDigest)
    requires IsDigest(digest)
    ensures Split(CredentialText(Render(n), DigestText(digest), tag), '.')
         == [PREFIX, Render(n), DigestText(digest), tag]
  {
    assert AllDigits(Render(n)) && !IsDigit('.');
    assert !IsLowerHex('.');
    if digest.Present? {
      assert AllLowerHex(Hex(digest.octets));
    }
    SplitOfJoin([PREFIX, Render(n), DigestText(digest), tag], '.');
  }

  /** A signer's credential parses back to the mint time and digest it states. */
  lemma ParseOfCredential(mac: Mac, secret: string, inputs: Inputs)
    requires IsDigest(inputs.bodyDigest)
    requires 0 <= Trunc(inputs.issuedAtMs) < Pow10(MAX_TIMESTAMP_DIGITS)
    ensures ParseDispatchProof(Credential(mac, secret, inputs))
         == Some(Parsed(Trunc(inputs.issuedAtMs), inputs.bodyDigest))
  {
    var n: nat := Trunc(inputs.issuedAtMs);
    SplitOfCredential(n, inputs.bodyDigest, mac(secret, Transcript(inputs)));
    RenderWidth(n, MAX_TIMESTAMP_DIGITS);
    ValueOfRender(n);
    if inputs.bodyDigest.Present? {
      UnhexOfHex(inputs.bodyDigest.octets);
      assert |Hex(inputs.bodyDigest.octets)| == 64;
      assert |ABSENT_BODY_DIGEST| == 1;
    }
  }

  // ---------------------------------------------------------------- which texts are credentials

  ghost predicate IsHex64(s: string) {
    |s| == 64 && forall i :: 0 <= i < 64 ==> '0' <= s[i] <= '9' || 'a' <= s[i] <= 'f'
  }

  ghost predicate IsTimestamp(s: string) {
    1 <= |s| <= 15 && forall i :: 0 <= i < |s| ==> '0' <= s[i] <= '9'
  }

  /** `v3`, digits, a digest or a dash, and a MAC, joined by dots. */
  ghost predicate Spells(credential: string, issuedAt: string, digest: string, tag: string) {
    && credential == "v3" + "." + (issuedAt + "." + (digest + "." + tag))
    && IsTimestamp(issuedAt) && (digest == "-" || IsHex64(digest)) && IsHex64(tag)
  }

  lemma HexIff(s: string)
    ensures |s| == 64 && AllLowerHex(s) <==> IsHex64(s)
  {
  }

  lemma JoinOfFour(a: string, b: string, c: string, d: string)
    ensures Join([a, b, c, d], ".") == a + "." + (b + "." + (c + "." + d))
  {
    assert [a, b, c, d][1..] == [b, c, d] && [b, c, d][1..] == [c, d] && [c, d][1..] == [d];
    assert Join([d], ".") == d;
    assert Join([c, d], ".") == c + "." + d;
    assert Join([b, c, d], ".") == b + "." + (c + "." + d);
  }

  /** A text parses exactly when it spells a credential, and then to what it spells. */
  lemma ParsesIff(credential: string)
    ensures ParseDispatchProof(credential).Some? <==>
              exists issuedAt, digest, tag :: Spells(credential, issuedAt, digest, tag)
    ensures forall issuedAt, digest, tag :: Spells(credential, issuedAt, digest, tag) ==>
              ParseDispatchProof(credential) == Some(Parsed(
                Value(issuedAt), if digest == "-" then Absent else Present(Unhex(digest))))
  {
    var parts := Split(credential, '.');
    if ParseDispatchProof(credential).Some? {
      JoinOfSplit(credential, '.');
      assert parts == [parts[0], parts[1], parts[2], parts[3]];
      JoinOfFour(parts[0], parts[1], parts[2], parts[3]);
      HexIff(parts[2]);
      HexIff(parts[3]);
      assert Spells(credential, parts[1], parts[2], parts[3]);
    }
    forall issuedAt, digest, tag | Spells(credential, issuedAt, digest, tag)
      ensures ParseDispatchProof(credential) == Some(Parsed(
                Value(issuedAt), if digest == "-" then Absent else Present(Unhex(digest))))
    {
      SpelledParses(credential, issuedAt, digest, tag);
    }
  }

  lemma SpelledParses(credential: string, issuedAt: string, digest: string, tag: string)
    requires Spells(credential, issuedAt, digest, tag)
    ensures ParseDispatchProof(credential) == Some(Parsed(
              Value(issuedAt), if digest == "-" then Absent else Present(Unhex(digest))))
  {
    JoinOfFour("v3", issuedAt, digest, tag);
    HexIff(digest);
    HexIff(tag);
    assert !IsDigit('.') && !IsLowerHex('.');
    SplitOfJoin(["v3", issuedAt, digest, tag], '.');
    assert |"-"| == 1;
  }

  /** What a signer presents, spelt out. */
  lemma CredentialSpelled(mac: Mac, secret: string, inputs: Inputs)
    requires IsDigest(inputs.bodyDigest)
    ensures Credential(mac, secret, inputs)
         == "v3" + "." + (IntegerString(Trunc(inputs.issuedAtMs)) + "."
            + ((if inputs.bodyDigest.Absent? then "-" else Hex(inputs.bodyDigest.octets)) + "."
               + mac(secret, Transcript(inputs))))
  {
    JoinOfFour("v3", IntegerString(Trunc(inputs.issuedAtMs)), DigestText(inputs.bodyDigest), mac(secret, Transcript(inputs)));
  }
}
