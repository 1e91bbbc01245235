/** The pool's trust decision on a presented credential. */
module DispatchVerify {
  import opened Wrappers
  import opened Ascii
  import opened Decimal
  import opened Strings
  import opened ProofFraming
  import opened WireHeaders
  import opened HeaderVocabulary
  import opened DispatchProof
  import opened DispatchCredential

  /** A request as a Node tier sees it. */
  datatype NodeRequest = NodeRequest(
    httpMethod: Option<string>,
    target: Option<string>,
    headers: map<string, NodeValue>,
    buildNames: seq<string>)

  datatype Rejection = Malformed | Mismatch | Stale | Premature | BodyUnexpected

  datatype Verdict = Trusted(bodyDigest: Field) | Untrusted(reason: Rejection)

  function Lookup(headers: map<string, NodeValue>, name: string): NodeValue {
    if name in headers then headers[name] else Undefined
  }

  function MethodOf(request: NodeRequest): string {
    if request.httpMethod.Some? then request.httpMethod.value else "GET"
  }

  function TargetOf(request: NodeRequest): string {
    if request.target.Some? then request.target.value else "/"
  }

  function InputsFromRequest(request: NodeRequest, issuedAtMs: real, bodyDigest: Field): Inputs {
    Inputs(
      MethodOf(request),
      Present(Latin1Encode(TargetOf(request))),
      WireHeaderBytes("host", Lookup(request.headers, "host")),
      map name | name in CoveredNames(request.buildNames) ::
        WireHeaderBytes(name, Lookup(request.headers, name)),
      request.buildNames,
      issuedAtMs,
      bodyDigest)
  }

  predicate BodylessMethod(request: NodeRequest) {
    Upper(MethodOf(request)) == "GET" || Upper(MethodOf(request)) == "HEAD"
  }

  /** `window` is the configured maximum age, which also bounds a future-dated mint time. */
  function VerifyDispatchProof(
      mac: Mac, secret: string, request: NodeRequest, presented: string,
      nowMs: real, window: real): Verdict
  {
    match ParseDispatchProof(presented)
    case None => Untrusted(Malformed)
    case Some(parsed) =>
      var expected := Credential(
        mac, secret, InputsFromRequest(request, parsed.issuedAtMs as real, parsed.bodyDigest));
      var age := nowMs - parsed.issuedAtMs as real;
      if presented != expected then Untrusted(Mismatch)
      else if parsed.bodyDigest.Present? && BodylessMethod(request) then Untrusted(BodyUnexpected)
      else if age > window then Untrusted(Stale)
      else if age < -window then Untrusted(Premature)
      else Trusted(parsed.bodyDigest)
  }

  /** The one credential this build's secret yields for a request, mint time and digest. */
  ghost predicate Authentic(
      mac: Mac, secret: string, request: NodeRequest, presented: string,
      issuedAt: nat, digest: Field)
  {
    && issuedAt < Pow10(MAX_TIMESTAMP_DIGITS)
    && IsDigest(digest)
    && presented == Credential(mac, secret, InputsFromRequest(request, issuedAt as real, digest))
  }

  lemma AuthenticParses(
      mac: Mac, secret: string, request: NodeRequest, presented: string,
      issuedAt: nat, digest: Field)
    requires Authentic(mac, secret, request, presented, issuedAt, digest)
    ensures ParseDispatchProof(presented) == Some(Parsed(issuedAt, digest))
  {
    ParseOfCredential(mac, secret, InputsFromRequest(request, issuedAt as real, digest));
  }

  /** A request without a method is a GET; GET and HEAD in any letter case carry no body. */
  ghost predicate CarriesNoBody(httpMethod: Option<string>) {
    httpMethod.None? || SameLetters(httpMethod.value, "GET") || SameLetters(httpMethod.value, "HEAD")
  }

  lemma BodylessIff(request: NodeRequest)
    ensures BodylessMethod(request) <==> CarriesNoBody(request.httpMethod)
  {
    UpperIs(MethodOf(request), "GET");
    UpperIs(MethodOf(request), "HEAD");
  }

  /** Which verdict an authentic credential gets is policy alone: method, then the two-sided window. */
  ghost function PolicyVerdict(
      httpMethod: Option<string>, issuedAt: nat, digest: Field, nowMs: real, window: real): Verdict
  {
    if digest.Present? && CarriesNoBody(httpMethod) then Untrusted(BodyUnexpected)
    else if nowMs - issuedAt as real > window then Untrusted(Stale)
    else if issuedAt as real - nowMs > window then Untrusted(Premature)
    else Trusted(digest)
  }

  /**
   Verification accepts exactly the canonical credential inside the window, and every refusal
   other than `malformed` or `mismatch` is authenticated: only a holder of the secret can cause it.
   */
  lemma VerdictCharacterised(
      mac: Mac, secret: string, request: NodeRequest, presented: string,
      nowMs: real, window: real, verdict: Verdict)
    requires verdict != Untrusted(Malformed) && verdict != Untrusted(Mismatch)
    ensures VerifyDispatchProof(mac, secret, request, presented, nowMs, window) == verdict
       <==> exists issuedAt: nat, digest: Field ::
              && Authentic(mac, secret, request, presented, issuedAt, digest)
              && PolicyVerdict(request.httpMethod, issuedAt, digest, nowMs, window) == verdict
  {
    BodylessIff(request);
    hide BodylessMethod, CarriesNoBody;
    if VerifyDispatchProof(mac, secret, request, presented, nowMs, window) == verdict {
      var parsed := ParseDispatchProof(presented).value;
      assert Authentic(mac, secret, request, presented, parsed.issuedAtMs, parsed.bodyDigest);
    }
    forall issuedAt: nat, digest: Field
      | Authentic(mac, secret, request, presented, issuedAt, digest)
      ensures ParseDispatchProof(presented) == Some(Parsed(issuedAt, digest))
    {
      AuthenticParses(mac, secret, request, presented, issuedAt, digest);
    }
  }

  /** A timestamp padded with a leading zero is never trusted, whatever the MAC says. */
  lemma LeadingZeroRefused(
      mac: Mac, secret: string, request: NodeRequest, presented: string,
      nowMs: real, window: real)
    requires var parts := Split(presented, '.');
             |parts| == 4 && |parts[1]| > 1 && parts[1][0] == '0'
    ensures var verdict := VerifyDispatchProof(mac, secret, request, presented, nowMs, window);
            verdict == Untrusted(Malformed) || verdict == Untrusted(Mismatch)
  {
    var parsed := ParseDispatchProof(presented);
    if parsed.Some? {
      var n := parsed.value.issuedAtMs;
      var inputs := InputsFromRequest(request, n as real, parsed.value.bodyDigest);
      var tag := mac(secret, Transcript(inputs));
      SplitOfCredential(n, parsed.value.bodyDigest, tag);
      RenderOfValue(Split(presented, '.')[1]);
    }
  }

  // ---------------------------------------------------------------- end to end

  /** A request on the wire: origin-form target and every field line, `Host` among them. */
  datatype WireRequest = WireRequest(httpMethod: string, target: string, lines: seq<FieldLine>)

  ghost predicate ValidWire(wire: WireRequest) {
    IsOctets(wire.target) && forall line <- wire.lines :: IsOctets(line.octets)
  }

  function LineNames(lines: seq<FieldLine>): set<string> {
    set line <- lines :: Lower(line.name)
  }

  /** What the signing tier covers: the octets of every field line, coalesced by name. */
  function SignerInputs(
      wire: WireRequest, buildNames: seq<string>, issuedAtMs: real, bodyDigest: Field): Inputs
  {
    Inputs(
      wire.httpMethod,
      Present(wire.target),
      Coalesce("host", ValuesOf(wire.lines, "host")),
      map name | name in CoveredNames(buildNames) :: Coalesce(name, ValuesOf(wire.lines, name)),
      buildNames,
      issuedAtMs,
      bodyDigest)
  }

  /** The same request after Node's HTTP parser. */
  function AsNodeSees(wire: WireRequest, buildNames: seq<string>): NodeRequest {
    NodeRequest(
      Some(wire.httpMethod),
      Some(wire.target),
      map name | name in LineNames(wire.lines) :: NodeRecord(wire.lines, name),
      buildNames)
  }

  lemma {:induction false} NoLineNoRecord(lines: seq<FieldLine>, name: string)
    requires name !in LineNames(lines)
    ensures NodeRecord(lines, name) == Undefined
  {
    if |lines| > 0 {
      assert lines[|lines| - 1] in lines;
      var front := lines[..|lines| - 1];
      assert forall line <- front :: line in lines;
      NoLineNoRecord(front, name);
    }
  }

  lemma CoveredValuesAgree(wire: WireRequest, buildNames: seq<string>, name: string)
    requires ValidWire(wire) && Lower(name) == name
    ensures WireHeaderBytes(name, Lookup(AsNodeSees(wire, buildNames).headers, name))
         == Coalesce(name, ValuesOf(wire.lines, name))
  {
    NodeAgreesWithEdge(wire.lines, name);
    if name !in LineNames(wire.lines) {
      NoLineNoRecord(wire.lines, name);
    }
  }

  /** The pool collects exactly what the signer covered. */
  lemma PoolInputsAreSignerInputs(
      wire: WireRequest, buildNames: seq<string>, issuedAtMs: real, digest: Field)
    requires ValidWire(wire)
    requires forall name <- CoveredNames(buildNames) :: Lower(name) == name
    ensures InputsFromRequest(AsNodeSees(wire, buildNames), issuedAtMs, digest)
         == SignerInputs(wire, buildNames, issuedAtMs, digest)
  {
    Latin1OfOctets(wire.target);
    CoveredValuesAgree(wire, buildNames, "host");
    forall name | name in CoveredNames(buildNames)
      ensures WireHeaderBytes(name, Lookup(AsNodeSees(wire, buildNames).headers, name))
           == Coalesce(name, ValuesOf(wire.lines, name))
    {
      CoveredValuesAgree(wire, buildNames, name);
    }
  }

  lemma TruncOfInteger(n: int)
    ensures Trunc(n as real) == n
  {
  }

  /** A pool that receives the request finds the signer's own credential authentic. */
  lemma HonestIsAuthentic(
      mac: Mac, secret: string, wire: WireRequest, buildNames: seq<string>, issuedAtMs: real, digest: Field)
    requires ValidWire(wire) && IsDigest(digest)
    requires forall name <- buildNames :: Lower(name) == name
    requires 0 <= Trunc(issuedAtMs) < Pow10(MAX_TIMESTAMP_DIGITS)
    ensures Authentic(mac, secret, AsNodeSees(wire, buildNames),
                      Credential(mac, secret, SignerInputs(wire, buildNames, issuedAtMs, digest)),
                      Trunc(issuedAtMs), digest)
  {
    var n: nat := Trunc(issuedAtMs);
    var signer := SignerInputs(wire, buildNames, issuedAtMs, digest);
    CoveredNamesAreLowerCase(buildNames);
    PoolInputsAreSignerInputs(wire, buildNames, n as real, digest);
    var pool := InputsFromRequest(AsNodeSees(wire, buildNames), n as real, digest);
    TruncOfInteger(n);
    SameAuthorityIff(signer.authority, pool.authority);
    assert SameCoveredInputs(signer, pool);
    hide InputsFromRequest, AsNodeSees, SignerInputs, Transcript;
    TranscriptUniquelyDecodable(signer, pool, "");
    assert Transcript(signer) + "" == Transcript(signer);
  }

  /**
   A credential minted for a request is judged, by the pool that receives the request, on the
   request's method and the clock alone, in that order: inside the window it is trusted and yields
   the signer's body digest.
   */
  lemma HonestProofVerifies(
      mac: Mac, secret: string, wire: WireRequest, buildNames: seq<string>,
      issuedAtMs: real, digest: Field, nowMs: real, window: real)
    requires ValidWire(wire) && IsDigest(digest)
    requires forall name <- buildNames :: Lower(name) == name
    requires 0 <= Trunc(issuedAtMs) < Pow10(MAX_TIMESTAMP_DIGITS)
    ensures var verdict := VerifyDispatchProof(
              mac, secret, AsNodeSees(wire, buildNames),
              Credential(mac, secret, SignerInputs(wire, buildNames, issuedAtMs, digest)), nowMs, window);
            var fits := digest.Absent?
                        || (!SameLetters(wire.httpMethod, "GET") && !SameLetters(wire.httpMethod, "HEAD"));
            var age := nowMs - Trunc(issuedAtMs) as real;
            && (verdict == Untrusted(BodyUnexpected) <==> !fits)
            && (verdict == Untrusted(Stale) <==> fits && age > window)
            && (verdict == Untrusted(Premature) <==> fits && age <= window && age < -window)
            && (verdict == Trusted(digest) <==> fits && -window <= age <= window)
  {
    var signer := SignerInputs(wire, buildNames, issuedAtMs, digest);
    var request := AsNodeSees(wire, buildNames);
    HonestIsAuthentic(mac, secret, wire, buildNames, issuedAtMs, digest);
    AuthenticParses(mac, secret, request, Credential(mac, secret, signer), Trunc(issuedAtMs), digest);
    BodylessIff(request);
    hide Credential, SignerInputs, InputsFromRequest, ParseDispatchProof, BodylessMethod;
  }

  /** A request Node gives without method or target is read as `GET /`. */
  lemma MissingLineIsGetRoot(request: NodeRequest, issuedAtMs: real, digest: Field)
    ensures InputsFromRequest(request.(httpMethod := None), issuedAtMs, digest)
         == InputsFromRequest(request.(httpMethod := Some("GET")), issuedAtMs, digest)
    ensures InputsFromRequest(request.(target := None), issuedAtMs, digest)
         == InputsFromRequest(request.(target := Some("/")), issuedAtMs, digest)
  {
  }

  lemma LowerFixesLowerCase(name: string)
    requires NoCapitals(name)
    ensures Lower(name) == name
  {
  }

  lemma CoveredNamesAreLowerCase(buildNames: seq<string>)
    requires forall name <- buildNames :: Lower(name) == name
    ensures forall name <- CoveredNames(buildNames) :: Lower(name) == name
  {
    CoveredNamesCanonical(buildNames, buildNames);
    VocabularyIsLowerCase();
    ContextHeadersAreLowerCase();
    forall name | name in CoveredNames(buildNames) ensures Lower(name) == name {
      if name !in buildNames {
        LowerFixesLowerCase(name);
      }
    }
  }

  /** The credential presents this tag, whatever mint time and digest it puts around it. */
  predicate CarriesTag(presented: string, tag: string) {
    var parts := Split(presented, '.');
    |parts| == 4 && parts[3] == tag
  }

  /** The pool's inputs at the mint time and digest a credential states. */
  function PoolInputs(request: NodeRequest, parsed: Parsed): Inputs {
    InputsFromRequest(request, parsed.issuedAtMs as real, parsed.bodyDigest)
  }

  /**
   Trust binds, whatever text is presented: if a pool trusts a credential that carries a signer's
   tag, the text is that signer's own credential, unedited, and the pool's view of the request
   agrees with every input the signer covered. The MAC is only asked not to collide on the
   signer's transcript and the pool's.
   */
  lemma TrustBindsCoveredInputs(
      mac: Mac, secret: string, request: NodeRequest, signer: Inputs, presented: string,
      nowMs: real, window: real)
    requires IsDigest(signer.bodyDigest)
    requires CarriesTag(presented, mac(secret, Transcript(signer)))
    requires VerifyDispatchProof(mac, secret, request, presented, nowMs, window).Trusted?
    requires var pool := PoolInputs(request, ParseDispatchProof(presented).value);
             mac(secret, Transcript(signer)) == mac(secret, Transcript(pool))
             ==> Transcript(signer) == Transcript(pool)
    ensures presented == Credential(mac, secret, signer)
    ensures SameCoveredInputs(signer, PoolInputs(request, ParseDispatchProof(presented).value))
    ensures -window <= nowMs - Trunc(signer.issuedAtMs) as real <= window
  {
    hide Transcript, SameCoveredInputs, InputsFromRequest, CredentialText;
    var parsed := ParseDispatchProof(presented).value;
    var pool := PoolInputs(request, parsed);
    PoolStates(request, parsed);
    SplitOfCredential(parsed.issuedAtMs, parsed.bodyDigest, mac(secret, Transcript(pool)));
    assert mac(secret, Transcript(signer)) == mac(secret, Transcript(pool));
    assert Transcript(signer) + "" == Transcript(signer);
    TranscriptUniquelyDecodable(signer, pool, "");
    SameMintTimeAndDigest(signer, pool);
  }

  lemma PoolStates(request: NodeRequest, parsed: Parsed)
    ensures Trunc(PoolInputs(request, parsed).issuedAtMs) == parsed.issuedAtMs
    ensures PoolInputs(request, parsed).bodyDigest == parsed.bodyDigest
  {
    TruncOfInteger(parsed.issuedAtMs);
  }

  lemma SameMintTimeAndDigest(a: Inputs, b: Inputs)
    requires SameCoveredInputs(a, b)
    ensures Trunc(a.issuedAtMs) == Trunc(b.issuedAtMs) && a.bodyDigest == b.bodyDigest
  {
  }

  // ---------------------------------------------------------------- the signer's loop

  /** An HMAC in progress: the octets absorbed so far, which are a tag and the fields after it. */
  class Hmac {
    const secret: string
    var absorbed: string
    ghost const tag: string
    ghost var fields: seq<Field>

    ghost predicate Valid()
      reads this
    {
      absorbed == tag + FrameAll(fields)
    }

    constructor (secret: string, tag: string)
      ensures Valid() && this.secret == secret && this.tag == tag && fields == []
    {
      this.secret := secret;
      this.tag := tag;
      absorbed := tag;
      fields := [];
    }

    method Update(octets: string)
      modifies this`absorbed
      ensures absorbed == old(absorbed) + octets
    {
      absorbed := absorbed + octets;
    }

    method UpdateProofField(value: Field)
      requires Valid()
      modifies this
      ensures Valid() && fields == old(fields) + [value]
      ensures absorbed == old(absorbed) + Frame(value)
    {
      match value {
        case Absent =>
          Update("-\n");
        case Present(octets) =>
          var header := "+" + Render(|octets|) + "\n";
          Update(header);
          Update(octets);
          ConcatAssociative(old(absorbed), header, octets);
          FrameByHeader(octets);
      }
      FrameAllSnoc(fields, value);
      ConcatAssociative(tag, FrameAll(fields), Frame(value));
      fields := fields + [value];
    }
  }

  lemma FrameByHeader(octets: string)
    ensures ("+" + Render(|octets|) + "\n") + octets == Frame(Present(octets))
  {
    ConcatAssociative("+" + Render(|octets|), "\n", octets);
    ConcatAssociative("+", Render(|octets|), "\n" + octets);
  }

  method AbsorbFixedFields(hmac: Hmac, inputs: Inputs)
    requires hmac.Valid() && hmac.fields == []
    modifies hmac
    ensures hmac.Valid() && hmac.fields == FixedFields(inputs)
  {
    hmac.UpdateProofField(Present(Upper(inputs.httpMethod)));
    hmac.UpdateProofField(inputs.target);
    hmac.UpdateProofField(AsciiLower(inputs.authority));
    hmac.UpdateProofField(Present(IntegerString(Trunc(inputs.issuedAtMs))));
    hmac.UpdateProofField(inputs.bodyDigest);
    hmac.UpdateProofField(Present(Render(|CoveredNames(inputs.buildNames)|)));
  }

  lemma PairFieldsSnoc(names: seq<string>, k: nat, headers: map<string, Field>)
    requires k < |names|
    ensures PairFields(names[..k + 1], headers)
         == PairFields(names[..k], headers) + [Present(names[k]), HeaderField(headers, names[k])]
  {
  }

  lemma AppendTwo(before: seq<Field>, fs: seq<Field>, a: Field, b: Field)
    ensures ((before + fs) + [a]) + [b] == before + (fs + [a, b])
  {
  }

  method AbsorbPairs(hmac: Hmac, names: seq<string>, headers: map<string, Field>)
    requires hmac.Valid()
    modifies hmac
    ensures hmac.Valid() && hmac.fields == old(hmac.fields) + PairFields(names, headers)
  {
    ghost var before := hmac.fields;
    for k := 0 to |names|
      invariant hmac.Valid()
      invariant hmac.fields == before + PairFields(names[..k], headers)
    {
      var value := HeaderField(headers, names[k]);
      hmac.UpdateProofField(Present(names[k]));
      hmac.UpdateProofField(value);
      PairFieldsSnoc(names, k, headers);
      AppendTwo(before, PairFields(names[..k], headers), Present(names[k]), value);
    }
    assert names[..|names|] == names;
  }

  method ComputeDispatchProof(mac: Mac, secret: string, inputs: Inputs) returns (credential: string)
    requires IsDigest(inputs.bodyDigest)
    ensures credential == Credential(mac, secret, inputs)
  {
    var names := CoveredNames(inputs.buildNames);
    var issuedAt := IntegerString(Trunc(inputs.issuedAtMs));
    var digest := DigestText(inputs.bodyDigest);
    var hmac := new Hmac(secret, DOMAIN_TAG);
    AbsorbFixedFields(hmac, inputs);
    AbsorbPairs(hmac, names, inputs.headers);
    credential := CredentialText(issuedAt, digest, mac(secret, hmac.absorbed));
  }
}
