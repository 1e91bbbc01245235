/** The header names every build's proof covers, keyed in lower case. */
module HeaderVocabulary {
  import opened Ascii

  const INTERNAL_DISPATCH_HEADERS: seq<string> := [
    "x-output-id", "x-matched-pathname", "x-route-matches", "x-upstream-pool", "x-nextjs-ppr",
    "x-resolved-headers", "x-mw-response-status", "x-mw-evaluated", "x-invoke-path",
    "x-invoke-query", "x-external-rewrite-url", "x-adapter-k8s-execution-deadline",
    "x-mw-request-headers"
  ]
  const PROOF_COVERED_CONTEXT_HEADERS: seq<string> := ["x-forwarded-proto", "x-forwarded-host"]

  lemma VocabularyIsLowerCase()
    ensures forall i :: 0 <= i < |INTERNAL_DISPATCH_HEADERS| ==> NoCapitals(INTERNAL_DISPATCH_HEADERS[i])
  {
    FirstNamesAreLowerCase();
    MiddleNamesAreLowerCase();
    LastNamesAreLowerCase();
  }

  lemma FirstNamesAreLowerCase()
    ensures forall i :: 0 <= i < 5 ==> NoCapitals(INTERNAL_DISPATCH_HEADERS[i])
  {
  }

  lemma MiddleNamesAreLowerCase()
    ensures forall i :: 5 <= i < 10 ==> NoCapitals(INTERNAL_DISPATCH_HEADERS[i])
  {
  }

  lemma LastNamesAreLowerCase()
    ensures forall i :: 10 <= i < |INTERNAL_DISPATCH_HEADERS| ==> NoCapitals(INTERNAL_DISPATCH_HEADERS[i])
  {
  }

  lemma ContextHeadersAreLowerCase()
    ensures forall i :: 0 <= i < |PROOF_COVERED_CONTEXT_HEADERS| ==>
              NoCapitals(PROOF_COVERED_CONTEXT_HEADERS[i])
  {
  }
}
