/** The freshness verdict on header text: what each directive, as written, grants or vetoes. */
module CacheFreshnessText {
  import opened Wrappers
  import opened Ascii
  import opened CacheControl
  import opened CacheControlText
  import opened CacheFreshness
  import Decimal

  /** A whole number of seconds above zero: digits only, not all of them zero. */
  ghost predicate Positive(value: string) {
    && (forall i :: 0 <= i < |value| ==> '0' <= value[i] <= '9')
    && exists i :: 0 <= i < |value| && value[i] != '0'
  }

  /** The value a written directive carries, however it is spelt. */
  function ValueText(spelling: Spelling): Option<string> {
    match spelling
    case Bare => None
    case TokenValue(token) => Some(token)
    case QuotedValue(text) => Some(Plain(text))
  }

  /** A bare directive of this name, in any letter case, is among those written. */
  ghost predicate WrittenBare(ws: seq<Written>, name: string) {
    exists i :: 0 <= i < |ws| && SameLetters(ws[i].name, name) && ws[i].spelling.Bare?
  }

  ghost predicate WrittenWithValue(ws: seq<Written>, name: string) {
    exists i :: 0 <= i < |ws| && SameLetters(ws[i].name, name) && !ws[i].spelling.Bare?
  }

  ghost predicate WrittenPositive(ws: seq<Written>, name: string) {
    exists i :: 0 <= i < |ws| && SameLetters(ws[i].name, name) && !ws[i].spelling.Bare?
      && Positive(ValueText(ws[i].spelling).value)
  }

  lemma {:induction false} PositiveIff(value: string)
    ensures PositiveSeconds(value) <==> Positive(value)
  {
    if |value| > 0 && Decimal.AllDigits(value) {
      Decimal.RenderOfValue(value);
    }
  }

  /** The parsed list answers each question as the written list does. */
  lemma ParsedAnswersAsWritten(ws: seq<Written>, name: string)
    requires (forall i :: 0 <= i < |ws| ==> Legal(ws[i])) && NoCapitals(name)
    ensures var ds := Parse(PrintList(ws));
            && (HasUnqualified(ds, name) <==> WrittenBare(ws, name))
            && (HasValued(ds, name) <==> WrittenWithValue(ws, name))
            && (GrantsPositiveSeconds(ds, name) <==> WrittenPositive(ws, name))
  {
    ParseOfPrintList(ws);
    var ds := Parse(PrintList(ws));
    forall i | 0 <= i < |ws|
      ensures ds[i].name == name <==> SameLetters(ws[i].name, name)
      ensures ds[i].value == ValueText(ws[i].spelling)
      ensures ds[i].value.Some? ==> (PositiveSeconds(ds[i].value.value) <==> Positive(ds[i].value.value))
    {
      assert ds[i] == Meaning(ws[i]);
      LowerIs(ws[i].name, name);
      if ds[i].value.Some? {
        PositiveIff(ds[i].value.value);
      }
    }
    hide Parse, PrintList, SameLetters, PositiveSeconds, Positive, ValueText, Meaning, Legal;
    assert forall i :: 0 <= i < |ws| ==> (ds[i] == Directive(name, None) <==> ds[i].name == name && ds[i].value.None?);
  }

  /**
   The verdict on written text. A bare no-store, no-cache or private vetoes. Otherwise s-maxage,
   where it has a value, decides in place of max-age; stale-while-revalidate and stale-if-error
   grant on their own; and nothing else grants.
   */
  lemma FreshnessOfPrinted(ws: seq<Written>)
    requires forall i :: 0 <= i < |ws| ==> Legal(ws[i])
    ensures GrantsSharedCacheFreshness(PrintList(ws)) <==>
              && !WrittenBare(ws, "no-store") && !WrittenBare(ws, "no-cache") && !WrittenBare(ws, "private")
              && (|| WrittenPositive(ws, "s-maxage")
                  || (!WrittenWithValue(ws, "s-maxage") && WrittenPositive(ws, "max-age"))
                  || WrittenPositive(ws, "stale-while-revalidate")
                  || WrittenPositive(ws, "stale-if-error"))
  {
    hide HasUnqualified, HasValued, GrantsPositiveSeconds, Parse, WrittenBare, WrittenWithValue, WrittenPositive;
    hide NoCapitals, Legal, PrintList, SameLetters;
    VetoNamesAreLowerCase();
    GrantNamesAreLowerCase();
    ParsedAnswersAsWritten(ws, "no-store");
    ParsedAnswersAsWritten(ws, "no-cache");
    ParsedAnswersAsWritten(ws, "private");
    ParsedAnswersAsWritten(ws, "s-maxage");
    ParsedAnswersAsWritten(ws, "max-age");
    ParsedAnswersAsWritten(ws, "stale-while-revalidate");
    ParsedAnswersAsWritten(ws, "stale-if-error");
    WrittenPositiveHasValue(ws, "s-maxage");
  }

  lemma VetoNamesAreLowerCase()
    ensures NoCapitals("no-store") && NoCapitals("no-cache") && NoCapitals("private")
    ensures NoCapitals("s-maxage") && NoCapitals("max-age")
  {
  }

  lemma GrantNamesAreLowerCase()
    ensures NoCapitals("stale-while-revalidate") && NoCapitals("stale-if-error")
  {
  }

  lemma WrittenPositiveHasValue(ws: seq<Written>, name: string)
    ensures WrittenPositive(ws, name) ==> WrittenWithValue(ws, name)
  {
  }

  /** A directive is found unqualified exactly when it is written bare, under any letter case asked for. */
  lemma UnqualifiedOfPrinted(ws: seq<Written>, name: string)
    requires forall i :: 0 <= i < |ws| ==> Legal(ws[i])
    ensures HasUnqualifiedCacheControlDirective(PrintList(ws), name) <==> WrittenBare(ws, name)
  {
    LowerIsLower(name);
    ParsedAnswersAsWritten(ws, Lower(name));
    forall i | 0 <= i < |ws|
      ensures SameLetters(ws[i].name, Lower(name)) <==> SameLetters(ws[i].name, name)
    {
      SameLettersCompose(ws[i].name, name);
    }
  }

  lemma SameLettersCompose(a: string, b: string)
    ensures SameLetters(a, Lower(b)) <==> SameLetters(a, b)
  {
    LowerSameIff(a, b);
    LowerSameIff(a, Lower(b));
    assert Lower(Lower(b)) == Lower(b);
  }
}
