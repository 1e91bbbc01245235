/** Does a Cache-Control value give a shared cache a window to serve without revalidating? */
module CacheFreshness {
  import opened Wrappers
  import opened Ascii
  import opened Strings
  import opened CacheControl
  import Decimal

  /** `/^\d+$/.test(value) && Number(value) > 0` */
  predicate PositiveSeconds(value: string) {
    |value| > 0 && Decimal.AllDigits(value) && Decimal.Value(value) > 0
  }

  predicate HasUnqualified(ds: seq<Directive>, name: string) {
    exists i :: 0 <= i < |ds| && ds[i] == Directive(name, None)
  }

  predicate HasValued(ds: seq<Directive>, name: string) {
    exists i :: 0 <= i < |ds| && ds[i].name == name && ds[i].value.Some?
  }

  predicate GrantsPositiveSeconds(ds: seq<Directive>, name: string) {
    exists i :: 0 <= i < |ds| && ds[i].name == name && ds[i].value.Some? && PositiveSeconds(ds[i].value.value)
  }

  predicate HasUnqualifiedCacheControlDirective(cacheControl: string, name: string) {
    HasUnqualified(Parse(cacheControl), Lower(name))
  }

  predicate GrantsFreshness(ds: seq<Directive>) {
    if HasUnqualified(ds, "no-store") || HasUnqualified(ds, "no-cache") || HasUnqualified(ds, "private")
    then false
    else if HasValued(ds, "s-maxage") && GrantsPositiveSeconds(ds, "s-maxage") then true
    else if !HasValued(ds, "s-maxage") && GrantsPositiveSeconds(ds, "max-age") then true
    else GrantsPositiveSeconds(ds, "stale-while-revalidate") || GrantsPositiveSeconds(ds, "stale-if-error")
  }

  predicate GrantsSharedCacheFreshness(cacheControl: string) {
    GrantsFreshness(Parse(cacheControl))
  }

  /** Directive names the verdict looks at. */
  predicate Relevant(name: string) {
    || name == "no-store" || name == "no-cache" || name == "private" || name == "s-maxage"
    || name == "max-age" || name == "stale-while-revalidate" || name == "stale-if-error"
  }

  /** The relevant directives of a list, as a set. */
  ghost function RelevantOf(ds: seq<Directive>): set<Directive> {
    set d | d in ds && Relevant(d.name)
  }

  lemma RelevantMember(ds: seq<Directive>, d: Directive)
    requires Relevant(d.name)
    ensures d in RelevantOf(ds) <==> d in ds
  {
  }

  lemma SameRelevantSameAnswers(xs: seq<Directive>, ys: seq<Directive>, name: string)
    requires RelevantOf(xs) <= RelevantOf(ys) && Relevant(name)
    ensures HasUnqualified(xs, name) ==> HasUnqualified(ys, name)
    ensures HasValued(xs, name) ==> HasValued(ys, name)
    ensures GrantsPositiveSeconds(xs, name) ==> GrantsPositiveSeconds(ys, name)
  {
    forall i | 0 <= i < |xs| && xs[i].name == name ensures xs[i] in ys {
      hide PositiveSeconds;
      RelevantMember(xs, xs[i]);
      RelevantMember(ys, xs[i]);
    }
  }

  lemma SameAnswers(xs: seq<Directive>, ys: seq<Directive>, name: string)
    requires RelevantOf(xs) == RelevantOf(ys) && Relevant(name)
    ensures HasUnqualified(xs, name) == HasUnqualified(ys, name)
    ensures HasValued(xs, name) == HasValued(ys, name)
    ensures GrantsPositiveSeconds(xs, name) == GrantsPositiveSeconds(ys, name)
  {
    hide HasUnqualified, HasValued, GrantsPositiveSeconds, RelevantOf, Relevant;
    SameRelevantSameAnswers(xs, ys, name);
    SameRelevantSameAnswers(ys, xs, name);
  }

  /** The verdict is a function of the set of relevant directives. */
  lemma VerdictDependsOnRelevantSet(xs: seq<Directive>, ys: seq<Directive>)
    requires RelevantOf(xs) == RelevantOf(ys)
    ensures GrantsFreshness(xs) == GrantsFreshness(ys)
  {
    hide HasUnqualified, HasValued, GrantsPositiveSeconds, RelevantOf;
    SameAnswers(xs, ys, "no-store");
    SameAnswers(xs, ys, "no-cache");
    SameAnswers(xs, ys, "private");
    SameAnswers(xs, ys, "s-maxage");
    SameAnswers(xs, ys, "max-age");
    SameAnswers(xs, ys, "stale-while-revalidate");
    SameAnswers(xs, ys, "stale-if-error");
  }

  // ---------------------------------------------------------------- on header text

  ghost predicate AllEndUnquoted(texts: seq<string>) {
    forall i :: 0 <= i < |texts| ==> EndsUnquoted(texts[i])
  }

  lemma {:induction false} ParseEachHolds(texts: seq<string>, d: Directive)
    ensures d in ParseEach(texts) <==> exists i :: 0 <= i < |texts| && d in Parse(texts[i])
  {
    if |texts| > 0 {
      hide Parse;
      ParseEachHolds(texts[1..], d);
      if i :| 0 <= i < |texts| && d in Parse(texts[i]) {
        assert i > 0 ==> texts[1..][i - 1] == texts[i];
      }
      if i :| 0 <= i < |texts[1..]| && d in Parse(texts[1..][i]) {
        assert texts[i + 1] == texts[1..][i];
      }
    }
  }

  /** Reordering, repeating or regrouping well-formed members cannot change the verdict. */
  lemma VerdictIgnoresOrder(xs: seq<string>, ys: seq<string>)
    requires AllEndUnquoted(xs) && AllEndUnquoted(ys)
    requires forall text :: text in xs <==> text in ys
    ensures GrantsSharedCacheFreshness(Join(xs, ",")) == GrantsSharedCacheFreshness(Join(ys, ","))
  {
    hide Parse, GrantsFreshness;
    ParseOfJoined(xs);
    ParseOfJoined(ys);
    forall d ensures d in ParseEach(xs) <==> d in ParseEach(ys) {
      ParseEachHolds(xs, d);
      ParseEachHolds(ys, d);
      if i :| 0 <= i < |xs| && d in Parse(xs[i]) {
        assert xs[i] in ys;
      }
      if i :| 0 <= i < |ys| && d in Parse(ys[i]) {
        assert ys[i] in xs;
      }
    }
    assert RelevantOf(ParseEach(xs)) == RelevantOf(ParseEach(ys));
    VerdictDependsOnRelevantSet(ParseEach(xs), ParseEach(ys));
  }

  /** A member none of whose directives the verdict looks at can be inserted anywhere. */
  lemma VerdictIgnoresUnrelated(before: string, extra: string, after: string)
    requires EndsUnquoted(before) && EndsUnquoted(extra)
    requires forall d :: d in Parse(extra) ==> !Relevant(d.name)
    ensures GrantsSharedCacheFreshness(before + "," + (extra + "," + after))
         == GrantsSharedCacheFreshness(before + "," + after)
  {
    hide Parse, GrantsFreshness, Relevant;
    ParseOfConcat(before, extra + "," + after);
    ParseOfConcat(extra, after);
    ParseOfConcat(before, after);
    var xs := Parse(before) + (Parse(extra) + Parse(after));
    var ys := Parse(before) + Parse(after);
    assert RelevantOf(xs) == RelevantOf(ys);
    VerdictDependsOnRelevantSet(xs, ys);
  }

  /** An unqualified veto closes the window whatever else the value grants. */
  lemma VetoWins(before: string, veto: string, after: string)
    requires EndsUnquoted(before) && EndsUnquoted(veto)
    requires HasUnqualified(Parse(veto), "no-store") || HasUnqualified(Parse(veto), "no-cache")
             || HasUnqualified(Parse(veto), "private")
    ensures !GrantsSharedCacheFreshness(before + "," + (veto + "," + after))
  {
    hide Parse;
    ParseOfConcat(before, veto + "," + after);
    ParseOfConcat(veto, after);
    var all := Parse(before) + (Parse(veto) + Parse(after));
    forall name | HasUnqualified(Parse(veto), name) ensures HasUnqualified(all, name) {
      var i :| 0 <= i < |Parse(veto)| && Parse(veto)[i] == Directive(name, None);
      assert all[|Parse(before)| + i] == Parse(veto)[i];
    }
  }

  /** A directive is unqualified in a joined value exactly when it is in one of the parts. */
  lemma UnqualifiedOfConcat(a: string, b: string, name: string)
    requires EndsUnquoted(a)
    ensures HasUnqualifiedCacheControlDirective(a + "," + b, name)
       <==> HasUnqualifiedCacheControlDirective(a, name) || HasUnqualifiedCacheControlDirective(b, name)
  {
    hide Parse;
    ParseOfConcat(a, b);
    var wanted := Directive(Lower(name), None);
    assert HasUnqualifiedCacheControlDirective(a, name) <==> wanted in Parse(a);
    assert HasUnqualifiedCacheControlDirective(b, name) <==> wanted in Parse(b);
    assert HasUnqualifiedCacheControlDirective(a + "," + b, name) <==> wanted in Parse(a) + Parse(b);
  }
}
