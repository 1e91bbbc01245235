/** What preparation adds to a request and redirect normalisation takes back out of a target. */
module RedirectLocales {
  import opened Wrappers
  import opened Ascii
  import opened Paths
  import opened RedirectRetry

  /** The page's path where it is appended to something: the root is the empty text there. */
  function Tail(page: string): string {
    if page == SLASH then "" else page
  }

  // ---- The prefix -----------------------------------------------------------------------------

  /** A locale as configured, found under its own spelling. */
  predicate Configured(locale: string, locales: seq<string>) {
    IsLocale(locale, locales) && FindLocale(locale, locales) == Some(locale)
  }

  /**
   * The added prefix comes off again: behind the base path the prefixed URL is the same page in
   * the added locale, and nothing else of the URL has changed.
   */
  lemma PrefixComesOff(helpers: Helpers, url: Url, cookie: Option<string>, language: Option<string>, manifest: Manifest)
    requires Rooted(url.pathname) && manifest.i18n.Some?
    requires var added := PrefixRequestLocale(helpers, url, cookie, language, manifest).1;
             added.Some? && Configured(added.value, manifest.i18n.value.locales)
    ensures var (prefixed, added) := PrefixRequestLocale(helpers, url, cookie, language, manifest);
            && prefixed == url.(pathname := prefixed.pathname)
            && NormalizeLocalePath(StripBasePath(prefixed.pathname, manifest.basePath), manifest.i18n.value.locales)
               == LocalePath(added, StripBasePath(url.pathname, manifest.basePath))
  {
    hide NormalizeLocalePath, FindLocale;
    var path := StripBasePath(url.pathname, manifest.basePath);
    var (prefixed, added) := PrefixRequestLocale(helpers, url, cookie, language, manifest);
    var scoped := SLASH + added.value;
    StripIsRooted(url.pathname, manifest.basePath);
    var tail := if path != SLASH then path else if manifest.trailingSlash then SLASH else "";
    assert scoped + "" == scoped;
    assert prefixed.pathname == manifest.basePath + (scoped + tail) by {
      assert manifest.basePath + SLASH + added.value == manifest.basePath + scoped;
      Strings.ConcatAssociative(manifest.basePath, scoped, tail);
    }
    StripsWhatWasPut(manifest.basePath, scoped + tail);
    DetectsFirstSegment(added.value, tail, manifest.i18n.value.locales);
  }

  /**
   * An unprefixed page is prepared as that page in the host's default locale, and preparing the
   * result adds nothing more; only an index page that detects another locale is left as it is.
   */
  lemma PagePreparedInDefaultLocale(helpers: Helpers, url: Url, cookie: Option<string>, language: Option<string>,
                                    manifest: Manifest)
    requires Rooted(url.pathname) && manifest.i18n.Some?
    requires var path := StripBasePath(url.pathname, manifest.basePath);
             !("/_next/" <= path) && !("/api/" <= path) && Unprefixed(path, manifest.i18n.value.locales)
    requires Configured(DefaultLocale(helpers, manifest.i18n.value, url.hostname), manifest.i18n.value.locales)
    ensures var path, i18n := StripBasePath(url.pathname, manifest.basePath), manifest.i18n.value;
            var chosen := DefaultLocale(helpers, i18n, url.hostname);
            var (prefixed, added) := PrefixRequestLocale(helpers, url, cookie, language, manifest);
            var left := (path == SLASH || path == "/index") && i18n.localeDetection
                        && helpers.detectLocale(path, url.hostname, cookie, language) != chosen;
            if left then prefixed == url && added == None
            else
              && added == Some(chosen)
              && NormalizeLocalePath(StripBasePath(prefixed.pathname, manifest.basePath), i18n.locales)
                 == LocalePath(Some(chosen), path)
              && PrefixRequestLocale(helpers, prefixed, cookie, language, manifest) == (prefixed, None)
  {
    hide NormalizeLocalePath, StripBasePath, DefaultLocale, FindLocale;
    var (prefixed, added) := PrefixRequestLocale(helpers, url, cookie, language, manifest);
    ConfiguredMeansSome(DefaultLocale(helpers, manifest.i18n.value, url.hostname), manifest.i18n.value.locales);
    if added.Some? {
      PrefixComesOff(helpers, url, cookie, language, manifest);
    }
  }

  lemma ConfiguredMeansSome(locale: string, locales: seq<string>)
    requires Configured(locale, locales)
    ensures locales != []
  {
  }

  /** A data request stands for its page: the page's data URL leads back to the page's own path. */
  lemma DataRequestNamesItsPage(manifest: Manifest, page: string)
    requires manifest.buildId != "" && Rooted(page) && page != SLASH && page != "/index"
    ensures var name := page[1..];
            var dataPath := DataPrefix(manifest) + (name + JSON);
            var plain := manifest.basePath + page;
            && IsDataRequest(manifest, dataPath)
            && DataPagePath(manifest, dataPath)
               == if manifest.trailingSlash && !EndsWith(plain, SLASH) then plain + SLASH else plain
  {
    var name := page[1..];
    var prefix := DataPrefix(manifest);
    var dataPath := prefix + (name + JSON);
    var tail := From(dataPath, |prefix|);
    assert tail == name + JSON;
    assert tail[..|tail| - |JSON|] == name;
    assert dataPath[|dataPath| - |JSON|..] == JSON;
    assert page == SLASH + name;
    assert name != "index" by {
      assert SLASH + "index" == "/index";
    }
    assert |manifest.basePath + page| > 1;
  }

  /** The root page's data URL is `index.json`: it stands for the base path, with the configured slash. */
  lemma DataRequestNamesTheRoot(manifest: Manifest)
    requires manifest.buildId != ""
    ensures var dataPath := DataPrefix(manifest) + ("index" + JSON);
            && IsDataRequest(manifest, dataPath)
            && DataPagePath(manifest, dataPath)
               == if manifest.basePath == "" then SLASH
                  else if manifest.trailingSlash && !EndsWith(manifest.basePath, SLASH) then manifest.basePath + SLASH
                  else manifest.basePath
  {
    var prefix := DataPrefix(manifest);
    var dataPath := prefix + ("index" + JSON);
    var tail := From(dataPath, |prefix|);
    assert tail == "index" + JSON;
    assert tail[..|tail| - |JSON|] == "index";
    assert dataPath[|dataPath| - |JSON|..] == JSON;
    assert manifest.basePath + "" == manifest.basePath;
    assert manifest.basePath == SLASH ==> EndsWith(manifest.basePath, SLASH);
  }

  /** Collapsing slashes keeps the segments of a path, in order. */
  lemma {:induction false} CollapseKeepsSegments(path: string)
    ensures Split(CollapseSlashes(path))[0] == Split(path)[0]
    ensures NonEmpty(Split(CollapseSlashes(path))[1..]) == NonEmpty(Split(path)[1..])
  {
    if |path| >= 2 {
      var rest := path[1..];
      CollapseKeepsSegments(rest);
      assert path == [path[0]] + rest;
      if path[0] == '/' && path[1] == '/' {
        SplitAfterSlash(rest);
        FirstIsEmpty(rest);
      } else if path[0] == '/' {
        SplitAfterSlash(rest);
        SplitAfterSlash(CollapseSlashes(rest));
        NonEmptyCons(Split(rest));
        NonEmptyCons(Split(CollapseSlashes(rest)));
      } else {
        SplitAfterOther(path[0], rest);
        SplitAfterOther(path[0], CollapseSlashes(rest));
      }
    }
  }

  lemma SplitAfterSlash(rest: string)
    ensures Split(['/'] + rest) == [""] + Split(rest)
  {
    assert (['/'] + rest)[1..] == rest;
  }

  lemma SplitAfterOther(c: char, rest: string)
    requires c != '/'
    ensures Split([c] + rest) == [[c] + Split(rest)[0]] + Split(rest)[1..]
  {
    assert ([c] + rest)[1..] == rest;
  }

  lemma FirstIsEmpty(path: string)
    requires Rooted(path)
    ensures Split(path)[0] == "" && NonEmpty(Split(path)) == NonEmpty(Split(path)[1..])
  {
    SplitAfterSlash(path[1..]);
    assert path == ['/'] + path[1..];
  }

  lemma NonEmptyCons(parts: seq<string>)
    requires parts != []
    ensures NonEmpty(parts) == (if parts[0] == "" then [] else [parts[0]]) + NonEmpty(parts[1..])
  {
  }

  // ---- The leak -------------------------------------------------------------------------------

  /** A target that carries the added locale, in any case, in front of some page. */
  predicate Leaks(target: string, basePath: string, segment: string, page: string, locales: seq<string>, added: string) {
    && Rooted(page) && IsLocale(segment, locales) && Lower(segment) == Lower(added)
    && target == basePath + (SLASH + segment + Tail(page))
  }

  lemma LeakIsDetected(target: string, basePath: string, segment: string, page: string, locales: seq<string>, added: string)
    requires Leaks(target, basePath, segment, page, locales, added)
    ensures NormalizeLocalePath(StripBasePath(target, basePath), locales) == LocalePath(FindLocale(segment, locales), page)
    ensures FindLocale(segment, locales).Some? && Lower(FindLocale(segment, locales).value) == Lower(added)
    ensures added != "" && locales != []
  {
    StripsWhatWasPut(basePath, SLASH + segment + Tail(page));
    DetectsFirstSegment(segment, Tail(page), locales);
    assert |Lower(segment)| == |segment| && |Lower(added)| == |added|;
  }

  /**
   * A rule redirect of an unprefixed request that captured the added locale loses exactly that
   * locale: the answer is the same URL without it.
   */
  lemma LeakedLocaleIsStripped(redirect: Redirect, requestUrl: Url, i18n: I18n, basePath: string, added: string,
                               segment: string, page: string)
    requires redirect.url.origin == requestUrl.origin
    requires Unprefixed(StripBasePath(requestUrl.pathname, basePath), i18n.locales)
    requires Leaks(redirect.url.pathname, basePath, segment, page, i18n.locales, added)
    requires page != StripBasePath(requestUrl.pathname, basePath)
    ensures NormalizeI18nRedirect(redirect, requestUrl, Some(i18n), basePath, Some(added))
         == Rewrite(redirect.url.(pathname := OrRoot(basePath + Tail(page))))
  {
    hide NormalizeLocalePath, StripBasePath, FindLocale, IsLocale, Lower;
    LeakIsDetected(redirect.url.pathname, basePath, segment, page, i18n.locales, added);
  }

  /** The target is a locale's root with a stray slash: on another origin, or a 307 from the root. */
  ghost predicate TrimsRootSlash(redirect: Redirect, requestUrl: Url, locales: seq<string>, basePath: string, locale: string) {
    && Configured(locale, locales)
    && StripBasePath(redirect.url.pathname, basePath) == SLASH + locale + SLASH
    && (redirect.url.origin != requestUrl.origin
        || (redirect.status == 307 && StripBasePath(requestUrl.pathname, basePath) == SLASH))
  }

  /** The target is another page of the same origin behind the locale preparation added. */
  ghost predicate StripsLeak(redirect: Redirect, requestUrl: Url, locales: seq<string>, basePath: string,
                             added: Option<string>, page: string, segment: string)
  {
    && redirect.url.origin == requestUrl.origin && added.Some?
    && Rooted(page) && page != StripBasePath(requestUrl.pathname, basePath)
    && SamePageInLocale(page, StripBasePath(redirect.url.pathname, basePath), locales, segment)
    && Lower(segment) == Lower(added.value)
  }

  /** What a rewritten redirect answers: the target without its last slash, or without the locale. */
  ghost predicate IsRewriteTo(redirect: Redirect, requestUrl: Url, locales: seq<string>, basePath: string,
                              added: Option<string>, url: Url)
  {
    var target := redirect.url;
    && Unprefixed(StripBasePath(requestUrl.pathname, basePath), locales)
    && ((exists locale ::
           && TrimsRootSlash(redirect, requestUrl, locales, basePath, locale)
           && target.pathname != "" && url == target.(pathname := target.pathname[..|target.pathname| - 1]))
        || (exists page, segment ::
              && StripsLeak(redirect, requestUrl, locales, basePath, added, page, segment)
              && url == target.(pathname := OrRoot(basePath + Tail(page)))))
  }

  /** The answer when the target is a locale in front of a page. */
  lemma AnswerToLocalePage(redirect: Redirect, requestUrl: Url, i18n: I18n, basePath: string, added: Option<string>,
                           page: string, segment: string)
    requires Rooted(requestUrl.pathname) && Rooted(redirect.url.pathname) && Rooted(page)
    requires Unprefixed(StripBasePath(requestUrl.pathname, basePath), i18n.locales)
    requires SamePageInLocale(page, StripBasePath(redirect.url.pathname, basePath), i18n.locales, segment)
    ensures IsLocale(segment, i18n.locales)
    ensures var answer := NormalizeI18nRedirect(redirect, requestUrl, Some(i18n), basePath, added);
            var locale := FindLocale(segment, i18n.locales).value;
            var target := redirect.url;
            if TrimsRootSlash(redirect, requestUrl, i18n.locales, basePath, locale) then
              answer == Rewrite(target.(pathname := target.pathname[..|target.pathname| - 1]))
            else if StripsLeak(redirect, requestUrl, i18n.locales, basePath, added, page, segment) then
              answer == Rewrite(target.(pathname := OrRoot(basePath + Tail(page))))
            else
              answer.Keep? || answer.Retry?
  {
    hide NormalizeLocalePath, StripBasePath, SamePageInLocale;
    var origPath := StripBasePath(requestUrl.pathname, basePath);
    var targetPath := StripBasePath(redirect.url.pathname, basePath);
    LocaleIsFound(page, targetPath, i18n.locales, segment);
    var locale := FindLocale(segment, i18n.locales).value;
    SamePageIsDetected(page, targetPath, i18n.locales, segment);
    ConfiguredSpelling(segment, i18n.locales);
    RootOfLocale(page, targetPath, i18n.locales, segment, locale);
    AddedIsNotEmpty(segment, locale, added);
    hide FindLocale, IsLocale, Lower;
  }

  lemma RootOfLocale(page: string, targetPath: string, locales: seq<string>, segment: string, locale: string)
    requires SamePageInLocale(page, targetPath, locales, segment) && Rooted(page) && SlashFree(locale)
    requires |locale| == |segment|
    ensures targetPath == SLASH + locale + SLASH ==> page == SLASH
    ensures IsLocale(segment, locales)
  {
    if targetPath == SLASH + locale + SLASH && targetPath == SLASH + segment + page {
      assert |targetPath| == |segment| + 2;
    }
  }

  lemma AddedIsNotEmpty(segment: string, locale: string, added: Option<string>)
    requires segment != "" && Lower(segment) == Lower(locale)
    ensures added.Some? && Lower(segment) == Lower(added.value) ==> added.value != ""
    ensures |segment| == |locale|
  {
    assert |Lower(segment)| == |segment| && |Lower(locale)| == |locale|;
    assert added.Some? ==> |Lower(added.value)| == |added.value|;
  }

  /** Rewritten with a stray root slash trimmed, or a leaked locale stripped, exactly when there is one. */
  lemma RewrittenIff(redirect: Redirect, requestUrl: Url, i18n: I18n, basePath: string, added: Option<string>, url: Url)
    requires Rooted(requestUrl.pathname) && Rooted(redirect.url.pathname)
    ensures NormalizeI18nRedirect(redirect, requestUrl, Some(i18n), basePath, added) == Rewrite(url)
       <==> IsRewriteTo(redirect, requestUrl, i18n.locales, basePath, added, url)
  {
    if NormalizeI18nRedirect(redirect, requestUrl, Some(i18n), basePath, added) == Rewrite(url) {
      RewriteHasReason(redirect, requestUrl, i18n, basePath, added, url);
    }
    if IsRewriteTo(redirect, requestUrl, i18n.locales, basePath, added, url) {
      ReasonMeansRewrite(redirect, requestUrl, i18n, basePath, added, url);
    }
  }

  lemma RewriteHasReason(redirect: Redirect, requestUrl: Url, i18n: I18n, basePath: string, added: Option<string>, url: Url)
    requires Rooted(requestUrl.pathname) && Rooted(redirect.url.pathname)
    requires NormalizeI18nRedirect(redirect, requestUrl, Some(i18n), basePath, added) == Rewrite(url)
    ensures IsRewriteTo(redirect, requestUrl, i18n.locales, basePath, added, url)
  {
    hide NormalizeLocalePath, StripBasePath, FindLocale, IsLocale, SamePageInLocale, TrimsRootSlash, StripsLeak, Lower;
    var targetPath := StripBasePath(redirect.url.pathname, basePath);
    StripIsRooted(redirect.url.pathname, basePath);
    var segment := DetectedIsPrefix(targetPath, i18n.locales);
    var page := NormalizeLocalePath(targetPath, i18n.locales).pathname;
    AnswerToLocalePage(redirect, requestUrl, i18n, basePath, added, page, segment);
  }

  lemma ReasonMeansRewrite(redirect: Redirect, requestUrl: Url, i18n: I18n, basePath: string, added: Option<string>, url: Url)
    requires Rooted(requestUrl.pathname) && Rooted(redirect.url.pathname)
    requires IsRewriteTo(redirect, requestUrl, i18n.locales, basePath, added, url)
    ensures NormalizeI18nRedirect(redirect, requestUrl, Some(i18n), basePath, added) == Rewrite(url)
  {
    hide NormalizeI18nRedirect, NormalizeLocalePath, StripBasePath, FindLocale, Lower;
    var targetPath := StripBasePath(redirect.url.pathname, basePath);
    if locale :| TrimsRootSlash(redirect, requestUrl, i18n.locales, basePath, locale) {
      AnswerToLocalePage(redirect, requestUrl, i18n, basePath, added, SLASH, locale);
      LeakIsNoRootSlash(redirect, requestUrl, i18n.locales, basePath, added, locale);
    } else {
      var page, segment :| StripsLeak(redirect, requestUrl, i18n.locales, basePath, added, page, segment)
        && url == redirect.url.(pathname := OrRoot(basePath + Tail(page)));
      AnswerToLocalePage(redirect, requestUrl, i18n, basePath, added, page, segment);
    }
  }

  /** A stray root slash is not a leak as well, so the two rewrites never compete. */
  lemma LeakIsNoRootSlash(redirect: Redirect, requestUrl: Url, locales: seq<string>, basePath: string,
                          added: Option<string>, locale: string)
    requires TrimsRootSlash(redirect, requestUrl, locales, basePath, locale)
    ensures forall page, segment :: !StripsLeak(redirect, requestUrl, locales, basePath, added, page, segment)
  {
    hide StripBasePath, NormalizeLocalePath, FindLocale, Lower;
    var targetPath := StripBasePath(redirect.url.pathname, basePath);
    SamePageIsDetected(SLASH, targetPath, locales, locale);
    forall page, segment
      ensures !StripsLeak(redirect, requestUrl, locales, basePath, added, page, segment)
    {
      if StripsLeak(redirect, requestUrl, locales, basePath, added, page, segment) {
        SamePageIsDetected(page, targetPath, locales, segment);
      }
    }
  }

  /**
   * Every other redirect is kept as it is: to another origin in its locale, a locale-detection
   * 307, to a different locale, to no locale, or of a request that named a locale itself.
   */
  lemma KeptIff(redirect: Redirect, requestUrl: Url, i18n: I18n, basePath: string, added: Option<string>)
    requires Rooted(requestUrl.pathname) && Rooted(redirect.url.pathname)
    ensures NormalizeI18nRedirect(redirect, requestUrl, Some(i18n), basePath, added).Keep?
       <==> !IsArtefact(redirect, requestUrl, i18n.locales, basePath)
            && forall url :: !IsRewriteTo(redirect, requestUrl, i18n.locales, basePath, added, url)
  {
    hide NormalizeI18nRedirect, IsArtefact, IsRewriteTo;
    RetriedIff(redirect, requestUrl, Some(i18n), basePath, added);
    forall url
      ensures NormalizeI18nRedirect(redirect, requestUrl, Some(i18n), basePath, added) == Rewrite(url)
         <==> IsRewriteTo(redirect, requestUrl, i18n.locales, basePath, added, url)
    {
      RewrittenIff(redirect, requestUrl, i18n, basePath, added, url);
    }
  }

  /** The same for a `Location` header: the leaked locale goes, and nothing but the query may be added. */
  lemma LeakedLocationIsStripped(target: Url, requestUrl: Url, i18n: I18n, basePath: string, added: string,
                                 segment: string, page: string)
    requires target.origin == requestUrl.origin
    requires Unprefixed(StripBasePath(requestUrl.pathname, basePath), i18n.locales)
    requires Leaks(target.pathname, basePath, segment, page, i18n.locales, added)
    ensures var fixed := NormalizeLocationRedirect(target, requestUrl, Some(i18n), basePath, Some(added));
            && fixed.pathname == OrRoot(basePath + Tail(page))
            && fixed == target.(pathname := fixed.pathname, search := fixed.search)
            && (target.search != "" ==> fixed.search == target.search)
  {
    hide NormalizeLocalePath, StripBasePath, FindLocale, IsLocale, Lower, IsSlashFlip;
    LeakIsDetected(target.pathname, basePath, segment, page, i18n.locales, added);
  }

  /** A trailing-slash redirect of an unprefixed page never shows the internal locale and keeps the query. */
  lemma SlashFlipKeepsQuery(requestUrl: Url, target: Url, i18n: I18n, basePath: string, added: Option<string>,
                            segment: string, page: string)
    requires target.origin == requestUrl.origin && requestUrl.pathname == basePath + page && page != SLASH
    requires Rooted(page) && Unprefixed(page, i18n.locales)
    requires IsLocale(segment, i18n.locales) && target.pathname == basePath + (SLASH + segment + (page + SLASH))
    ensures var fixed := NormalizeLocationRedirect(target, requestUrl, Some(i18n), basePath, added);
            && fixed.pathname == requestUrl.pathname + SLASH
            && fixed.search == if target.search == "" then requestUrl.search else target.search
  {
    hide NormalizeLocalePath, StripBasePath, FindLocale, IsLocale, Lower;
    StripsWhatWasPut(basePath, page);
    StripsWhatWasPut(basePath, SLASH + segment + (page + SLASH));
    DetectedLocaleOf(segment, page + SLASH, i18n.locales);
    assert basePath + (page + SLASH) == basePath + page + SLASH;
  }

  lemma DetectedLocaleOf(segment: string, tail: string, locales: seq<string>)
    requires IsLocale(segment, locales) && Rooted(tail)
    ensures locales != [] && FindLocale(segment, locales).Some?
    ensures NormalizeLocalePath(SLASH + segment + tail, locales) == LocalePath(FindLocale(segment, locales), tail)
  {
    DetectsFirstSegment(segment, tail, locales);
  }
}
