/** Which answer each resolution gets: every case of redirect handling, on the literal URLs. */
module RedirectAnswers {
  import opened Wrappers
  import opened Ascii
  import opened Paths
  import opened RedirectRetry
  import opened RedirectLocales

  /** One of the two is the other with a slash after it. */
  ghost predicate DifferBySlash(a: string, b: string) {
    || (|a| == |b| + 1 && a[|b|] == '/' && a[..|b|] == b)
    || (|b| == |a| + 1 && b[|a|] == '/' && b[..|a|] == a)
  }

  lemma SlashFlipIff(a: string, b: string)
    ensures IsSlashFlip(a, b) <==> DifferBySlash(a, b)
  {
    if DifferBySlash(a, b) {
      if |a| == |b| + 1 {
        assert a == a[..|b|] + [a[|b|]];
      } else {
        assert b == b[..|a|] + [b[|a|]];
      }
    }
  }

  // ---- Locations ------------------------------------------------------------------------------

  /**
   The target is `page` behind a locale that the request did not name: a trailing-slash variant of
   the request's own page, or any page behind the locale preparation added.
   */
  ghost predicate ShowsLocale(target: Url, requestUrl: Url, i18n: Option<I18n>, basePath: string,
                              added: Option<string>, page: string, segment: string)
  {
    var origPath := StripBasePath(requestUrl.pathname, basePath);
    && i18n.Some? && Unprefixed(origPath, i18n.value.locales) && Rooted(page)
    && SamePageInLocale(page, StripBasePath(target.pathname, basePath), i18n.value.locales, segment)
    && (DifferBySlash(page, origPath) || (added.Some? && Lower(segment) == Lower(added.value)))
  }

  /**
   Another origin is answered as it is. On the same origin a locale shown is taken out, and a
   trailing-slash redirect without a query keeps the request's; nothing else of the target changes.
   */
  ghost predicate IsLocationAnswer(target: Url, requestUrl: Url, i18n: Option<I18n>, basePath: string,
                                   added: Option<string>, url: Url)
  {
    if target.origin != requestUrl.origin then url == target
    else
      && url == target.(pathname := url.pathname, search := url.search)
      && (forall page, segment ::
            ShowsLocale(target, requestUrl, i18n, basePath, added, page, segment) ==> url.pathname == OrRoot(basePath + Tail(page)))
      && ((forall page, segment :: !ShowsLocale(target, requestUrl, i18n, basePath, added, page, segment)) ==>
            url.pathname == target.pathname)
      && (url.search == if target.search == "" && DifferBySlash(url.pathname, requestUrl.pathname)
                        then requestUrl.search else target.search)
  }

  /** Where the target's path stands in front of a page, there is only one such page. */
  lemma ShownPageIsDetected(target: Url, requestUrl: Url, i18n: Option<I18n>, basePath: string, added: Option<string>)
    ensures forall page, segment :: ShowsLocale(target, requestUrl, i18n, basePath, added, page, segment) ==>
              && i18n.value.locales != [] && FindLocale(segment, i18n.value.locales).Some? && |segment| > 0
              && NormalizeLocalePath(StripBasePath(target.pathname, basePath), i18n.value.locales)
                   == LocalePath(FindLocale(segment, i18n.value.locales), page)
  {
    hide NormalizeLocalePath, StripBasePath, DifferBySlash, Lower;
    forall page, segment | ShowsLocale(target, requestUrl, i18n, basePath, added, page, segment)
      ensures i18n.value.locales != [] && FindLocale(segment, i18n.value.locales).Some? && |segment| > 0
      ensures NormalizeLocalePath(StripBasePath(target.pathname, basePath), i18n.value.locales)
           == LocalePath(FindLocale(segment, i18n.value.locales), page)
    {
      SamePageIsDetected(page, StripBasePath(target.pathname, basePath), i18n.value.locales, segment);
    }
  }

  /** The path of the answer, before any query is carried. */
  lemma LocationPath(target: Url, requestUrl: Url, i18n: I18n, basePath: string, added: Option<string>)
    requires Rooted(target.pathname) && target.origin == requestUrl.origin
    ensures var url := NormalizeLocationRedirect(target, requestUrl, Some(i18n), basePath, added);
            && (forall page, segment ::
                  ShowsLocale(target, requestUrl, Some(i18n), basePath, added, page, segment) ==>
                    url.pathname == OrRoot(basePath + Tail(page)))
            && ((forall page, segment :: !ShowsLocale(target, requestUrl, Some(i18n), basePath, added, page, segment)) ==>
                  url.pathname == target.pathname)
  {
    var targetPath, origPath := StripBasePath(target.pathname, basePath), StripBasePath(requestUrl.pathname, basePath);
    StripIsRooted(target.pathname, basePath);
    var segment := DetectedIsPrefix(targetPath, i18n.locales);
    var page := NormalizeLocalePath(targetPath, i18n.locales).pathname;
    ShownPageIsDetected(target, requestUrl, Some(i18n), basePath, added);
    SlashFlipIff(page, origPath);
    if IsLocale(segment, i18n.locales) {
      AddedIsNotEmpty(segment, FindLocale(segment, i18n.locales).value, added);
      assert ShowsLocale(target, requestUrl, Some(i18n), basePath, added, page, segment)
        <==> Unprefixed(origPath, i18n.locales)
             && (IsSlashFlip(page, origPath) || (added.Some? && Lower(segment) == Lower(added.value)));
    }
    hide NormalizeLocalePath, StripBasePath, FindLocale, IsLocale, Lower, IsSlashFlip, SamePageInLocale, ShowsLocale;
  }

  lemma LocationAnswer(target: Url, requestUrl: Url, i18n: Option<I18n>, basePath: string, added: Option<string>)
    requires Rooted(target.pathname)
    ensures IsLocationAnswer(target, requestUrl, i18n, basePath, added,
                             NormalizeLocationRedirect(target, requestUrl, i18n, basePath, added))
  {
    var url := NormalizeLocationRedirect(target, requestUrl, i18n, basePath, added);
    SlashFlipIff(url.pathname, requestUrl.pathname);
    if target.origin == requestUrl.origin && i18n.Some? {
      LocationPath(target, requestUrl, i18n.value, basePath, added);
    }
    hide NormalizeLocalePath, StripBasePath, FindLocale, IsLocale, Lower, SamePageInLocale;
  }

  // ---- All answers ------------------------------------------------------------------------------

  /** A retry goes to the request's own page behind the locale the target named. */
  ghost predicate IsRetryOf(redirect: Redirect, requestUrl: Url, i18n: Option<I18n>, basePath: string, url: Url) {
    && i18n.Some?
    && exists locale, segment ::
         && SamePageInLocale(StripBasePath(requestUrl.pathname, basePath), StripBasePath(redirect.url.pathname, basePath),
                             i18n.value.locales, segment)
         && Lower(locale) == Lower(segment) && IsRetryUrl(url, requestUrl, i18n.value.locales, basePath, locale)
  }

  /** A resolver's own redirect: retried, corrected, or passed on with its status. */
  ghost predicate IsRedirectAnswer(redirect: Redirect, requestUrl: Url, i18n: Option<I18n>, basePath: string,
                                   added: Option<string>, answer: Answer)
  {
    if i18n.Some? && IsArtefact(redirect, requestUrl, i18n.value.locales, basePath) then
      answer.RetryWith? && IsRetryOf(redirect, requestUrl, i18n, basePath, answer.retryUrl)
    else
      && answer.Redirected? && answer.status == redirect.status
      && (if i18n.Some? && exists url :: IsRewriteTo(redirect, requestUrl, i18n.value.locales, basePath, added, url)
          then IsRewriteTo(redirect, requestUrl, i18n.value.locales, basePath, added, answer.url)
          else answer.url == redirect.url)
  }

  lemma RetryNamesTheTarget(redirect: Redirect, requestUrl: Url, i18n: I18n, basePath: string, added: Option<string>)
    requires Rooted(requestUrl.pathname) && Rooted(redirect.url.pathname)
    requires NormalizeI18nRedirect(redirect, requestUrl, Some(i18n), basePath, added).Retry?
    ensures IsRetryOf(redirect, requestUrl, Some(i18n), basePath,
                      NormalizeI18nRedirect(redirect, requestUrl, Some(i18n), basePath, added).retryUrl)
  {
    hide NormalizeLocalePath, FindLocale, IsLocale, StripBasePath, SamePageInLocale, Lower;
    var origPath := StripBasePath(requestUrl.pathname, basePath);
    var targetPath := StripBasePath(redirect.url.pathname, basePath);
    StripIsRooted(redirect.url.pathname, basePath);
    var segment := DetectedIsPrefix(targetPath, i18n.locales);
    ConfiguredSpelling(segment, i18n.locales);
    var locale := FindLocale(segment, i18n.locales).value;
    var tail := if origPath == SLASH then "" else origPath;
    assert basePath + SLASH + locale + tail == basePath + (SLASH + locale + tail);
    var url := NormalizeI18nRedirect(redirect, requestUrl, Some(i18n), basePath, added).retryUrl;
    assert IsRetryUrl(url, requestUrl, i18n.locales, basePath, locale);
  }

  lemma RedirectAnswer(redirect: Redirect, requestUrl: Url, i18n: Option<I18n>, basePath: string, added: Option<string>)
    requires Rooted(requestUrl.pathname) && Rooted(redirect.url.pathname)
    ensures var normalized := NormalizeI18nRedirect(redirect, requestUrl, i18n, basePath, added);
            IsRedirectAnswer(redirect, requestUrl, i18n, basePath, added,
                             match normalized
                             case Retry(retryUrl) => RetryWith(retryUrl)
                             case Rewrite(url) => Redirected(url, redirect.status)
                             case Keep => Redirected(redirect.url, redirect.status))
  {
    RetriedIff(redirect, requestUrl, i18n, basePath, added);
    if i18n.Some? {
      KeptIff(redirect, requestUrl, i18n.value, basePath, added);
      forall url
        ensures NormalizeI18nRedirect(redirect, requestUrl, i18n, basePath, added) == Rewrite(url)
           <==> IsRewriteTo(redirect, requestUrl, i18n.value.locales, basePath, added, url)
      {
        RewrittenIff(redirect, requestUrl, i18n.value, basePath, added, url);
      }
      if NormalizeI18nRedirect(redirect, requestUrl, i18n, basePath, added).Retry? {
        RetryNamesTheTarget(redirect, requestUrl, i18n.value, basePath, added);
      }
      hide NormalizeI18nRedirect, IsArtefact, IsRewriteTo, IsRetryOf;
    }
  }

  /** The target of a `Location`: a rule's takes the request's query when it has none, middleware's does not. */
  function Carried(location: Url, requestUrl: Url, middlewareAuthored: bool): Url {
    if location.search == "" && !middlewareAuthored then location.(search := requestUrl.search) else location
  }

  /**
   Every resolution's answer: the resolver's redirect first; otherwise a `Location` under one of the
   five redirect statuses, kept; otherwise the request goes on.
   */
  lemma EveryAnswer(resolution: Resolution, prepared: Prepared, manifest: Manifest, middlewareAuthored: bool)
    requires prepared.Ready? && Rooted(prepared.originalUrl.pathname)
    requires resolution.redirect.Some? ==> Rooted(resolution.redirect.value.url.pathname)
    requires resolution.location.Some? ==> Rooted(resolution.location.value.pathname)
    ensures var answer := NormalizeResolvedRedirect(resolution, prepared, manifest, middlewareAuthored);
            var requestUrl := prepared.originalUrl;
            if resolution.redirect.Some? then
              IsRedirectAnswer(resolution.redirect.value, requestUrl, manifest.i18n, manifest.basePath,
                               prepared.addedLocale, answer)
            else if resolution.location.Some? && resolution.status in {301, 302, 303, 307, 308} then
              && answer.Redirected? && answer.status == resolution.status
              && var location := resolution.location.value;
                 var carried := if location.search == "" && !middlewareAuthored
                                then location.(search := requestUrl.search) else location;
                 IsLocationAnswer(carried, requestUrl, manifest.i18n, manifest.basePath, prepared.addedLocale, answer.url)
            else
              answer == Continue
  {
    var requestUrl := prepared.originalUrl;
    if resolution.redirect.Some? {
      RedirectAnswer(resolution.redirect.value, requestUrl, manifest.i18n, manifest.basePath, prepared.addedLocale);
    } else if resolution.location.Some? {
      LocationAnswer(Carried(resolution.location.value, requestUrl, middlewareAuthored), requestUrl, manifest.i18n,
                     manifest.basePath, prepared.addedLocale);
    }
    hide NormalizeI18nRedirect, NormalizeLocationRedirect, IsRedirectAnswer, IsLocationAnswer;
  }
}
