/**
 * Request preparation and redirect normalisation around the route resolver. The resolver prefixes
 * locales internally, so some of its redirects are artefacts of that prefix: those are answered by
 * resolving once more, on a URL that carries the locale, and never a second time.
 */
module RedirectRetry {
  import opened Wrappers
  import opened Ascii
  import opened Paths

  /** `hostname` is kept apart from `origin` because domain locales look at it alone. */
  datatype Url = Url(origin: string, hostname: string, pathname: string, search: string)

  datatype I18n = I18n(locales: seq<string>, defaultLocale: string, localeDetection: bool)

  datatype Manifest = Manifest(buildId: string, i18n: Option<I18n>, basePath: string, trailingSlash: bool)

  /** The helpers of the platform and of the routing library, as functions of what they are given. */
  datatype Helpers = Helpers(
    decodable: string -> bool,
    domainLocale: string -> Option<string>,
    detectLocale: (string, string, Option<string>, Option<string>) -> string)

  datatype Redirect = Redirect(url: Url, status: nat)

  datatype Normalized = Keep | Rewrite(url: Url) | Retry(retryUrl: Url)

  datatype Prepared =
    | Failed(status: nat)
    | Moved(url: Url, status: nat)
    | Ready(url: Url, originalUrl: Url, isDataRequest: bool, addedLocale: Option<string>)

  /** `location` is the header already resolved against the request URL. */
  datatype Resolution = Resolution(redirect: Option<Redirect>, location: Option<Url>, status: nat)

  datatype Answer = Continue | Redirected(url: Url, status: nat) | RetryWith(retryUrl: Url)

  predicate Rooted(path: string) {
    path != "" && path[0] == '/'
  }

  // ---- Base path and locales ----------------------------------------------------------------

  function StripBasePath(pathname: string, basePath: string): string {
    if basePath == "" then pathname
    else if pathname == basePath then SLASH
    else if basePath + SLASH <= pathname then pathname[|basePath|..]
    else pathname
  }

  function FindLocale(segment: string, locales: seq<string>): (found: Option<string>)
    ensures found.Some? ==> found.value in locales && Lower(found.value) == Lower(segment)
    ensures found.None? ==> forall i :: 0 <= i < |locales| ==> Lower(locales[i]) != Lower(segment)
  {
    if locales == [] then None
    else if Lower(locales[0]) == Lower(segment) then Some(locales[0])
    else FindLocale(segment, locales[1..])
  }

  predicate IsLocale(segment: string, locales: seq<string>) {
    segment != "" && SlashFree(segment) && FindLocale(segment, locales).Some?
  }

  function OrRoot(path: string): string {
    if path == "" then SLASH else path
  }

  function From(text: string, n: nat): string {
    if n <= |text| then text[n..] else ""
  }

  datatype LocalePath = LocalePath(detectedLocale: Option<string>, pathname: string)

  /** The library's detection: the first segment, compared without case. */
  function NormalizeLocalePath(path: string, locales: seq<string>): LocalePath {
    var segments := Split(path);
    if |segments| < 2 || segments[1] == "" then
      LocalePath(None, path)
    else
      match FindLocale(segments[1], locales)
      case None => LocalePath(None, path)
      case Some(locale) => LocalePath(Some(locale), OrRoot(From(path, |locale| + 1)))
  }

  // ---- Before resolving ---------------------------------------------------------------------

  predicate HasRepeatedSlash(path: string) {
    exists i :: 0 <= i < |path| - 1 && path[i] == '/' && path[i + 1] == '/'
  }

  /** `pathname.replace(/\/{2,}/g, "/")` */
  function CollapseSlashes(path: string): string {
    if |path| < 2 then path
    else if path[0] == '/' && path[1] == '/' then CollapseSlashes(path[1..])
    else [path[0]] + CollapseSlashes(path[1..])
  }

  function DataPrefix(manifest: Manifest): string {
    manifest.basePath + "/_next/data/" + manifest.buildId + SLASH
  }

  const JSON: string := ".json"

  predicate EndsWith(text: string, suffix: string) {
    |suffix| <= |text| && text[|text| - |suffix|..] == suffix
  }

  predicate IsDataRequest(manifest: Manifest, pathname: string) {
    manifest.buildId != "" && DataPrefix(manifest) <= pathname && EndsWith(pathname, JSON)
  }

  /** The page a `/_next/data` path stands for. */
  function DataPagePath(manifest: Manifest, pathname: string): string {
    var tail := From(pathname, |DataPrefix(manifest)|);
    var dataPath := if |JSON| <= |tail| then tail[..|tail| - |JSON|] else "";
    var page := OrRoot(manifest.basePath + if dataPath == "index" || dataPath == "" then "" else SLASH + dataPath);
    if manifest.trailingSlash && page != SLASH && !EndsWith(page, SLASH) then page + SLASH else page
  }

  function DefaultLocale(helpers: Helpers, i18n: I18n, hostname: string): string {
    match helpers.domainLocale(hostname)
    case Some(locale) => if locale == "" then i18n.defaultLocale else locale
    case None => i18n.defaultLocale
  }

  /** The URL after `prefixRequestLocale`, and the locale it added. */
  function PrefixRequestLocale(helpers: Helpers, url: Url, cookie: Option<string>, language: Option<string>,
                               manifest: Manifest): (Url, Option<string>)
  {
    if manifest.i18n.None? || manifest.i18n.value.locales == [] then
      (url, None)
    else
      var i18n := manifest.i18n.value;
      var path := StripBasePath(url.pathname, manifest.basePath);
      if "/_next/" <= path || "/api/" <= path || NormalizeLocalePath(path, i18n.locales).detectedLocale.Some? then
        (url, None)
      else
        var defaultLocale := DefaultLocale(helpers, i18n, url.hostname);
        var detects := (path == SLASH || path == "/index") && i18n.localeDetection;
        var locale := if detects then helpers.detectLocale(path, url.hostname, cookie, language) else defaultLocale;
        if detects && locale != defaultLocale then
          (url, None)
        else
          var prefix := manifest.basePath + SLASH + locale;
          var pathname := if path != SLASH then prefix + path
                          else if manifest.trailingSlash then prefix + SLASH
                          else prefix;
          (url.(pathname := pathname), Some(locale))
  }

  /** What preparation answers, once the control headers are gone. */
  function Prepare(helpers: Helpers, requestUrl: Url, cookie: Option<string>, language: Option<string>,
                   manifest: Manifest): Prepared
  {
    if !helpers.decodable(requestUrl.pathname) then
      Failed(400)
    else if HasRepeatedSlash(requestUrl.pathname) then
      Moved(requestUrl.(pathname := CollapseSlashes(requestUrl.pathname)), 308)
    else
      var isDataRequest := IsDataRequest(manifest, requestUrl.pathname);
      var page := if isDataRequest then requestUrl.(pathname := DataPagePath(manifest, requestUrl.pathname)) else requestUrl;
      var (url, addedLocale) := PrefixRequestLocale(helpers, page, cookie, language, manifest);
      Ready(url, requestUrl, isDataRequest, addedLocale)
  }

  predicate IsControlHeader(name: string) {
    "x-middleware-" <= name && name != "x-middleware-prefetch"
  }

  /** A `Headers` object: lower-case names to joined values. */
  class Headers {
    var entries: map<string, string>

    constructor (initial: map<string, string>)
      ensures entries == initial
    {
      entries := initial;
    }

    function Get(name: string): (value: Option<string>)
      reads this
      ensures value.Some? <==> name in entries
      ensures value.Some? ==> value.value == entries[name]
    {
      if name in entries then Some(entries[name]) else None
    }

    method Delete(name: string)
      modifies this
      ensures entries == old(entries) - {name}
    {
      entries := entries - {name};
    }
  }

  /** The shared entry of both tiers: control headers a client sent are gone before anything reads them. */
  method PrepareRequest(helpers: Helpers, requestUrl: Url, headers: Headers, manifest: Manifest)
    returns (prepared: Prepared)
    modifies headers
    ensures headers.entries == map name | name in old(headers.entries) && !IsControlHeader(name) :: old(headers.entries)[name]
    ensures prepared == Prepare(helpers, requestUrl, headers.Get("cookie"), headers.Get("accept-language"), manifest)
  {
    var names := headers.entries.Keys;
    while names != {}
      invariant headers.entries.Keys <= old(headers.entries.Keys)
      invariant forall name :: name in headers.entries ==> headers.entries[name] == old(headers.entries)[name]
      invariant forall name :: name in old(headers.entries) && (name in names || !IsControlHeader(name)) ==> name in headers.entries
      invariant forall name :: name in headers.entries && name !in names ==> !IsControlHeader(name)
      decreases |names|
    {
      var name :| name in names;
      names := names - {name};
      if IsControlHeader(name) {
        headers.Delete(name);
      }
    }
    if !helpers.decodable(requestUrl.pathname) {
      return Failed(400);
    }
    if HasRepeatedSlash(requestUrl.pathname) {
      return Moved(requestUrl.(pathname := CollapseSlashes(requestUrl.pathname)), 308);
    }
    var url := requestUrl;
    var isDataRequest := IsDataRequest(manifest, url.pathname);
    if isDataRequest {
      url := url.(pathname := DataPagePath(manifest, url.pathname));
    }
    var prefixed := PrefixRequestLocale(helpers, url, headers.Get("cookie"), headers.Get("accept-language"), manifest);
    return Ready(prefixed.0, requestUrl, isDataRequest, prefixed.1);
  }

  // ---- After resolving ----------------------------------------------------------------------

  /** `/fr/` becomes `/fr`; any other target is kept. */
  function FixRootSlash(target: Url, targetPath: string, locale: string): Normalized {
    if targetPath == SLASH + locale + SLASH && target.pathname != ""
    then Rewrite(target.(pathname := target.pathname[..|target.pathname| - 1]))
    else Keep
  }

  function NormalizeI18nRedirect(redirect: Redirect, requestUrl: Url, i18n: Option<I18n>, basePath: string,
                                 addedLocale: Option<string>): Normalized
  {
    if i18n.None? || i18n.value.locales == [] then
      Keep
    else
      var locales := i18n.value.locales;
      var origPath := StripBasePath(requestUrl.pathname, basePath);
      var target := redirect.url;
      var targetPath := StripBasePath(target.pathname, basePath);
      var detected := NormalizeLocalePath(targetPath, locales);
      if NormalizeLocalePath(origPath, locales).detectedLocale.Some? || detected.detectedLocale.None? then
        Keep
      else
        var locale, rest := detected.detectedLocale.value, detected.pathname;
        if target.origin != requestUrl.origin then
          FixRootSlash(target, targetPath, locale)
        else if rest == origPath then
          if redirect.status == 307 then
            FixRootSlash(target, targetPath, locale)
          else
            Retry(requestUrl.(pathname := basePath + SLASH + locale + if origPath == SLASH then "" else origPath))
        else if addedLocale.Some? && addedLocale.value != "" && Lower(locale) == Lower(addedLocale.value) then
          Rewrite(target.(pathname := OrRoot(basePath + if rest == SLASH then "" else rest)))
        else
          Keep
  }

  predicate IsSlashFlip(a: string, b: string) {
    a == b + SLASH || a + SLASH == b
  }

  function NormalizeLocationRedirect(target: Url, requestUrl: Url, i18n: Option<I18n>, basePath: string,
                                     addedLocale: Option<string>): Url
  {
    if target.origin != requestUrl.origin then
      target
    else
      var origPath := StripBasePath(requestUrl.pathname, basePath);
      var stripped :=
        if i18n.None? || i18n.value.locales == []
           || NormalizeLocalePath(origPath, i18n.value.locales).detectedLocale.Some? then
          target
        else
          var detected := NormalizeLocalePath(StripBasePath(target.pathname, basePath), i18n.value.locales);
          var leaked := detected.detectedLocale.Some? && addedLocale.Some? && addedLocale.value != ""
            && Lower(detected.detectedLocale.value) == Lower(addedLocale.value);
          if detected.detectedLocale.Some? && (IsSlashFlip(detected.pathname, origPath) || leaked) then
            target.(pathname := OrRoot(basePath + if detected.pathname == SLASH then "" else detected.pathname))
          else
            target;
      if stripped.search == "" && IsSlashFlip(stripped.pathname, requestUrl.pathname)
      then stripped.(search := requestUrl.search)
      else stripped
  }

  predicate IsRedirectStatus(status: nat) {
    status == 301 || status == 302 || status == 303 || status == 307 || status == 308
  }

  function NormalizeResolvedRedirect(resolution: Resolution, prepared: Prepared, manifest: Manifest,
                                     middlewareAuthored: bool): Answer
    requires prepared.Ready?
  {
    var original := prepared.originalUrl;
    match resolution.redirect
    case Some(redirect) =>
      (match NormalizeI18nRedirect(redirect, original, manifest.i18n, manifest.basePath, prepared.addedLocale)
       case Retry(retryUrl) => RetryWith(retryUrl)
       case Rewrite(url) => Redirected(url, redirect.status)
       case Keep => Redirected(redirect.url, redirect.status))
    case None =>
      if resolution.location.None? || !IsRedirectStatus(resolution.status) then
        Continue
      else
        var target := resolution.location.value;
        var carried := if !middlewareAuthored && target.search == "" then target.(search := original.search) else target;
        Redirected(NormalizeLocationRedirect(carried, original, manifest.i18n, manifest.basePath, prepared.addedLocale),
                   resolution.status)
  }

  // ---- First segments -----------------------------------------------------------------------

  /** What may follow a segment: nothing, or the rest of the path. */
  predicate IsTail(tail: string) {
    tail != "" ==> tail[0] == '/'
  }

  lemma FirstSegment(segment: string, tail: string)
    requires SlashFree(segment) && IsTail(tail)
    ensures |Split(SLASH + segment + tail)| >= 2 && Split(SLASH + segment + tail)[1] == segment
  {
    hide Split;
    SplitSlashFree("");
    SplitSlashFree(segment);
    assert SLASH + segment + tail == "" + SLASH + (segment + tail);
    SplitConcat("", segment + tail);
    if tail == "" {
      assert segment + tail == segment;
    } else {
      assert segment + tail == segment + SLASH + tail[1..];
      SplitConcat(segment, tail[1..]);
    }
  }

  /** Every rooted path is a slash, its first segment and a tail. */
  lemma FirstSegmentExists(path: string) returns (segment: string, tail: string)
    requires Rooted(path)
    ensures SlashFree(segment) && IsTail(tail) && path == SLASH + segment + tail
  {
    var end := 1;
    while end < |path| && path[end] != '/'
      invariant 1 <= end <= |path| && SlashFree(path[1..end])
    {
      assert path[1..end + 1] == path[1..end] + [path[end]];
      end := end + 1;
    }
    segment, tail := path[1..end], path[end..];
    assert path == [path[0]] + path[1..end] + path[end..];
  }

  lemma DetectsFirstSegment(segment: string, tail: string, locales: seq<string>)
    requires SlashFree(segment) && IsTail(tail)
    ensures NormalizeLocalePath(SLASH + segment + tail, locales)
         == if IsLocale(segment, locales) then LocalePath(FindLocale(segment, locales), OrRoot(tail))
            else LocalePath(None, SLASH + segment + tail)
  {
    hide Split;
    FirstSegment(segment, tail);
    var path := SLASH + segment + tail;
    if IsLocale(segment, locales) {
      var locale := FindLocale(segment, locales).value;
      assert |Lower(locale)| == |Lower(segment)|;
      assert path[|locale| + 1..] == tail;
    }
  }

  lemma LowerKeepsSlashes(a: string, b: string)
    requires Lower(a) == Lower(b)
    ensures |a| == |b| && (SlashFree(a) <==> SlashFree(b))
  {
    assert |Lower(a)| == |a| && |Lower(b)| == |b|;
    forall i | 0 <= i < |a| ensures a[i] == '/' <==> b[i] == '/' {
      assert Lower(a)[i] == LowerChar(a[i]) && Lower(b)[i] == LowerChar(b[i]);
    }
  }

  /** The configured spelling of a locale is itself a locale, found first. */
  lemma ConfiguredSpelling(segment: string, locales: seq<string>)
    requires IsLocale(segment, locales)
    ensures var locale := FindLocale(segment, locales).value;
            IsLocale(locale, locales) && FindLocale(locale, locales) == Some(locale)
  {
    var locale := FindLocale(segment, locales).value;
    LowerKeepsSlashes(locale, segment);
    SameFold(segment, locale, locales);
  }

  lemma {:induction false} SameFold(a: string, b: string, locales: seq<string>)
    requires Lower(a) == Lower(b)
    ensures FindLocale(a, locales) == FindLocale(b, locales)
  {
    if locales != [] {
      SameFold(a, b, locales[1..]);
    }
  }

  lemma StripIsRooted(pathname: string, basePath: string)
    requires Rooted(pathname)
    ensures Rooted(StripBasePath(pathname, basePath))
  {
  }

  lemma StripsWhatWasPut(basePath: string, path: string)
    requires Rooted(path)
    ensures StripBasePath(basePath + path, basePath) == path
  {
    if basePath != "" {
      assert basePath + path == basePath + SLASH + path[1..];
    }
  }

  // ---- When a redirect is answered with a retry -----------------------------------------------

  predicate Unprefixed(path: string, locales: seq<string>) {
    NormalizeLocalePath(path, locales).detectedLocale.None?
  }

  /** The target is the request's own path behind some locale, spelt in any case. */
  ghost predicate SamePageInLocale(origPath: string, targetPath: string, locales: seq<string>, segment: string) {
    && IsLocale(segment, locales)
    && (targetPath == SLASH + segment + origPath || (origPath == SLASH && targetPath == SLASH + segment))
  }

  /** The target the library detects a locale in is that locale in front of the path it leaves. */
  lemma DetectedIsPrefix(targetPath: string, locales: seq<string>) returns (segment: string)
    requires Rooted(targetPath)
    ensures Rooted(NormalizeLocalePath(targetPath, locales).pathname)
    ensures !Unprefixed(targetPath, locales) <==> IsLocale(segment, locales)
    ensures var rest := NormalizeLocalePath(targetPath, locales).pathname;
            IsLocale(segment, locales) ==>
              && NormalizeLocalePath(targetPath, locales).detectedLocale == FindLocale(segment, locales)
              && SamePageInLocale(rest, targetPath, locales, segment)
  {
    var tail;
    segment, tail := FirstSegmentExists(targetPath);
    DetectsFirstSegment(segment, tail, locales);
    assert SLASH + segment + "" == SLASH + segment;
  }

  lemma SamePageIsDetected(origPath: string, targetPath: string, locales: seq<string>, segment: string)
    requires Rooted(origPath) && SamePageInLocale(origPath, targetPath, locales, segment)
    ensures NormalizeLocalePath(targetPath, locales) == LocalePath(FindLocale(segment, locales), origPath)
  {
    var tail := if targetPath == SLASH + segment + origPath then origPath else "";
    assert SLASH + segment + "" == SLASH + segment;
    DetectsFirstSegment(segment, tail, locales);
  }

  ghost predicate IsArtefact(redirect: Redirect, requestUrl: Url, locales: seq<string>, basePath: string) {
    var origPath := StripBasePath(requestUrl.pathname, basePath);
    var targetPath := StripBasePath(redirect.url.pathname, basePath);
    && redirect.status != 307
    && redirect.url.origin == requestUrl.origin
    && Unprefixed(origPath, locales)
    && exists segment :: SamePageInLocale(origPath, targetPath, locales, segment)
  }

  /**
   * A redirect is retried exactly when it leads, on the same origin and with a status other than
   * the locale-detection 307, from an unprefixed path to that same path behind a locale.
   */
  lemma RetriedIff(redirect: Redirect, requestUrl: Url, i18n: Option<I18n>, basePath: string, addedLocale: Option<string>)
    requires Rooted(requestUrl.pathname) && Rooted(redirect.url.pathname)
    ensures NormalizeI18nRedirect(redirect, requestUrl, i18n, basePath, addedLocale).Retry?
       <==> i18n.Some? && IsArtefact(redirect, requestUrl, i18n.value.locales, basePath)
  {
    hide NormalizeLocalePath, FindLocale, IsLocale, StripBasePath, SamePageInLocale;
    if i18n.Some? {
      var locales := i18n.value.locales;
      var origPath := StripBasePath(requestUrl.pathname, basePath);
      var targetPath := StripBasePath(redirect.url.pathname, basePath);
      StripIsRooted(requestUrl.pathname, basePath);
      StripIsRooted(redirect.url.pathname, basePath);
      if IsArtefact(redirect, requestUrl, locales, basePath) {
        var segment :| SamePageInLocale(origPath, targetPath, locales, segment);
        SamePageIsDetected(origPath, targetPath, locales, segment);
        LocaleIsFound(origPath, targetPath, locales, segment);
      }
      if NormalizeI18nRedirect(redirect, requestUrl, i18n, basePath, addedLocale).Retry? {
        var segment := DetectedIsPrefix(targetPath, locales);
        assert SamePageInLocale(origPath, targetPath, locales, segment);
      }
    }
  }

  lemma LocaleIsFound(origPath: string, targetPath: string, locales: seq<string>, segment: string)
    requires SamePageInLocale(origPath, targetPath, locales, segment)
    ensures IsLocale(segment, locales) && FindLocale(segment, locales).Some? && locales != []
  {
  }

  /** The URL a retry resolves: the request's, with a configured locale in front of its path. */
  ghost predicate IsRetryUrl(retryUrl: Url, requestUrl: Url, locales: seq<string>, basePath: string, locale: string) {
    var origPath := StripBasePath(requestUrl.pathname, basePath);
    && IsLocale(locale, locales) && FindLocale(locale, locales) == Some(locale)
    && retryUrl == requestUrl.(pathname := basePath + (SLASH + locale + if origPath == SLASH then "" else origPath))
  }

  lemma RetryUrlShape(redirect: Redirect, requestUrl: Url, i18n: Option<I18n>, basePath: string, addedLocale: Option<string>)
    returns (locale: string)
    requires Rooted(requestUrl.pathname) && Rooted(redirect.url.pathname)
    requires NormalizeI18nRedirect(redirect, requestUrl, i18n, basePath, addedLocale).Retry?
    ensures i18n.Some? && Unprefixed(StripBasePath(requestUrl.pathname, basePath), i18n.value.locales)
    ensures IsRetryUrl(NormalizeI18nRedirect(redirect, requestUrl, i18n, basePath, addedLocale).retryUrl,
                       requestUrl, i18n.value.locales, basePath, locale)
  {
    hide NormalizeLocalePath, FindLocale, IsLocale, StripBasePath;
    var locales := i18n.value.locales;
    var origPath := StripBasePath(requestUrl.pathname, basePath);
    var targetPath := StripBasePath(redirect.url.pathname, basePath);
    StripIsRooted(redirect.url.pathname, basePath);
    var segment := DetectedIsPrefix(targetPath, locales);
    ConfiguredSpelling(segment, locales);
    locale := FindLocale(segment, locales).value;
    var tail := if origPath == SLASH then "" else origPath;
    assert basePath + SLASH + locale + tail == basePath + (SLASH + locale + tail);
  }

  /** Behind the base path a retry URL is locale-scoped, and without the locale it is the page first asked for. */
  lemma RetryUrlNamesSamePage(retryUrl: Url, requestUrl: Url, locales: seq<string>, basePath: string, locale: string)
    requires Rooted(requestUrl.pathname) && IsRetryUrl(retryUrl, requestUrl, locales, basePath, locale)
    ensures NormalizeLocalePath(StripBasePath(retryUrl.pathname, basePath), locales)
         == LocalePath(Some(locale), StripBasePath(requestUrl.pathname, basePath))
    ensures retryUrl.origin == requestUrl.origin && retryUrl.search == requestUrl.search
  {
    hide NormalizeLocalePath, FindLocale;
    var origPath := StripBasePath(requestUrl.pathname, basePath);
    var tail := if origPath == SLASH then "" else origPath;
    StripIsRooted(requestUrl.pathname, basePath);
    StripsWhatWasPut(basePath, SLASH + locale + tail);
    DetectsFirstSegment(locale, tail, locales);
  }

  /** Preparing a request never changes the URL its redirects are compared with. */
  lemma PreparedKeepsOriginal(helpers: Helpers, requestUrl: Url, cookie: Option<string>, language: Option<string>,
                              manifest: Manifest)
    ensures var prepared := Prepare(helpers, requestUrl, cookie, language, manifest);
            prepared.Ready? ==> prepared.originalUrl == requestUrl
  {
  }

  /**
   * At most one re-resolution: once a request was answered with a retry, preparing the retry URL
   * and normalising whatever the resolver then answers is never another retry.
   */
  lemma RetryHappensAtMostOnce(helpers: Helpers, manifest: Manifest, first: Prepared, resolution: Resolution, authored: bool,
                               cookie: Option<string>, language: Option<string>, again: Resolution, authoredAgain: bool)
    requires first.Ready? && Rooted(first.originalUrl.pathname)
    requires resolution.redirect.Some? ==> Rooted(resolution.redirect.value.url.pathname)
    requires NormalizeResolvedRedirect(resolution, first, manifest, authored).RetryWith?
    ensures var retryUrl := NormalizeResolvedRedirect(resolution, first, manifest, authored).retryUrl;
            var second := Prepare(helpers, retryUrl, cookie, language, manifest);
            && retryUrl.search == first.originalUrl.search && retryUrl.origin == first.originalUrl.origin
            && (second.Ready? ==> !NormalizeResolvedRedirect(again, second, manifest, authoredAgain).RetryWith?)
  {
    hide NormalizeLocalePath, StripBasePath, PrefixRequestLocale, IsLocale;
    var requestUrl := first.originalUrl;
    var retryUrl := NormalizeResolvedRedirect(resolution, first, manifest, authored).retryUrl;
    var locale := RetryUrlShape(resolution.redirect.value, requestUrl, manifest.i18n, manifest.basePath, first.addedLocale);
    RetryUrlNamesSamePage(retryUrl, requestUrl, manifest.i18n.value.locales, manifest.basePath, locale);
    PreparedKeepsOriginal(helpers, retryUrl, cookie, language, manifest);
  }

  // ---- What preparing a retry URL does --------------------------------------------------------

  /** A retry URL is a data request only if its locale is spelt `_next`. */
  lemma RetriedDataNeedsNextLocale(manifest: Manifest, locale: string, tail: string)
    requires SlashFree(locale) && IsTail(tail)
    requires "/_next/" <= SLASH + locale + tail || IsDataRequest(manifest, manifest.basePath + (SLASH + locale + tail))
    ensures locale == "_next"
  {
    hide Split;
    var path := SLASH + locale + tail;
    if IsDataRequest(manifest, manifest.basePath + path) {
      DataPathIsUnderNext(manifest, path);
    }
    FirstSegment(locale, tail);
    var after := path[6..];
    assert path == SLASH + "_next" + after && after[0] == '/';
    FirstSegment("_next", after);
  }

  lemma DataPathIsUnderNext(manifest: Manifest, path: string)
    requires DataPrefix(manifest) <= manifest.basePath + path
    ensures "/_next/" <= path
  {
    var whole := manifest.basePath + path;
    assert DataPrefix(manifest) == manifest.basePath + ("/_next/" + ("data/" + manifest.buildId + SLASH));
    assert whole[|manifest.basePath|..] == path;
    assert whole[|manifest.basePath|..|manifest.basePath| + 7] == "/_next/";
  }

  lemma DataPageIsShorter(manifest: Manifest, pathname: string)
    requires IsDataRequest(manifest, pathname)
    ensures |DataPagePath(manifest, pathname)| < |pathname|
  {
    assert |DataPrefix(manifest)| > |manifest.basePath| + 12;
  }

  /**
   * Preparing a retry URL adds no second locale and leaves the URL alone exactly when its path is
   * not a data request; and only a locale spelt `_next` can make it one.
   */
  lemma RetryIsNotPrefixedAgain(helpers: Helpers, requestUrl: Url, retryUrl: Url, cookie: Option<string>,
                                language: Option<string>, manifest: Manifest, locale: string)
    requires Rooted(requestUrl.pathname) && manifest.i18n.Some?
    requires IsRetryUrl(retryUrl, requestUrl, manifest.i18n.value.locales, manifest.basePath, locale)
    requires Prepare(helpers, retryUrl, cookie, language, manifest).Ready?
    ensures var prepared := Prepare(helpers, retryUrl, cookie, language, manifest);
            prepared.addedLocale == None && prepared.url == retryUrl <==> !IsDataRequest(manifest, retryUrl.pathname)
    ensures IsDataRequest(manifest, retryUrl.pathname) ==> locale == "_next"
  {
    hide NormalizeLocalePath, IsDataRequest, DataPagePath;
    var origPath := StripBasePath(requestUrl.pathname, manifest.basePath);
    var tail := if origPath == SLASH then "" else origPath;
    StripIsRooted(requestUrl.pathname, manifest.basePath);
    RetryUrlNamesSamePage(retryUrl, requestUrl, manifest.i18n.value.locales, manifest.basePath, locale);
    if IsDataRequest(manifest, retryUrl.pathname) {
      RetriedDataNeedsNextLocale(manifest, locale, tail);
      DataPageIsShorter(manifest, retryUrl.pathname);
      NoLocaleKeepsUrl(helpers, retryUrl.(pathname := DataPagePath(manifest, retryUrl.pathname)), cookie, language, manifest);
    }
  }

  lemma NoLocaleKeepsUrl(helpers: Helpers, url: Url, cookie: Option<string>, language: Option<string>, manifest: Manifest)
    ensures var (prefixed, added) := PrefixRequestLocale(helpers, url, cookie, language, manifest);
            added.None? ==> prefixed == url
  {
    hide NormalizeLocalePath, StripBasePath;
  }

  /**
   * And whenever a locale is spelt `_next`, a request for `/data/<build>/<name>.json` has such a
   * retry URL: it is taken for a data request, so it is not left alone.
   */
  lemma NextLocaleMakesDataRequest(manifest: Manifest, requestUrl: Url, name: string) returns (retryUrl: Url)
    requires manifest.buildId != "" && manifest.i18n.Some?
    requires IsLocale("_next", manifest.i18n.value.locales)
    requires FindLocale("_next", manifest.i18n.value.locales) == Some("_next")
    requires requestUrl.pathname == manifest.basePath + ("/data/" + manifest.buildId + SLASH + (name + JSON))
    ensures IsRetryUrl(retryUrl, requestUrl, manifest.i18n.value.locales, manifest.basePath, "_next")
    ensures IsDataRequest(manifest, retryUrl.pathname)
  {
    hide FindLocale, IsLocale;
    var page := "/data/" + manifest.buildId + SLASH + (name + JSON);
    StripsWhatWasPut(manifest.basePath, page);
    retryUrl := requestUrl.(pathname := manifest.basePath + (SLASH + "_next" + page));
    assert SLASH + "_next" + "/data/" == "/_next/data/";
    assert retryUrl.pathname == DataPrefix(manifest) + (name + JSON);
    assert retryUrl.pathname[|retryUrl.pathname| - |JSON|..] == JSON;
  }

  lemma ConcatRepeatsNoSlash(a: string, b: string)
    requires !HasRepeatedSlash(a) && !HasRepeatedSlash(b)
    requires !EndsWithSlash(a) || !Rooted(b)
    ensures !HasRepeatedSlash(a + b)
  {
    forall i | 0 <= i < |a + b| - 1
      ensures !((a + b)[i] == '/' && (a + b)[i + 1] == '/')
    {
      if i + 1 < |a| {
        assert !(a[i] == '/' && a[i + 1] == '/');
      } else if i >= |a| {
        assert !(b[i - |a|] == '/' && b[i + 1 - |a|] == '/');
      }
    }
  }

  lemma StripRepeatsNoSlash(pathname: string, basePath: string)
    requires !HasRepeatedSlash(pathname)
    ensures !HasRepeatedSlash(StripBasePath(pathname, basePath))
  {
    var stripped := StripBasePath(pathname, basePath);
    if stripped != SLASH {
      var cut := |pathname| - |stripped|;
      forall i | 0 <= i < |stripped| - 1
        ensures !(stripped[i] == '/' && stripped[i + 1] == '/')
      {
        assert !(pathname[i + cut] == '/' && pathname[i + 1 + cut] == '/');
      }
    }
  }

  /** Nor is a retry URL answered with the slash-collapsing redirect, for a normal base path. */
  lemma RetryIsNotCollapsed(helpers: Helpers, requestUrl: Url, retryUrl: Url, cookie: Option<string>,
                            language: Option<string>, manifest: Manifest, locale: string)
    requires Rooted(requestUrl.pathname) && !HasRepeatedSlash(requestUrl.pathname)
    requires manifest.i18n.Some? && IsRetryUrl(retryUrl, requestUrl, manifest.i18n.value.locales, manifest.basePath, locale)
    requires !HasRepeatedSlash(manifest.basePath) && !EndsWithSlash(manifest.basePath)
    ensures !Prepare(helpers, retryUrl, cookie, language, manifest).Moved?
  {
    hide HasRepeatedSlash, PrefixRequestLocale, FindLocale, StripBasePath;
    var origPath := StripBasePath(requestUrl.pathname, manifest.basePath);
    StripRepeatsNoSlash(requestUrl.pathname, manifest.basePath);
    LocaleRepeatsNoSlash(locale);
    var scoped := SLASH + locale;
    if origPath != SLASH {
      ConcatRepeatsNoSlash(scoped, origPath);
      ConcatRepeatsNoSlash(manifest.basePath, scoped + origPath);
    } else {
      ConcatRepeatsNoSlash(manifest.basePath, scoped);
      assert scoped + "" == scoped;
    }
  }

  lemma LocaleRepeatsNoSlash(locale: string)
    requires locale != "" && SlashFree(locale)
    ensures !HasRepeatedSlash(SLASH + locale) && !EndsWithSlash(SLASH + locale)
  {
    assert forall i :: 0 <= i < |locale| ==> locale[i] in locale;
  }

  lemma {:induction false} CollapseLeavesNone(path: string)
    ensures !HasRepeatedSlash(CollapseSlashes(path))
    ensures path != "" ==> CollapseSlashes(path) != "" && CollapseSlashes(path)[0] == path[0]
  {
    if |path| >= 2 {
      CollapseLeavesNone(path[1..]);
      var rest := CollapseSlashes(path[1..]);
      if !(path[0] == '/' && path[1] == '/') {
        forall i | 0 <= i < |rest|
          ensures !(([path[0]] + rest)[i] == '/' && ([path[0]] + rest)[i + 1] == '/')
        {
          if i > 0 {
            assert !(rest[i - 1] == '/' && rest[i] == '/');
          }
        }
      }
    }
  }

  /** Following the slash-collapsing redirect is never answered with another one. */
  lemma CollapseHappensAtMostOnce(helpers: Helpers, requestUrl: Url, cookie: Option<string>, language: Option<string>,
                                  manifest: Manifest)
    requires Prepare(helpers, requestUrl, cookie, language, manifest).Moved?
    ensures var moved := Prepare(helpers, requestUrl, cookie, language, manifest).url;
            && !Prepare(helpers, moved, cookie, language, manifest).Moved?
            && moved.search == requestUrl.search
  {
    hide PrefixRequestLocale, IsDataRequest, HasRepeatedSlash;
    CollapseLeavesNone(requestUrl.pathname);
  }
}
