/**
 * What a request is prepared as, on its literal path: which requests are refused or moved, what a
 * data request stands for, and exactly when a locale is added.
 */
module RequestPreparation {
  import opened Ascii
  import opened Wrappers
  import opened Paths
  import opened RedirectRetry
  import opened RedirectLocales

  /** The page path behind the base path, told apart only at a segment boundary. */
  lemma BehindBasePath(pathname: string, basePath: string)
    ensures StripBasePath(pathname, basePath)
         == if basePath != "" && pathname == basePath then "/"
            else if basePath != "" && |basePath| < |pathname| && pathname[..|basePath|] == basePath && pathname[|basePath|] == '/'
            then pathname[|basePath|..]
            else pathname
  {
    if |basePath| < |pathname| && pathname[..|basePath|] == basePath && pathname[|basePath|] == '/' {
      assert basePath + SLASH == pathname[..|basePath| + 1];
    }
  }

  /** The headers that are removed: those in the middleware's own family but the public prefetch hint. */
  lemma ControlHeaderIff(name: string)
    ensures IsControlHeader(name) <==> |name| >= 13 && name[..13] == "x-middleware-" && name[13..] != "prefetch"
  {
    if |name| >= 13 && name[..13] == "x-middleware-" {
      assert name == "x-middleware-" + name[13..];
      assert "x-middleware-" + "prefetch" == "x-middleware-prefetch";
      assert name[13..] == "prefetch" ==> name == "x-middleware-prefetch";
      assert name == "x-middleware-prefetch" ==> name[13..] == "prefetch";
    }
  }

  ghost predicate IsFirstLocale(segment: string, locales: seq<string>, k: nat) {
    && k < |locales| && Lower(locales[k]) == Lower(segment)
    && forall j :: 0 <= j < k ==> Lower(locales[j]) != Lower(segment)
  }

  /** A path segment names the first configured locale that it spells, in any case. */
  lemma {:induction false} FirstLocaleWins(segment: string, locales: seq<string>) returns (k: nat)
    ensures match FindLocale(segment, locales)
            case None => forall j :: 0 <= j < |locales| ==> Lower(locales[j]) != Lower(segment)
            case Some(locale) => IsFirstLocale(segment, locales, k) && locales[k] == locale
  {
    k := 0;
    if locales != [] && Lower(locales[0]) != Lower(segment) {
      var rest := FirstLocaleWins(segment, locales[1..]);
      k := rest + 1;
    }
  }

  /** `/_next/data/<build>/<name>.json` behind the base path. */
  ghost predicate NamesData(manifest: Manifest, pathname: string, name: string) {
    pathname == manifest.basePath + "/_next/data/" + manifest.buildId + "/" + (name + ".json")
  }

  /** The path of the page a data URL of this name stands for. */
  ghost predicate IsDataPage(manifest: Manifest, name: string, pathname: string) {
    var page := if name == "" || name == "index" then manifest.basePath else manifest.basePath + "/" + name;
    if page == "" then pathname == "/"
    else if manifest.trailingSlash && page[|page| - 1] != '/' then pathname == page + "/"
    else pathname == page
  }

  lemma NamesDataIff(manifest: Manifest, pathname: string, name: string)
    ensures NamesData(manifest, pathname, name) <==> pathname == DataPrefix(manifest) + (name + JSON)
  {
  }

  lemma DataPrefixEnds(manifest: Manifest)
    ensures var prefix := DataPrefix(manifest); prefix != "" && prefix[|prefix| - 1] == '/'
  {
  }

  lemma DataRequestIff(manifest: Manifest, pathname: string)
    ensures IsDataRequest(manifest, pathname) <==>
              manifest.buildId != "" && exists name :: NamesData(manifest, pathname, name)
  {
    hide NamesData, DataPrefix;
    var prefix := DataPrefix(manifest);
    DataPrefixEnds(manifest);
    if IsDataRequest(manifest, pathname) {
      SuffixAfterPrefix(pathname, prefix);
      var name := pathname[|prefix|..|pathname| - 5];
      assert pathname == prefix + (name + JSON);
      NamesDataIff(manifest, pathname, name);
    }
    if name :| NamesData(manifest, pathname, name) {
      NamesDataIff(manifest, pathname, name);
      assert pathname[|pathname| - |JSON|..] == JSON;
    }
  }

  /** The suffix holds no slash, so it cannot reach into a prefix that ends with one. */
  lemma SuffixAfterPrefix(text: string, prefix: string)
    requires prefix <= text && prefix != "" && prefix[|prefix| - 1] == '/'
    requires |text| >= 5 && text[|text| - 5..] == ".json"
    ensures |prefix| <= |text| - 5
  {
    assert forall i :: |text| - 5 <= i < |text| ==> text[i] == text[|text| - 5..][i - (|text| - 5)];
    assert forall i :: 0 <= i < 5 ==> ".json"[i] != '/';
    assert text[|prefix| - 1] == prefix[|prefix| - 1];
  }

  lemma DataTail(prefix: string, name: string)
    ensures From(prefix + (name + JSON), |prefix|) == name + JSON
    ensures (name + JSON)[..|name + JSON| - |JSON|] == name
  {
  }

  lemma EndsWithSlashIff(page: string)
    requires page != ""
    ensures EndsWith(page, SLASH) <==> page[|page| - 1] == '/'
  {
    assert page[|page| - 1..] == [page[|page| - 1]];
  }

  lemma DataPageIff(manifest: Manifest, pathname: string, name: string)
    requires NamesData(manifest, pathname, name)
    ensures IsDataPage(manifest, name, DataPagePath(manifest, pathname))
  {
    var prefix := DataPrefix(manifest);
    assert pathname == prefix + (name + JSON);
    DataTail(prefix, name);
    var page := manifest.basePath + if name == "index" || name == "" then "" else SLASH + name;
    assert page == if name == "" || name == "index" then manifest.basePath else manifest.basePath + "/" + name;
    assert DataPagePath(manifest, pathname)
        == var p := OrRoot(page); if manifest.trailingSlash && p != SLASH && !EndsWith(p, SLASH) then p + SLASH else p;
    hide DataPagePath, DataPrefix, NamesData, From, EndsWith;
    if page != "" {
      EndsWithSlashIff(page);
    }
    RootEnds();
  }

  lemma RootEnds()
    ensures SLASH[|SLASH| - 1] == '/'
  {
  }

  /** Refused, moved, or ready: malformed escapes first, then repeated slashes. */
  lemma PreparationOutcome(helpers: Helpers, requestUrl: Url, cookie: Option<string>, language: Option<string>,
                           manifest: Manifest)
    ensures var prepared := Prepare(helpers, requestUrl, cookie, language, manifest);
            var repeated := exists i :: 0 < i < |requestUrl.pathname|
                                        && requestUrl.pathname[i - 1] == '/' && requestUrl.pathname[i] == '/';
            && (prepared == Failed(400) <==> !helpers.decodable(requestUrl.pathname))
            && (prepared == Moved(requestUrl.(pathname := CollapseSlashes(requestUrl.pathname)), 308)
                <==> helpers.decodable(requestUrl.pathname) && repeated)
            && (prepared.Ready? <==> helpers.decodable(requestUrl.pathname) && !repeated)
  {
    hide PrefixRequestLocale, CollapseSlashes;
    RepeatedIff(requestUrl.pathname);
    hide HasRepeatedSlash;
  }

  lemma RepeatedIff(path: string)
    ensures HasRepeatedSlash(path) <==> exists i :: 0 < i < |path| && path[i - 1] == '/' && path[i] == '/'
  {
    if HasRepeatedSlash(path) {
      var i :| 0 <= i < |path| - 1 && path[i] == '/' && path[i + 1] == '/';
      assert path[i + 1 - 1] == '/';
    }
    if i :| 0 < i < |path| && path[i - 1] == '/' && path[i] == '/' {
      assert path[i - 1 + 1] == '/';
    }
  }

  /** The locale an unprefixed page is served in: the domain's own default before the application's. */
  ghost predicate IsHostDefault(helpers: Helpers, i18n: I18n, hostname: string, locale: string) {
    match helpers.domainLocale(hostname)
    case Some(domain) => if domain == "" then locale == i18n.defaultLocale else locale == domain
    case None => locale == i18n.defaultLocale
  }

  /** Paths that are never prefixed: framework files, API routes, and pages that name a locale. */
  ghost predicate NeverPrefixed(path: string, locales: seq<string>) {
    || (|path| >= 7 && path[..7] == "/_next/")
    || (|path| >= 5 && path[..5] == "/api/")
    || (exists segment, tail ::
          IsTail(tail) && IsLocale(segment, locales) && path == "/" + segment + tail)
  }

  lemma PrefixedLocaleIff(path: string, locales: seq<string>)
    requires Rooted(path)
    ensures !Unprefixed(path, locales) <==>
              exists segment, tail :: IsTail(tail) && IsLocale(segment, locales) && path == "/" + segment + tail
  {
    var segment, tail := FirstSegmentExists(path);
    DetectsFirstSegment(segment, tail, locales);
    forall segment, tail | IsTail(tail) && IsLocale(segment, locales) && path == "/" + segment + tail
      ensures !Unprefixed(path, locales)
    {
      DetectsFirstSegment(segment, tail, locales);
    }
  }

  /** What the prepared page is: the request's own URL, or the page a data request stands for. */
  ghost predicate IsPage(requestUrl: Url, manifest: Manifest, isDataRequest: bool, page: Url) {
    if isDataRequest then
      exists name ::
        NamesData(manifest, requestUrl.pathname, name)
        && IsDataPage(manifest, name, page.pathname) && page == requestUrl.(pathname := page.pathname)
    else page == requestUrl
  }

  /**
   * When a locale is added to a page, and what to. Nothing is added without locales, to paths that
   * are never prefixed, or to an index page that detects another locale; every other page gets the
   * host's default locale between base path and path, the root with the configured trailing slash.
   */
  ghost predicate IsPrepared(helpers: Helpers, page: Url, cookie: Option<string>, language: Option<string>,
                             manifest: Manifest, url: Url, added: Option<string>)
  {
    var path := StripBasePath(page.pathname, manifest.basePath);
    if manifest.i18n.None? || manifest.i18n.value.locales == [] || NeverPrefixed(path, manifest.i18n.value.locales) then
      url == page && added == None
    else if (path == "/" || path == "/index") && manifest.i18n.value.localeDetection
            && !IsHostDefault(helpers, manifest.i18n.value, page.hostname,
                              helpers.detectLocale(path, page.hostname, cookie, language)) then
      url == page && added == None
    else
      && added.Some? && IsHostDefault(helpers, manifest.i18n.value, page.hostname, added.value)
      && url == page.(pathname := url.pathname)
      && url.pathname == manifest.basePath + "/" + added.value
                         + (if path != "/" then path else if manifest.trailingSlash then "/" else "")
  }

  lemma PrefixedAsPrepared(helpers: Helpers, page: Url, cookie: Option<string>, language: Option<string>, manifest: Manifest)
    requires Rooted(page.pathname)
    ensures var (url, added) := PrefixRequestLocale(helpers, page, cookie, language, manifest);
            IsPrepared(helpers, page, cookie, language, manifest, url, added)
  {
    var path := StripBasePath(page.pathname, manifest.basePath);
    StripIsRooted(page.pathname, manifest.basePath);
    StartsWithApi(path);
    if manifest.i18n.Some? {
      PrefixedLocaleIff(path, manifest.i18n.value.locales);
      hide NormalizeLocalePath, IsLocale, StripBasePath;
      var (url, added) := PrefixRequestLocale(helpers, page, cookie, language, manifest);
      if added.Some? {
        assert manifest.basePath + SLASH + added.value + "" == manifest.basePath + SLASH + added.value;
      }
    }
  }

  lemma StartsWithApi(path: string)
    ensures "/_next/" <= path <==> |path| >= 7 && path[..7] == "/_next/"
    ensures "/api/" <= path <==> |path| >= 5 && path[..5] == "/api/"
  {
  }

  lemma PageOf(manifest: Manifest, requestUrl: Url) returns (page: Url)
    requires Rooted(requestUrl.pathname) && (manifest.basePath == "" || Rooted(manifest.basePath))
    ensures page == if IsDataRequest(manifest, requestUrl.pathname)
                    then requestUrl.(pathname := DataPagePath(manifest, requestUrl.pathname)) else requestUrl
    ensures Rooted(page.pathname)
    ensures IsPage(requestUrl, manifest, IsDataRequest(manifest, requestUrl.pathname), page)
  {
    page := requestUrl;
    if IsDataRequest(manifest, requestUrl.pathname) {
      DataRequestIff(manifest, requestUrl.pathname);
      var name :| NamesData(manifest, requestUrl.pathname, name);
      DataPageIff(manifest, requestUrl.pathname, name);
      page := requestUrl.(pathname := DataPagePath(manifest, requestUrl.pathname));
      hide DataPagePath, IsDataRequest, NamesData;
      assert page.pathname != "";
    }
  }

  /**
   * A request that is ready is flagged as a data request exactly when its path is one; it stands
   * for its page, and that page has a locale added exactly as stated.
   */
  lemma PreparedRequest(helpers: Helpers, requestUrl: Url, cookie: Option<string>, language: Option<string>,
                        manifest: Manifest) returns (page: Url)
    requires Rooted(requestUrl.pathname) && (manifest.basePath == "" || Rooted(manifest.basePath))
    requires Prepare(helpers, requestUrl, cookie, language, manifest).Ready?
    ensures var prepared := Prepare(helpers, requestUrl, cookie, language, manifest);
            && prepared.originalUrl == requestUrl
            && (prepared.isDataRequest <==> manifest.buildId != "" && exists name :: NamesData(manifest, requestUrl.pathname, name))
            && IsPage(requestUrl, manifest, prepared.isDataRequest, page)
            && IsPrepared(helpers, page, cookie, language, manifest, prepared.url, prepared.addedLocale)
  {
    hide PrefixRequestLocale, HasRepeatedSlash, IsDataRequest, DataPagePath, IsPage, IsPrepared, NamesData;
    DataRequestIff(manifest, requestUrl.pathname);
    page := PageOf(manifest, requestUrl);
    PrefixedAsPrepared(helpers, page, cookie, language, manifest);
  }
}
