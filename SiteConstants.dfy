/** The site's constant tables (src/constants/index.js) and the redirect
    lookup of `RedirectHandler` (src/App.js): the legacy-URL table, the
    choice of the backend URL from the build environment, and the two
    built-in blog articles the blog page falls back to. The process
    environment is given as optional values. */
module SiteConstants {
  import opened Wrappers
  import opened Text
  import opened Seqs
  import opened Blog

  // ---------------------------------------------------------------------
  // Legacy-URL redirects

  /** `REDIRECTS`: old paths and the paths they now live at. */
  const Redirects: map<string, string> := map[
    "/nos-tarifs" := "/tarifs",
    "/donnees-personnelles" := "/politique-confidentialite",
    "/balise-h1" := "/",
    "/h1" := "/",
    "/index" := "/",
    "/home" := "/",
    "/accueil" := "/",
    "/rental" := "/location",
    "/repair" := "/reparation",
    "/sale" := "/vente",
    "/prices" := "/tarifs",
    "/vente-velos-trottinettes" := "/vente",
    "/louer-velo-marseillan" := "/location",
    "/reparateur-velo-marseillan" := "/reparation"
  ]

  /** A path of the site: non-empty, rooted and in lower case. */
  predicate IsSitePath(p: string)
  {
    |p| > 0 && p[0] == '/' && IsLower(p)
  }

  /** Every key and every target of the table is a site path, and no
      target is itself a key. */
  lemma RedirectTableShape()
    ensures forall k :: k in Redirects ==> IsSitePath(k) && IsSitePath(Redirects[k])
    ensures forall k :: k in Redirects ==> Redirects[k] !in Redirects
  {
    forall k | k in Redirects
      ensures IsSitePath(k) && IsSitePath(Redirects[k])
    {
      KeyIsSitePath(k);
      TargetIsSitePath(k);
    }
    TargetsAreNotKeys();
  }

  lemma TargetsAreNotKeys()
    ensures forall k :: k in Redirects ==> Redirects[k] !in Redirects
  {
  }

  /** Each key is a site path; the literals are checked a few at a time. */
  lemma KeyIsSitePath(k: string)
    requires k in Redirects
    ensures IsSitePath(k)
  {
    if k == "/nos-tarifs" || k == "/donnees-personnelles" || k == "/balise-h1" || k == "/h1" {
      KeysAreSitePathsA(k);
    } else if k == "/index" || k == "/home" || k == "/accueil" || k == "/rental" || k == "/repair" || k == "/sale" || k == "/prices" {
      KeysAreSitePathsB(k);
    } else if k == "/vente-velos-trottinettes" || k == "/louer-velo-marseillan" {
      KeysAreSitePathsC(k);
    } else {
      KeysAreSitePathsD(k);
    }
  }

  /** Each target is a site path. */
  lemma TargetIsSitePath(k: string)
    requires k in Redirects
    ensures IsSitePath(Redirects[k])
  {
    var t := Redirects[k];
    if t == "/tarifs" || t == "/politique-confidentialite" || t == "/" {
      TargetsAreSitePathsA(t);
    } else {
      TargetsAreSitePathsB(t);
    }
  }

  lemma KeysAreSitePathsA(p: string)
    requires p == "/nos-tarifs" || p == "/donnees-personnelles" || p == "/balise-h1" || p == "/h1"
    ensures IsSitePath(p)
  {
  }

  lemma KeysAreSitePathsB(p: string)
    requires p == "/index" || p == "/home" || p == "/accueil" || p == "/rental" || p == "/repair" || p == "/sale" || p == "/prices"
    ensures IsSitePath(p)
  {
  }

  lemma KeysAreSitePathsC(p: string)
    requires p == "/vente-velos-trottinettes" || p == "/louer-velo-marseillan"
    ensures IsSitePath(p)
  {
  }

  lemma KeysAreSitePathsD(p: string)
    requires p == "/reparateur-velo-marseillan"
    ensures IsSitePath(p)
  {
  }

  lemma TargetsAreSitePathsA(p: string)
    requires p == "/tarifs" || p == "/politique-confidentialite" || p == "/"
    ensures IsSitePath(p)
  {
  }

  lemma TargetsAreSitePathsB(p: string)
    requires p == "/location" || p == "/reparation" || p == "/vente"
    ensures IsSitePath(p)
  {
  }

  /** `RedirectHandler`: the target for the lower-cased pathname, if any
      (every target is a non-empty string, so `if (redirectTo)` holds
      exactly when there is one). */
  function Redirect(pathname: string): (r: Option<string>)
    ensures r.Some? <==> LowerAscii(pathname) in Redirects
    ensures r.Some? ==> r.value == Redirects[LowerAscii(pathname)] && r.value != ""
  {
    RedirectTableShape();
    Get(Redirects, LowerAscii(pathname))
  }

  /** Matching ignores case: two paths equal up to ASCII case redirect
      alike, and every spelling of a key redirects to that key's target. */
  lemma RedirectIgnoresCase(p: string, q: string)
    requires LowerAscii(p) == LowerAscii(q)
    ensures Redirect(p) == Redirect(q)
    ensures Redirect(LowerAscii(p)) == Redirect(p)
  {
    LowerAsciiIsLower(p);
  }

  /** Each key redirects to its target. */
  lemma RedirectOfKey(k: string)
    requires k in Redirects
    ensures Redirect(k) == Some(Redirects[k])
  {
    RedirectTableShape();
    LowerAsciiOfLower(k);
  }

  /** A redirect is a single hop: the target of a redirect never redirects
      again, so there are no chains and no loops. */
  lemma RedirectIsSingleHop(pathname: string)
    requires Redirect(pathname).Some?
    ensures Redirect(Redirect(pathname).value) == None
  {
    RedirectTableShape();
    var t := Redirect(pathname).value;
    LowerAsciiOfLower(t);
  }

  /** A path that is no key in any case gets no redirect. */
  lemma UnknownPathStays(pathname: string)
    requires LowerAscii(pathname) !in Redirects
    ensures Redirect(pathname) == None
  {
  }

  // ---------------------------------------------------------------------
  // Backend URL

  /** `PROD_BACKEND_FALLBACK`. */
  const ProdBackend: string := "https://artimon-backend.onrender.com"

  /** `API_URL` from `NODE_ENV` and `REACT_APP_BACKEND_URL` (None when
      unset; an empty value is falsy and counts as unset). */
  function ApiUrl(nodeEnv: Option<string>, backendUrl: Option<string>): (url: string)
    ensures url == "" <==> nodeEnv == Some("development")
  {
    if nodeEnv == Some("development") then ""
    else if backendUrl.Some? && backendUrl.value != "" then backendUrl.value
    else ProdBackend
  }

  /** The three cases of the URL: the development proxy, a configured
      backend, and the production fallback. */
  lemma ApiUrlCases(nodeEnv: Option<string>, backendUrl: Option<string>)
    ensures nodeEnv != Some("development") && backendUrl.Some? && backendUrl.value != "" ==>
      ApiUrl(nodeEnv, backendUrl) == backendUrl.value
    ensures nodeEnv != Some("development") && (backendUrl.None? || backendUrl.value == "") ==>
      ApiUrl(nodeEnv, backendUrl) == ProdBackend
    ensures nodeEnv == Some("development") ==> ApiUrl(nodeEnv, backendUrl) == ""
  {
  }

  // ---------------------------------------------------------------------
  // Built-in blog articles

  /** `FALLBACK_BLOG_ARTICLES`, reduced to the fields the listings read. */
  const FallbackArticles: seq<Article> := [
    Article("fallback-fr-2026-cyclables", "nouvelles-pistes-cyclables-herault-2026",
            Some(["velo", "etang-de-thau", "herault", "2026"])),
    Article("fallback-en-2026-cyclables", "new-bike-paths-herault-2026",
            Some(["english", "cycling", "etang-de-thau", "herault", "2026"]))
  ]

  /** Exactly one built-in article is English, the second. */
  lemma OneEnglishFallback()
    ensures Count(FallbackArticles, HasEnglishTag) == 1
    ensures !HasEnglishTag(FallbackArticles[0]) && HasEnglishTag(FallbackArticles[1])
  {
    assert "english" != "velo" && "english" != "etang-de-thau" && "english" != "herault" && "english" != "2026";
    assert FallbackArticles[0].tags.value[0] == "velo";
    assert FallbackArticles[1].tags.value[0] == "english";
  }

  /** Each language gets exactly one built-in article: the English one for
      "en", the French one for every other language. */
  lemma OneFallbackPerLanguage(language: string)
    ensures FilterByLanguage(FallbackArticles, language) ==
      if language == "en" then [FallbackArticles[1]] else [FallbackArticles[0]]
  {
    OneEnglishFallback();
    var p := MatchesLanguage(language);
    assert FallbackArticles[1..][1..] == [];
    assert Filter(FallbackArticles, p) ==
      (if p(FallbackArticles[0]) then [FallbackArticles[0]] else []) + Filter(FallbackArticles[1..], p);
    assert Filter(FallbackArticles[1..], p) ==
      (if p(FallbackArticles[1]) then [FallbackArticles[1]] else []) + Filter(FallbackArticles[1..][1..], p);
  }

  /** With the built-in articles as fallback, the blog page never ends up
      empty, whatever the request came to. */
  lemma BlogPageAlwaysShowsArticles(state: ListState, outcome: FetchOutcome, language: string)
    ensures |BlogPageAfterFetch(state, outcome, language, FallbackArticles).articles| > 0
  {
    OneFallbackPerLanguage(language);
    BlogPageNeverEmpty(state, outcome, language, FallbackArticles);
  }
}
