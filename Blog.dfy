/** The blog listings: the full blog page (src/pages/BlogPage.jsx), which
    falls back to built-in articles, and the home-page section
    (src/pages/BlogSection.jsx), which shows at most three articles and
    nothing at all while loading or when it has none. Both keep the
    articles of the current language: English ones carry the tag
    "english". The network request is an outcome given as a parameter. */
module Blog {
  import opened Wrappers
  import opened Seqs

  /** A blog article; `tags` is None when the article has no tag list. */
  datatype Article = Article(id: string, slug: string, tags: Option<seq<string>>)

  /** What the request for `/api/blog` came to: the decoded list, a
      response that is not ok, or an exception (network failure, a body
      that is not a list). */
  datatype FetchOutcome =
    | Fetched(data: seq<Article>)
    | NotOk
    | Failed

  /** `article.tags && article.tags.includes('english')`. */
  predicate HasEnglishTag(a: Article)
  {
    a.tags.Some? && "english" in a.tags.value
  }

  /** The language test of both listings: English articles for "en",
      the others for any other language. */
  function MatchesLanguage(language: string): Article -> bool
  {
    a => if language == "en" then HasEnglishTag(a) else !HasEnglishTag(a)
  }

  /** `filterByLanguage`. */
  function FilterByLanguage(data: seq<Article>, language: string): (r: seq<Article>)
    ensures IsSubsequence(r, data)
  {
    FilterIsSubsequence(data, MatchesLanguage(language));
    Filter(data, MatchesLanguage(language))
  }

  /** English and non-English articles split the list: each article is in
      exactly one of the two, order kept in both, and languages other than
      "en" all see the French list. */
  lemma LanguagePartition(data: seq<Article>, language: string)
    ensures forall i :: 0 <= i < |data| && HasEnglishTag(data[i]) ==> data[i] in FilterByLanguage(data, "en")
    ensures forall i :: 0 <= i < |data| && !HasEnglishTag(data[i]) ==> data[i] in FilterByLanguage(data, "fr")
    ensures forall a :: a in FilterByLanguage(data, "en") ==> HasEnglishTag(a)
    ensures forall a :: a in FilterByLanguage(data, "fr") ==> !HasEnglishTag(a)
    ensures |FilterByLanguage(data, "en")| + |FilterByLanguage(data, "fr")| == |data|
    ensures language != "en" ==> FilterByLanguage(data, language) == FilterByLanguage(data, "fr")
  {
    var en := MatchesLanguage("en");
    var fr := MatchesLanguage("fr");
    CountIsFilterLength(data, en);
    CountIsFilterLength(data, fr);
    CountComplement(data, en, fr);
    if language != "en" {
      FilterSameCondition(data, MatchesLanguage(language), fr);
    }
  }

  // ---------------------------------------------------------------------
  // BlogPage

  /** The articles and the loading flag of a listing. */
  datatype ListState = ListState(articles: seq<Article>, loading: bool)

  /** Before the first request completes. */
  const Mounted: ListState := ListState([], true)

  /** The articles the blog page shows after a request: the fetched ones
      of the language, or, when there are none or the request did not
      succeed, the fallback articles of the language. */
  function BlogPageArticles(outcome: FetchOutcome, language: string, fallback: seq<Article>): (shown: seq<Article>)
    ensures forall i :: 0 <= i < |shown| ==> MatchesLanguage(language)(shown[i])
  {
    match outcome
    case Fetched(data) =>
      var filtered := FilterByLanguage(data, language);
      if |filtered| > 0 then filtered else FilterByLanguage(fallback, language)
    case NotOk => FilterByLanguage(fallback, language)
    case Failed => FilterByLanguage(fallback, language)
  }

  /** `fetchArticles` of the blog page: the new articles, and loading
      over whatever happened. */
  function BlogPageAfterFetch(state: ListState, outcome: FetchOutcome, language: string, fallback: seq<Article>): (s: ListState)
    ensures !s.loading
  {
    ListState(BlogPageArticles(outcome, language, fallback), false)
  }

  /** The fetched articles are used exactly when some of them are in the
      language; otherwise the fallback articles in that language are,
      whether the list was empty, the response not ok or the request
      failed. */
  lemma BlogPageFallback(state: ListState, outcome: FetchOutcome, language: string, fallback: seq<Article>)
    ensures var shown := BlogPageAfterFetch(state, outcome, language, fallback).articles;
      (outcome.Fetched? && |FilterByLanguage(outcome.data, language)| > 0 ==>
         shown == FilterByLanguage(outcome.data, language))
      && (!(outcome.Fetched? && |FilterByLanguage(outcome.data, language)| > 0) ==>
         shown == FilterByLanguage(fallback, language))
    ensures forall a :: a in BlogPageAfterFetch(state, outcome, language, fallback).articles ==>
      MatchesLanguage(language)(a)
  {
  }

  /** The page shows something after every request as soon as the
      fallback has an article in the language. */
  lemma BlogPageNeverEmpty(state: ListState, outcome: FetchOutcome, language: string, fallback: seq<Article>)
    requires |FilterByLanguage(fallback, language)| > 0
    ensures |BlogPageAfterFetch(state, outcome, language, fallback).articles| > 0
  {
  }

  // ---------------------------------------------------------------------
  // BlogSection

  /** `fetchArticles` of the home-page section: a fetched list gives its
      first three articles in the language; a response that is not ok or
      a failure leaves the articles as they were. */
  function SectionAfterFetch(state: ListState, outcome: FetchOutcome, language: string): (s: ListState)
    ensures !s.loading
    ensures |s.articles| <= 3 || s.articles == state.articles
  {
    match outcome
    case Fetched(data) => ListState(Take(FilterByLanguage(data, language), 3), false)
    case NotOk => ListState(state.articles, false)
    case Failed => ListState(state.articles, false)
  }

  /** `if (loading || articles.length === 0) return null`. */
  predicate SectionRenders(state: ListState)
  {
    !state.loading && |state.articles| > 0
  }

  /** A fetched list shows its first articles in the language, at most
      three, in order. */
  lemma SectionShowsFirstThree(state: ListState, data: seq<Article>, language: string)
    ensures var shown := SectionAfterFetch(state, Fetched(data), language).articles;
      var filtered := FilterByLanguage(data, language);
      && |shown| == (if |filtered| < 3 then |filtered| else 3)
      && (forall i :: 0 <= i < |shown| ==> shown[i] == filtered[i])
      && (forall a :: a in shown ==> MatchesLanguage(language)(a))
  {
    var shown := SectionAfterFetch(state, Fetched(data), language).articles;
    var filtered := FilterByLanguage(data, language);
    forall a | a in shown
      ensures MatchesLanguage(language)(a)
    {
      var i :| 0 <= i < |shown| && shown[i] == a;
      assert a == filtered[i];
    }
  }

  /** No fallback on the section: after a failed or not-ok first request
      the section stays empty and renders nothing. */
  lemma SectionHasNoFallback(outcome: FetchOutcome, language: string)
    requires !outcome.Fetched?
    ensures SectionAfterFetch(Mounted, outcome, language).articles == []
    ensures !SectionRenders(SectionAfterFetch(Mounted, outcome, language))
  {
  }

  /** After a fetched list, the section renders exactly when some fetched
      article is in the language; it never renders while loading. */
  lemma SectionRendersAfterFetch(state: ListState, data: seq<Article>, language: string)
    ensures SectionRenders(SectionAfterFetch(state, Fetched(data), language)) <==>
      exists i :: 0 <= i < |data| && MatchesLanguage(language)(data[i])
    ensures state.loading ==> !SectionRenders(state)
  {
    var filtered := FilterByLanguage(data, language);
    if exists i :: 0 <= i < |data| && MatchesLanguage(language)(data[i]) {
      var i :| 0 <= i < |data| && MatchesLanguage(language)(data[i]);
      assert data[i] in filtered;
    } else {
      CountNone(data, MatchesLanguage(language));
    }
  }
}
