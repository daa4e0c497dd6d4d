/** The news part of the FastAPI backend: the Google News RSS URL builder,
    the shaping of feed entries into articles, the `/news` response envelope
    and the fixed `/news/categories` taxonomy.  The HTTP fetch of the feed and
    the RSS parser are not modelled: the parsed feed reaches the model as a
    `FetchOutcome` returned by a `fetch` parameter. */
module Server {
  import opened Wrappers
  import opened Strings

  /** One news item (the `NewsArticle` model). */
  datatype Article = Article(
    id: string,
    title: string,
    description: string,
    url: string,
    published: Option<string>,
    source: string,
    imageUrl: Option<string>,
    category: Option<string>)

  /** Body of `POST /news` (the `NewsRequest` model), defaults included. */
  datatype NewsRequest = NewsRequest(category: string, country: string, limit: int)

  /** The body's field defaults. */
  const DefaultRequest := NewsRequest("general", "US", 20)

  /** Body returned by `POST /news` (the `NewsResponse` model). */
  datatype NewsResponse = NewsResponse(
    success: bool,
    articles: seq<Article>,
    totalCount: int,
    category: string,
    country: string,
    error: Option<string>)

  /** One `{id, name}` entry of the taxonomy. */
  datatype TaxonomyEntry = TaxonomyEntry(id: string, name: string)

  /** Body returned by `GET /news/categories`. */
  datatype TaxonomyResponse = TaxonomyResponse(
    success: bool,
    categories: seq<TaxonomyEntry>,
    countries: seq<TaxonomyEntry>)

  // ---------------------------------------------------------------------
  // RSS URL builder

  const BaseUrl := "https://news.google.com/rss"

  /** Country id accepted by the API, mapped to the Google News country code. */
  const CountryCodes: map<string, string> :=
    map["US" := "US", "UK" := "GB", "AU" := "AU", "CA" := "CA", "IN" := "IN"]

  const TopicPrefix := "/headlines/section/topic/"

  /** Category id mapped to the path inserted before the query string. */
  const CategoryPaths: map<string, string> :=
    map[
      "general" := "",
      "world" := TopicPrefix + "WORLD",
      "nation" := TopicPrefix + "NATION",
      "business" := TopicPrefix + "BUSINESS",
      "technology" := TopicPrefix + "TECHNOLOGY",
      "entertainment" := TopicPrefix + "ENTERTAINMENT",
      "sports" := TopicPrefix + "SPORTS",
      "science" := TopicPrefix + "SCIENCE",
      "health" := TopicPrefix + "HEALTH"]

  /** `country_codes.get(country, "US")`. */
  function CountryCode(country: string): (code: string)
    ensures country !in CountryCodes ==> code == "US"
    ensures country == "UK" <==> code == "GB"
    ensures country in {"US", "AU", "CA", "IN"} ==> code == country
    ensures |code| == 2
  {
    if country in CountryCodes then CountryCodes[country] else "US"
  }

  /** `category_mapping.get(category, "")`. */
  function CategoryPath(category: string): (path: string)
    ensures category !in CategoryPaths || category == "general" <==> path == ""
    ensures path != "" ==> TopicPrefix <= path
  {
    if category in CategoryPaths then CategoryPaths[category] else ""
  }

  /** The query string that selects the edition for a country code. */
  function Query(code: string): string {
    "?hl=en-" + code + "&gl=" + code + "&ceid=" + code + ":en"
  }

  /** `get_google_news_rss_url`: the feed URL for a category and country. */
  function GoogleNewsRssUrl(category: string, country: string): (url: string)
    ensures BaseUrl <= url
    ensures |url| == |BaseUrl| + |CategoryPath(category)| + |Query(CountryCode(country))|
    ensures url[|BaseUrl|..|BaseUrl| + |CategoryPath(category)|] == CategoryPath(category)
    ensures url[|BaseUrl| + |CategoryPath(category)|..] == Query(CountryCode(country))
  {
    var code := CountryCode(country);
    var path := CategoryPath(category);
    if path != "" then BaseUrl + path + Query(code) else BaseUrl + Query(code)
  }

  /** The URL is the base, then the category path (empty for "general" and
      any unknown category), then the edition query of the country code
      (that of "US" for any unknown country). */
  lemma RssUrlShape(category: string, country: string)
    ensures category in CategoryPaths && category != "general" ==>
      GoogleNewsRssUrl(category, country) ==
        BaseUrl + CategoryPaths[category] + Query(CountryCode(country))
    ensures category !in CategoryPaths || category == "general" ==>
      GoogleNewsRssUrl(category, country) == "https://news.google.com/rss" + Query(CountryCode(country))
    ensures country !in CountryCodes ==>
      GoogleNewsRssUrl(category, country) == GoogleNewsRssUrl(category, "US")
    ensures category !in CategoryPaths ==>
      GoogleNewsRssUrl(category, country) == GoogleNewsRssUrl("general", country)
  {
  }

  /** Distinct category paths and distinct country codes give distinct URLs:
      the URL determines both. */
  lemma RssUrlDeterminesPathAndCode(cat1: string, country1: string, cat2: string, country2: string)
    requires GoogleNewsRssUrl(cat1, country1) == GoogleNewsRssUrl(cat2, country2)
    ensures CategoryPath(cat1) == CategoryPath(cat2)
    ensures CountryCode(country1) == CountryCode(country2)
  {
    var url := GoogleNewsRssUrl(cat1, country1);
    var p1, p2 := CategoryPath(cat1), CategoryPath(cat2);
    var c1, c2 := CountryCode(country1), CountryCode(country2);
    assert url == BaseUrl + p1 + Query(c1);
    assert url == BaseUrl + p2 + Query(c2);
    assert |Query(c1)| == 26 && |Query(c2)| == 26;
    assert |p1| == |p2|;
    assert p1 == url[|BaseUrl|..|BaseUrl| + |p1|];
    assert p2 == url[|BaseUrl|..|BaseUrl| + |p2|];
    assert Query(c1) == url[|BaseUrl| + |p1|..];
    assert c1 == Query(c1)[7..9] && c2 == Query(c2)[7..9];
  }

  // ---------------------------------------------------------------------
  // Shaping of feed entries

  /** One parsed RSS entry.  `summaryImage` stands for the `src` of the first
      `<img>` of the summary, which the left-out image extraction would find;
      `published` for the already-built publication date. */
  datatype FeedEntry = FeedEntry(
    title: Option<string>,
    link: Option<string>,
    summary: Option<string>,
    published: Option<string>,
    summaryImage: Option<string>)

  /** What fetching and parsing the feed URL produced: the entries, or a
      raised exception (timeout, HTTP error status, ...). */
  datatype FetchOutcome = FetchFailed | Fetched(entries: seq<FeedEntry>)

  const SourceSeparator := " - "
  const DefaultSource := "Google News"
  const DescriptionLimit := 500

  /** Python's `s[:limit]`: a negative limit counts from the end. */
  function Head<T>(s: seq<T>, limit: int): (r: seq<T>)
    ensures r <= s
    ensures limit >= 0 ==> |r| == if limit < |s| then limit else |s|
    ensures limit < 0 ==> |r| == if |s| + limit > 0 then |s| + limit else 0
  {
    if limit >= 0 then
      if limit < |s| then s[..limit] else s
    else
      if |s| + limit > 0 then s[..|s| + limit] else []
  }

  /** "Title - Source" split at the last separator; a title without one keeps
      the whole text and gets the default source. */
  function SplitTitle(raw: string): (r: (string, string))
    ensures Contains(raw, SourceSeparator) ==>
      r.0 + SourceSeparator + r.1 == raw && !Contains(r.1, SourceSeparator)
    ensures Contains(raw, SourceSeparator) ==>
      forall j: nat :: |r.0| < j <= |raw| ==> !OccursAt(raw, SourceSeparator, j)
    ensures !Contains(raw, SourceSeparator) ==> r == (raw, DefaultSource)
  {
    match LastIndexOf(raw, SourceSeparator)
    case None => (raw, DefaultSource)
    case Some(i) =>
      var source := raw[i + |SourceSeparator|..];
      forall j: nat | j <= |source| && OccursAt(source, SourceSeparator, j)
        ensures false
      {
        OccursInSuffix(raw, SourceSeparator, i + |SourceSeparator|, j);
      }
      assert raw[..i] + SourceSeparator + source == raw;
      (raw[..i], source)
  }

  /** `entry.get('summary', '')[:500]`. */
  function Description(summary: Option<string>): (d: string)
    ensures |d| <= DescriptionLimit
    ensures summary.None? ==> d == ""
    ensures summary.Some? ==> d <= summary.value
    ensures summary.Some? && |summary.value| <= DescriptionLimit ==> d == summary.value
    ensures summary.Some? && |summary.value| > DescriptionLimit ==> |d| == DescriptionLimit
  {
    Head(summary.GetOr(""), DescriptionLimit)
  }

  /** An entry can be shaped only when it has the attributes read without a
      default; reading a missing one raises, which aborts the whole scrape. */
  predicate Shapeable(e: FeedEntry) {
    e.title.Some? && e.link.Some?
  }

  /** The article built from one entry. */
  function ShapeEntry(e: FeedEntry, category: string, id: string): Article
    requires Shapeable(e)
  {
    var (title, source) := SplitTitle(e.title.value);
    Article(
      id, title, Description(e.summary), e.link.value, e.published, source,
      if e.summary.Some? then e.summaryImage else None,
      Some(category))
  }

  /** Every entry has the attributes the loop reads. */
  predicate AllShapeable(entries: seq<FeedEntry>) {
    forall k :: 0 <= k < |entries| ==> Shapeable(entries[k])
  }

  /** The articles the loop builds from `entries`: one per entry, the k-th
      with the k-th id; none at all when some entry raises. */
  function ShapeAll(entries: seq<FeedEntry>, category: string, newId: nat -> string): seq<Article> {
    if AllShapeable(entries) then
      seq(|entries|, k requires 0 <= k < |entries| => ShapeEntry(entries[k], category, newId(k)))
    else []
  }

  /** The articles `scrape_google_news` returns for a fetch outcome: one per
      leading entry of the feed cut at `limit`, or none at all when the fetch
      failed or any of those entries raises. */
  function Scraped(outcome: FetchOutcome, category: string, limit: int, newId: nat -> string): seq<Article> {
    if outcome.FetchFailed? then []
    else ShapeAll(Head(outcome.entries, limit), category, newId)
  }

  /** The body of the scrape loop for one entry: split the title, cut the
      summary, take the image, tag the category. */
  method BuildArticle(entry: FeedEntry, category: string, id: string) returns (article: Article)
    requires Shapeable(entry)
    ensures article == ShapeEntry(entry, category, id)
    ensures article.category == Some(category) && article.url == entry.link.value
  {
    var title := entry.title.value;
    var source := DefaultSource;
    if LastIndexOf(title, SourceSeparator).Some? {
      var parts := SplitTitle(title);
      title, source := parts.0, parts.1;
    }
    var imageUrl := None;
    if entry.summary.Some? {
      imageUrl := entry.summaryImage;
    }
    article := Article(
      id, title, Description(entry.summary), entry.link.value,
      entry.published, source, imageUrl, Some(category));
  }

  /** The loop of `scrape_google_news` over the cut feed: shape the entries
      one by one, appending to the result; an entry that raises ends the
      scrape with no articles. */
  method ShapeEntries(entries: seq<FeedEntry>, category: string, newId: nat -> string)
    returns (articles: seq<Article>)
    ensures articles == ShapeAll(entries, category, newId)
  {
    articles := [];
    var i := 0;
    while i < |entries|
      invariant 0 <= i <= |entries|
      invariant |articles| == i
      invariant forall k :: 0 <= k < i ==>
        Shapeable(entries[k]) && articles[k] == ShapeEntry(entries[k], category, newId(k))
    {
      var entry := entries[i];
      if entry.title.None? || entry.link.None? {
        assert !Shapeable(entries[i]);
        return [];
      }
      var article := BuildArticle(entry, category, newId(i));
      articles := articles + [article];
      i := i + 1;
    }
    assert articles == seq(|entries|, k requires 0 <= k < |entries| => ShapeEntry(entries[k], category, newId(k)));
  }

  /** `scrape_google_news`: fetch the feed for the URL of the category and
      country; a failed fetch yields no articles, otherwise the leading
      `limit` entries are shaped. */
  method ScrapeGoogleNews(category: string, country: string, limit: int,
                          fetch: string -> FetchOutcome, newId: nat -> string)
    returns (articles: seq<Article>)
    ensures articles == Scraped(fetch(GoogleNewsRssUrl(category, country)), category, limit, newId)
  {
    var outcome := fetch(GoogleNewsRssUrl(category, country));
    if outcome.FetchFailed? {
      return [];
    }
    articles := ShapeEntries(Head(outcome.entries, limit), category, newId);
  }

  /** What the scrape promises: every leading feed entry of a fetched feed
      becomes one article, in feed order, unless one of them lacks its title
      or link, in which case there are none; each article is tagged with the
      requested category, its title and source are the entry title split at
      its last separator, its description is the cut summary. */
  lemma ScrapedArticles(outcome: FetchOutcome, category: string, limit: int, newId: nat -> string)
    ensures var r := Scraped(outcome, category, limit, newId);
      && (limit >= 0 ==> |r| <= limit)
      && (outcome.FetchFailed? ==> r == [])
      && (outcome.Fetched? && AllShapeable(Head(outcome.entries, limit)) ==>
            |r| == |Head(outcome.entries, limit)|)
      && (outcome.Fetched? && !AllShapeable(Head(outcome.entries, limit)) ==> r == [])
      && forall k :: 0 <= k < |r| ==>
           var e := outcome.entries[k];
           && r[k].category == Some(category)
           && r[k].id == newId(k)
           && e.link == Some(r[k].url)
           && e.title.Some?
           && (Contains(e.title.value, SourceSeparator) ==>
                 && r[k].title + SourceSeparator + r[k].source == e.title.value
                 && forall j: nat :: |r[k].title| < j <= |e.title.value| ==>
                      !OccursAt(e.title.value, SourceSeparator, j))
           && (!Contains(e.title.value, SourceSeparator) ==>
                 r[k].title == e.title.value && r[k].source == DefaultSource)
           && r[k].description == Description(e.summary)
           && r[k].published == e.published
  {
    var r := Scraped(outcome, category, limit, newId);
    if r != [] {
      var entries := Head(outcome.entries, limit);
      forall k | 0 <= k < |r|
        ensures outcome.entries[k] == entries[k]
        ensures Shapeable(entries[k])
        ensures r[k] == ShapeEntry(entries[k], category, newId(k))
      {
      }
    }
  }

  // ---------------------------------------------------------------------
  // Routes

  /** `POST /news`: wrap what the scrape produced, or the exception that
      escaped it, in the response envelope. */
  function GetNews(request: NewsRequest, scraped: Result<seq<Article>, string>): (r: NewsResponse)
    ensures r.totalCount == |r.articles|
    ensures r.category == request.category && r.country == request.country
    ensures r.success <==> scraped.Success?
    ensures r.success ==> r.articles == scraped.value && r.error.None?
    ensures !r.success ==> r.articles == [] && r.totalCount == 0 && r.error == Some(scraped.error)
  {
    match scraped
    case Success(articles) =>
      NewsResponse(true, articles, |articles|, request.category, request.country, None)
    case Failure(message) =>
      NewsResponse(false, [], 0, request.category, request.country, Some(message))
  }

  /** A feed that cannot be fetched is not an error of the route: it answers
      success with no articles. */
  lemma UnreachableFeedIsEmptySuccess(request: NewsRequest, newId: nat -> string)
    ensures var r := GetNews(request, Success(Scraped(FetchFailed, request.category, request.limit, newId)));
      r.success && r.articles == [] && r.totalCount == 0 && r.error.None?
  {
  }

  /** `GET /news/categories`: the fixed taxonomy. */
  function GetNewsCategories(): (r: TaxonomyResponse)
    ensures r.success
    ensures |r.categories| == 9 && |r.countries| == 5
    ensures r.categories[0].id == "general" && r.countries[0].id == "US"
  {
    TaxonomyResponse(
      true,
      [ TaxonomyEntry("general", "General"),
        TaxonomyEntry("world", "World"),
        TaxonomyEntry("nation", "National"),
        TaxonomyEntry("business", "Business"),
        TaxonomyEntry("technology", "Technology"),
        TaxonomyEntry("entertainment", "Entertainment"),
        TaxonomyEntry("sports", "Sports"),
        TaxonomyEntry("science", "Science"),
        TaxonomyEntry("health", "Health") ],
      [ TaxonomyEntry("US", "United States"),
        TaxonomyEntry("UK", "United Kingdom"),
        TaxonomyEntry("AU", "Australia"),
        TaxonomyEntry("CA", "Canada"),
        TaxonomyEntry("IN", "India") ])
  }

  /** The category ids the taxonomy advertises are exactly the keys of the
      URL builder's category table: no advertised category reaches the
      fallback and every table entry is offered. */
  lemma TaxonomyCategoriesMatchUrlTable()
    ensures (set k | 0 <= k < |GetNewsCategories().categories| :: GetNewsCategories().categories[k].id)
      == CategoryPaths.Keys
  {
    var cs := GetNewsCategories().categories;
    var ids := set k | 0 <= k < |cs| :: cs[k].id;
    assert cs[0].id == "general" && cs[1].id == "world" && cs[2].id == "nation";
    assert cs[3].id == "business" && cs[4].id == "technology" && cs[5].id == "entertainment";
    assert cs[6].id == "sports" && cs[7].id == "science" && cs[8].id == "health";
    assert ids == {"general", "world", "nation", "business", "technology",
                   "entertainment", "sports", "science", "health"};
  }

  /** The country ids the taxonomy advertises are exactly the keys of the URL
      builder's country table. */
  lemma TaxonomyCountriesMatchUrlTable()
    ensures (set k | 0 <= k < |GetNewsCategories().countries| :: GetNewsCategories().countries[k].id)
      == CountryCodes.Keys
  {
    var cs := GetNewsCategories().countries;
    var ids := set k | 0 <= k < |cs| :: cs[k].id;
    assert cs[0].id == "US" && cs[1].id == "UK" && cs[2].id == "AU";
    assert cs[3].id == "CA" && cs[4].id == "IN";
    assert ids == {"US", "UK", "AU", "CA", "IN"};
  }

  /** Two different advertised (category, country) choices never fetch the
      same feed. */
  lemma AdvertisedChoicesHaveDistinctUrls(cat1: string, country1: string, cat2: string, country2: string)
    requires cat1 in CategoryPaths && cat2 in CategoryPaths
    requires country1 in CountryCodes && country2 in CountryCodes
    requires GoogleNewsRssUrl(cat1, country1) == GoogleNewsRssUrl(cat2, country2)
    ensures cat1 == cat2 && country1 == country2
  {
    RssUrlDeterminesPathAndCode(cat1, country1, cat2, country2);
    // the category paths differ in their topic names, the codes in their letters
    var p1, p2 := CategoryPath(cat1), CategoryPath(cat2);
    assert p1 == p2;
    assert p1 == "" ==> cat1 == "general";
    if p1 != "" {
      assert p1[|TopicPrefix|..] == p2[|TopicPrefix|..];
    }
  }
}
