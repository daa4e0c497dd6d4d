# News Hub: a verified model of the news pipeline

This project models the core of a small news site in Dafny. The site has a
FastAPI backend that turns a Google News RSS feed into article records. It has
a React page that loads those articles and shows them as cards.

Three parts are modelled:

- **`Server`** (`server.dfy`, from `backend/server.py`):
  - the RSS URL builder, with its two lookup tables and their fallbacks;
  - the loop that shapes feed entries into articles: the `limit` cut, the
    split of "Title - Source" at the last `" - "`, the 500-character
    description and the category tag;
  - the `/news` response envelope;
  - the fixed `/news/categories` taxonomy.

  The RSS fetch and parse come in as a `fetch` function parameter, and the
  `uuid4` ids as a `newId` parameter.
- **`NewsPage`** (`news_page.dfy`, from `frontend/src/components/NewsPage.js`):
  the page state as a class, `NewsPage.Page`. Its fields are the articles, the
  categories and countries, the selected category and country, `isLoading`
  and `error`. It has one method per event:
  - mount;
  - the taxonomy answer;
  - a category or country change;
  - refresh;
  - the three ways an article request ends.

  A network answer is an argument of the event method. A request that an
  event starts is returned by that method. Predicates state what the page
  displays: placeholders, cards, the empty state, the error banner and the
  filters.
- **`NewsCard`** (`news_card.dfy`, from `frontend/src/components/NewsCard.js`):
  - HTML tag stripping, the global replace of `/<[^>]*>/g`, as a recursive
    function over `seq<char>`;
  - the "Recently" date fallback;
  - the capitalised category badge;
  - the card view.

`Strings` (`strings.dfy`) holds substring occurrence, the search behind
Python's `rsplit(" - ", 1)` and ASCII upper-casing. `Wrappers`
(`wrappers.dfy`) holds `Option` and `Result`.

Behaviour of the code worth noting:

- The news page has no keyword search, so none is modelled.
- A failed article load keeps the previous articles. It does not empty them.
- A `success=false` taxonomy answer changes nothing. Only a thrown taxonomy
  request shows an error. In both cases the page stays in its loading state.
- A successful article answer does not clear `error`. Only starting a load
  does.

## Model

| member | source | states |
|---|---|---|
| Strings.LastIndexOf | backend/server.py:186-187 | the index of the last occurrence of the separator: it occurs there and nowhere after; absent exactly when the separator does not occur |
| Server.CountryCode | backend/server.py:114-135 | an unknown country gives "US"; "UK" gives "GB" and nothing else does; "US", "AU", "CA", "IN" give themselves; every code has two letters |
| Server.CategoryPath | backend/server.py:123-136 | empty exactly for "general" and unknown categories; otherwise a topic path starting with "/headlines/section/topic/" |
| Server.GoogleNewsRssUrl | backend/server.py:109-141 | the URL starts with the base URL, continues with the category path and ends with the edition query of the country code, and is exactly as long as those three parts |
| Server.RssUrlShape | backend/server.py:109-141 | the URL is the base, then the topic path of a known non-general category, then the edition query of the country code; an unknown country gives the "US" URL and an unknown category the "general" URL |
| Server.RssUrlDeterminesPathAndCode | backend/server.py:135-141 | equal URLs have equal category paths and equal country codes |
| Server.AdvertisedChoicesHaveDistinctUrls | backend/server.py:114-141 | two different known (category, country) pairs never give the same feed URL |
| Server.Head | backend/server.py:169 | Python's `entries[:limit]`: a prefix of length min(limit, n) for limit >= 0, and of length max(0, n + limit) for a negative limit |
| Server.SplitTitle | backend/server.py:184-190 | with a " - " in the raw title, title + " - " + source is the raw title and the source holds no " - " and no " - " occurs at any index after the title, so the split is at the last one even when occurrences overlap; without one, the title is unchanged and the source is "Google News" |
| Server.Description | backend/server.py:194 | a prefix of the summary of length min(500, its length); empty when there is no summary |
| Server.BuildArticle | backend/server.py:170-200 | the loop body for one entry builds exactly the article `ShapeEntry` describes, tagged with the requested category and linked to the entry's link |
| Server.ShapeEntries | backend/server.py:168-203 | the loop appends one article per entry in order, and returns no articles at all when an entry lacks its title or link |
| Server.ScrapeGoogleNews | backend/server.py:156-207 | fetches the builder's URL for the category and country; a failed fetch yields no articles, and otherwise the entries of `feed.entries[:limit]` are shaped |
| Server.ScrapedArticles | backend/server.py:168-203 | a failed fetch gives no articles; a fetched feed whose cut entries all have a title and link gives exactly one article per cut entry, and one where some entry lacks either gives none; at most `limit` of them; the k-th article has the k-th id, the entry's link as URL, the entry title split at its last " - " as title and source, the entry's summary cut to 500 as description, the entry's date, and the requested category |
| Server.GetNews | backend/server.py:314-341 | `total_count` always equals the number of articles; success carries the scraped articles and no error; the failure envelope has success=false, no articles, count 0 and the exception text; category and country are echoed |
| Server.UnreachableFeedIsEmptySuccess | backend/server.py:318-330 | a feed that cannot be fetched gives success=true with no articles and count 0, not an error |
| Server.GetNewsCategories | backend/server.py:344-367 | the taxonomy answers success with nine categories, "general" first, and five countries, "US" first |
| Server.TaxonomyCategoriesMatchUrlTable | backend/server.py:349-359 | the set of advertised category ids equals the set of keys of the URL builder's category table, so no advertised category falls back and every key is offered |
| Server.TaxonomyCountriesMatchUrlTable | backend/server.py:360-366 | the set of advertised country ids equals the set of keys of the URL builder's country table |
| NewsCard.StripTags | frontend/src/components/NewsCard.js:53 | the stripped text is never longer than its input |
| NewsCard.StripTagsDropsTag | frontend/src/components/NewsCard.js:53 | a '<', then text without '>', then '>' is deleted |
| NewsCard.StripTagsKeepsPlainPrefix | frontend/src/components/NewsCard.js:53 | text before the first '<' is kept as it is |
| NewsCard.StripTagsKeepsUnclosed | frontend/src/components/NewsCard.js:53 | text with no '>' is unchanged, so a '<' with no '>' after it stays |
| NewsCard.StripTagsKeepsTextWithoutOpen | frontend/src/components/NewsCard.js:53 | text with no '<' is unchanged |
| NewsCard.StripTagsIsSubsequence | frontend/src/components/NewsCard.js:53 | stripping only deletes: the result is a subsequence of the input, in its order |
| NewsCard.StripTagsKeepsCharacters | frontend/src/components/NewsCard.js:53 | every character of the result occurs in the input |
| NewsCard.StripTagsIsTagFree | frontend/src/components/NewsCard.js:53 | after stripping, no '<' has a '>' anywhere after it |
| NewsCard.StripTagsKeepsTagFree | frontend/src/components/NewsCard.js:53 | text without such a pair is unchanged |
| NewsCard.StripTagsIdempotent | frontend/src/components/NewsCard.js:53 | stripping twice equals stripping once |
| NewsCard.CutTagStaysVisible | frontend/src/components/NewsCard.js:50-53 | for the summary of 499 letters 'a' followed by "<b>", the uncut text strips to the letters alone, while the text cut at 500 characters strips to the letters followed by "<": a tag split by the cut leaves its '<' on the card (the cut is the backend's `[:500]` at backend/server.py:194) |
| NewsCard.FormatDate | frontend/src/components/NewsCard.js:7-16 | the label is "Recently" exactly when the published value is absent or empty; otherwise it formats that value |
| Strings.AsciiUpper | frontend/src/components/NewsCard.js:45 | `toUpperCase` on one character: a lower-case ASCII letter becomes its upper-case letter, 32 code points lower; every other character is unchanged |
| NewsCard.Capitalize | frontend/src/components/NewsCard.js:45 | same length; first character ASCII upper-cased, the rest unchanged |
| NewsCard.CategoryBadge | frontend/src/components/NewsCard.js:43-47 | a badge exists exactly for a present non-empty category; its text is the category with the first character upper-cased and the rest unchanged |
| NewsCard.TaxonomyBadges | frontend/src/components/NewsCard.js:45 | the badge of every advertised category equals its taxonomy name, except "nation", whose badge is "Nation" while the taxonomy says "National" |
| NewsCard.RenderCard | frontend/src/components/NewsCard.js:22-58 | the card shows title and source; its date label is `FormatDate` of the date, so "Recently" exactly for a missing or empty one; its badge is `CategoryBadge` of the category, so present exactly for a non-empty one; a description block exactly for a non-empty description, showing that description with its tags stripped, a tag-free subsequence of it |
| NewsPage.FailureMessage | frontend/src/components/NewsPage.js:54 | the server's message when it is non-empty, otherwise "Failed to load news"; never empty |
| NewsPage.Page.constructor | frontend/src/components/NewsPage.js:13-19 | no articles and no taxonomy; "general" and "US" selected; loading and no error |
| NewsPage.Page.LoadNews | frontend/src/components/NewsPage.js:40-49 | loading starts, the error is cleared, and the request carries the current category and country with limit 20; nothing else changes |
| NewsPage.Page.ReloadIfReady | frontend/src/components/NewsPage.js:65-69 | a load starts exactly when categories are non-empty; otherwise nothing changes |
| NewsPage.Page.TaxonomyArrived | frontend/src/components/NewsPage.js:22-37 | success installs categories and countries and starts the load for the current selection iff categories are non-empty; success=false changes nothing; a thrown request sets "Failed to load news categories"; in those two cases no load starts and loading stays true; when no load starts the error is unchanged except after a thrown request |
| NewsPage.Page.SelectCategory | frontend/src/components/NewsPage.js:65-69 | callable only while the filter bar shows; the selection becomes the new category; a load for it starts exactly when it differs from the old one and categories are non-empty |
| NewsPage.Page.SelectCountry | frontend/src/components/NewsPage.js:65-69 | callable only while the filter bar shows; the selection becomes the new country; a load for it starts exactly when it differs from the old one and categories are non-empty |
| NewsPage.Page.Refresh | frontend/src/components/NewsPage.js:71-73 | callable only while the refresh control is enabled; reloads with the current selection and limit 20: loading, error cleared, selection unchanged |
| NewsPage.Page.ArticlesArrived | frontend/src/components/NewsPage.js:50-61 | success replaces the articles wholesale; success=false sets the server message or "Failed to load news" and keeps the articles; a thrown request sets "Failed to load news articles. Please try again." and keeps the articles; loading is false afterwards in every case |
| NewsPage.Page.Placeholders | frontend/src/components/NewsPage.js:129-134 | exactly 12 placeholders while loading, none otherwise |
| NewsPage.Page.Cards | frontend/src/components/NewsPage.js:129-138 | no article cards while loading; all articles otherwise |
| NewsPage.Page.ShowsEmptyState | frontend/src/components/NewsPage.js:142 | the "No articles found" message, for a falsy error, shows exactly when the grid holds neither placeholders nor cards and no banner shows; under the class invariant only when no error is set |
| NewsPage.Page.ShowsError | frontend/src/components/NewsPage.js:118 | the banner shows only when an error is set, and under the class invariant exactly then |
| NewsPage.Page.ShowsFilters | frontend/src/components/NewsPage.js:103-114 | the filter bar renders exactly when categories are non-empty; under the class invariant only after the taxonomy answer, and always once an article load has been issued |
| NewsPage.Page.RefreshEnabled | frontend/src/components/NewsFilters.js:46-48 | the refresh control can be pressed exactly when the filters show and no placeholders are shown, that is when nothing is loading |
| NewsPage.Page.DisplayIsConsistent | frontend/src/components/NewsPage.js:118-150 | placeholders and cards never show together; the empty-state message shows iff nothing is loading, there are no articles and there is no error; the banner shows iff an error is set |

The class invariant `NewsPage.Page.Valid` holds through every event. It says:

- an error message is never empty;
- article loads happen only once categories are known, and categories come
  only from the taxonomy answer;
- loading ends only when an article request resolves.

`MountScenario`, `RateLimitedScenario` and `TaxonomyFailureScenario` replay
these three sequences of events:

- mount, then a successful load of "general"/"US" with limit 20;
- a "rate limited" answer after articles were shown;
- a thrown taxonomy request, after which no load ever starts.

## Left out

- Network and parsing I/O is not modelled: `requests.get`, `raise_for_status`,
  `feedparser.parse`, `axios.get` and `axios.post`. A feed arrives as a
  `FetchOutcome` and an HTTP answer as a `Reply`.
- Image extraction (`extract_image_from_content`) wraps BeautifulSoup, which
  is not part of this model. Each entry carries the image source that the
  extraction would find, and it is used only when a summary is present.
- Publication date construction (`datetime(*published_parsed[:6])`) and the
  locale formatting in `formatDate` are not modelled. The date is an opaque
  optional string, and `NewsCard.FormatDate` returns it unformatted.
- `uuid4` ids are random, so they are supplied by the `newId` parameter.
- Pydantic validation of the records is not modelled. Only a missing `title`
  or `link` attribute is modelled as an error, and it aborts the whole scrape
  (the result is then empty).
- `Server.GetNews` takes what the scrape produced, or the exception that
  escaped it, as an argument. In the source nothing visible raises there,
  since the scrape itself catches every exception.
- The MongoDB status routes, the AI agent routes, CORS, logging and the
  startup and shutdown hooks are outside the news core.
- Overlapping requests are not modelled: no cancellation and no ordering. The
  model handles resolutions one at a time, and each one overwrites the state,
  so the last answer to arrive wins.
- JSX layout, CSS, `window.open` on click, `NewsFilters.js` and `App.js` are
  presentation. The one rule from `NewsFilters.js`, that refresh is disabled
  while loading, is the predicate `NewsPage.Page.RefreshEnabled` and the
  precondition of `NewsPage.Page.Refresh`.
- `toUpperCase` is modelled for ASCII letters only.
