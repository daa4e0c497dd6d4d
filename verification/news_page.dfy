/** The news page's state and the events that change it: the one-time
    taxonomy load, article loads (started on taxonomy arrival, on a change of
    the selected category or country, and on refresh) and the three ways an
    article request resolves.  Each network answer arrives as an event
    argument; requests are returned to the caller instead of being sent.
    Resolutions are taken one at a time, each overwriting the state. */
module NewsPage {
  import opened Wrappers
  import opened Server

  const PageSize := 20
  const PlaceholderCount := 12
  const CategoriesError := "Failed to load news categories"
  const NewsError := "Failed to load news"
  const RequestError := "Failed to load news articles. Please try again."

  /** How an HTTP request ended: with a decoded body, or by throwing. */
  datatype Reply<T> = Answered(body: T) | RequestThrew

  /** The message shown for an answered `success=false` article response:
      the server's message, or the generic one when it is absent or empty. */
  function FailureMessage(serverError: Option<string>): (m: string)
    ensures m != ""
    ensures serverError.Some? && serverError.value != "" ==> m == serverError.value
    ensures serverError.None? || serverError.value == "" ==> m == NewsError
  {
    if serverError.Some? && serverError.value != "" then serverError.value else NewsError
  }

  class Page {
    var articles: seq<Article>
    var categories: seq<TaxonomyEntry>
    var countries: seq<TaxonomyEntry>
    var selectedCategory: string
    var selectedCountry: string
    var isLoading: bool
    var error: Option<string>

    /** The taxonomy request has resolved (it is issued once, on mount). */
    ghost var taxonomyResolved: bool
    /** Article requests issued and resolved so far. */
    ghost var issued: nat
    ghost var resolved: nat

    ghost predicate Valid()
      reads this
    {
      // every error message shown is non-empty
      && (error.Some? ==> error.value != "")
      // a resolution answers an issued request
      && resolved <= issued
      // article requests are issued only once taxonomy categories are known
      && (issued > 0 ==> |categories| > 0)
      // categories come only from the taxonomy answer
      && (|categories| > 0 ==> taxonomyResolved)
      // loading ends only when an article request resolves
      && (!isLoading ==> resolved > 0)
    }

    /** The state on mount. */
    constructor ()
      ensures Valid()
      ensures articles == [] && categories == [] && countries == []
      ensures selectedCategory == "general" && selectedCountry == "US"
      ensures isLoading && error.None?
      ensures !taxonomyResolved && issued == 0 && resolved == 0
    {
      articles, categories, countries := [], [], [];
      selectedCategory, selectedCountry := "general", "US";
      isLoading, error := true, None;
      taxonomyResolved, issued, resolved := false, 0, 0;
    }

    /** `loadNews` up to the request: loading starts, the error is cleared,
        and the request for the current selection is returned. */
    method LoadNews() returns (request: NewsRequest)
      requires Valid() && |categories| > 0
      modifies this
      ensures Valid()
      ensures request == NewsRequest(selectedCategory, selectedCountry, PageSize)
      ensures isLoading && error.None?
      ensures issued == old(issued) + 1 && resolved == old(resolved)
      ensures articles == old(articles) && categories == old(categories) && countries == old(countries)
      ensures selectedCategory == old(selectedCategory) && selectedCountry == old(selectedCountry)
      ensures taxonomyResolved == old(taxonomyResolved)
    {
      isLoading := true;
      error := None;
      issued := issued + 1;
      request := NewsRequest(selectedCategory, selectedCountry, PageSize);
    }

    /** The reload effect: it loads the articles when categories are known. */
    method ReloadIfReady() returns (request: Option<NewsRequest>)
      requires Valid()
      modifies this
      ensures Valid()
      ensures request.Some? <==> |categories| > 0
      ensures request.Some? ==>
        && request.value == NewsRequest(selectedCategory, selectedCountry, PageSize)
        && isLoading && error.None? && issued == old(issued) + 1
      ensures request.None? ==>
        isLoading == old(isLoading) && error == old(error) && issued == old(issued)
      ensures resolved == old(resolved)
      ensures articles == old(articles) && categories == old(categories) && countries == old(countries)
      ensures selectedCategory == old(selectedCategory) && selectedCountry == old(selectedCountry)
      ensures taxonomyResolved == old(taxonomyResolved)
    {
      if |categories| > 0 {
        var r := LoadNews();
        request := Some(r);
      } else {
        request := None;
      }
    }

    /** The taxonomy request resolves.  A successful answer installs the
        categories and countries, which reruns the reload effect; a
        `success=false` answer changes nothing; a thrown request shows the
        taxonomy error.  In the last two cases no article load follows and
        the page stays loading. */
    method TaxonomyArrived(reply: Reply<TaxonomyResponse>) returns (request: Option<NewsRequest>)
      requires Valid() && !taxonomyResolved
      modifies this
      ensures Valid() && taxonomyResolved
      ensures reply.RequestThrew? ==>
        && request.None? && isLoading && error == Some(CategoriesError)
        && articles == old(articles) && categories == old(categories) && countries == old(countries)
      ensures reply.Answered? && !reply.body.success ==>
        && request.None? && isLoading && error == old(error)
        && articles == old(articles) && categories == old(categories) && countries == old(countries)
      ensures reply.Answered? && reply.body.success ==>
        && categories == reply.body.categories && countries == reply.body.countries
        && articles == old(articles)
        && (request.Some? <==> |reply.body.categories| > 0)
        && (request.Some? ==>
              request.value == NewsRequest(selectedCategory, selectedCountry, PageSize) && error.None?)
        && (request.None? ==> error == old(error))
        && isLoading
      ensures selectedCategory == old(selectedCategory) && selectedCountry == old(selectedCountry)
      ensures resolved == old(resolved) && issued == old(issued) + (if request.Some? then 1 else 0)
    {
      taxonomyResolved := true;
      request := None;
      match reply {
        case RequestThrew =>
          error := Some(CategoriesError);
        case Answered(body) =>
          if body.success {
            categories := body.categories;
            countries := body.countries;
            request := ReloadIfReady();
          }
      }
    }

    /** The user picks a category.  Picking the selected one again does not
        rerun the reload effect. */
    method SelectCategory(category: string) returns (request: Option<NewsRequest>)
      requires Valid() && ShowsFilters()
      modifies this
      ensures Valid()
      ensures selectedCategory == category && selectedCountry == old(selectedCountry)
      ensures request.Some? <==> category != old(selectedCategory) && |categories| > 0
      ensures request.Some? ==>
        request.value == NewsRequest(category, selectedCountry, PageSize) && isLoading && error.None?
      ensures request.None? ==> isLoading == old(isLoading) && error == old(error)
      ensures articles == old(articles) && categories == old(categories) && countries == old(countries)
      ensures resolved == old(resolved) && issued == old(issued) + (if request.Some? then 1 else 0)
      ensures taxonomyResolved == old(taxonomyResolved)
    {
      if category == selectedCategory {
        return None;
      }
      selectedCategory := category;
      request := ReloadIfReady();
    }

    /** The user picks a country, as for a category. */
    method SelectCountry(country: string) returns (request: Option<NewsRequest>)
      requires Valid() && ShowsFilters()
      modifies this
      ensures Valid()
      ensures selectedCountry == country && selectedCategory == old(selectedCategory)
      ensures request.Some? <==> country != old(selectedCountry) && |categories| > 0
      ensures request.Some? ==>
        request.value == NewsRequest(selectedCategory, country, PageSize) && isLoading && error.None?
      ensures request.None? ==> isLoading == old(isLoading) && error == old(error)
      ensures articles == old(articles) && categories == old(categories) && countries == old(countries)
      ensures resolved == old(resolved) && issued == old(issued) + (if request.Some? then 1 else 0)
      ensures taxonomyResolved == old(taxonomyResolved)
    {
      if country == selectedCountry {
        return None;
      }
      selectedCountry := country;
      request := ReloadIfReady();
    }

    /** `handleRefresh`: reload with the current selection.  The refresh
        control can be pressed only while it is enabled: the filters are
        shown (categories are known) and nothing is loading. */
    method Refresh() returns (request: NewsRequest)
      requires Valid() && RefreshEnabled()
      modifies this
      ensures Valid()
      ensures request == NewsRequest(old(selectedCategory), old(selectedCountry), PageSize)
      ensures isLoading && error.None?
      ensures resolved == old(resolved) && issued == old(issued) + 1
      ensures articles == old(articles) && categories == old(categories) && countries == old(countries)
      ensures selectedCategory == old(selectedCategory) && selectedCountry == old(selectedCountry)
      ensures taxonomyResolved == old(taxonomyResolved)
    {
      request := LoadNews();
    }

    /** An article request resolves.  Success replaces the articles
        wholesale; `success=false` shows the server's message (or the
        generic one) and keeps the articles; a thrown request shows the
        retry message and keeps the articles.  Loading ends in every case. */
    method ArticlesArrived(reply: Reply<NewsResponse>)
      requires Valid() && resolved < issued
      modifies this
      ensures Valid()
      ensures !isLoading
      ensures resolved == old(resolved) + 1 && issued == old(issued)
      ensures reply.Answered? && reply.body.success ==>
        articles == reply.body.articles && error == old(error)
      ensures reply.Answered? && !reply.body.success ==>
        articles == old(articles) && error == Some(FailureMessage(reply.body.error))
      ensures reply.RequestThrew? ==>
        articles == old(articles) && error == Some(RequestError)
      ensures categories == old(categories) && countries == old(countries)
      ensures selectedCategory == old(selectedCategory) && selectedCountry == old(selectedCountry)
      ensures taxonomyResolved == old(taxonomyResolved)
    {
      match reply {
        case Answered(body) =>
          if body.success {
            articles := body.articles;
          } else {
            error := Some(FailureMessage(body.error));
          }
        case RequestThrew =>
          error := Some(RequestError);
      }
      isLoading := false;
      resolved := resolved + 1;
    }

    // -------------------------------------------------------------------
    // What the page shows

    /** Number of placeholder cards in the grid. */
    function Placeholders(): (n: nat)
      reads this
      ensures n > 0 <==> isLoading
      ensures n == 0 || n == PlaceholderCount
    {
      if isLoading then PlaceholderCount else 0
    }

    /** The article cards in the grid: none while loading. */
    function Cards(): (cards: seq<Article>)
      reads this
      ensures isLoading ==> cards == []
      ensures !isLoading ==> cards == articles
    {
      if isLoading then [] else articles
    }

    /** The "No articles found" message, for a falsy `error`: shown exactly
        when the grid holds neither placeholders nor cards and no error
        banner shows; under the class invariant, only when no error is set. */
    predicate ShowsEmptyState()
      reads this
      ensures ShowsEmptyState() <==> Placeholders() == 0 && Cards() == [] && !ShowsError()
      ensures Valid() && ShowsEmptyState() ==> error.None?
    {
      !isLoading && |articles| == 0 && (error.None? || error.value == "")
    }

    /** The error banner, shown for a truthy `error`; under the class
        invariant it shows exactly when an error is set. */
    predicate ShowsError()
      reads this
      ensures ShowsError() ==> error.Some?
      ensures Valid() ==> (ShowsError() <==> error.Some?)
    {
      error.Some? && error.value != ""
    }

    /** The filter bar, with the category and country selects and the
        refresh control: rendered once the taxonomy has delivered categories,
        and then for good, since every article load needs them. */
    predicate ShowsFilters()
      reads this
      ensures ShowsFilters() <==> |categories| > 0
      ensures Valid() && ShowsFilters() ==> taxonomyResolved
      ensures Valid() && issued > 0 ==> ShowsFilters()
    {
      |categories| > 0
    }

    /** The refresh control is disabled while loading: it can be pressed
        only when the filters show and the grid holds no placeholders. */
    predicate RefreshEnabled()
      reads this
      ensures RefreshEnabled() <==> ShowsFilters() && Placeholders() == 0
    {
      ShowsFilters() && !isLoading
    }

    /** The grid shows placeholders or cards, never both; the empty-state
        message appears exactly when no card, no placeholder and no error
        is shown; an error is shown exactly when one is set. */
    lemma DisplayIsConsistent()
      requires Valid()
      ensures Placeholders() == 0 || Cards() == []
      ensures ShowsEmptyState() <==> Placeholders() == 0 && Cards() == [] && !ShowsError()
      ensures ShowsError() <==> error.Some?
    {
    }
  }

  /** Mount, a successful taxonomy answer, then the first article load: the
      request is for "general" in "US" with limit 20; once it answers, the
      page shows its articles. */
  method MountScenario(articles: seq<Article>)
  {
    var page := new Page();
    var request := page.TaxonomyArrived(Answered(GetNewsCategories()));
    assert request == Some(DefaultRequest);
    var response := GetNews(request.value, Success(articles));
    page.ArticlesArrived(Answered(response));
    assert page.Cards() == articles && !page.ShowsError();
    assert page.ShowsEmptyState() <==> articles == [];
  }

  /** A `success=false` answer with the message "rate limited" after some
      articles were shown: the message is shown, the articles are kept and
      loading has ended. */
  method RateLimitedScenario(shown: seq<Article>)
  {
    var page := new Page();
    var request := page.TaxonomyArrived(Answered(GetNewsCategories()));
    page.ArticlesArrived(Answered(GetNews(request.value, Success(shown))));
    var again := page.Refresh();
    assert again == NewsRequest("general", "US", 20);
    page.ArticlesArrived(Answered(GetNews(again, Failure("rate limited"))));
    assert page.error == Some("rate limited");
    assert page.articles == shown && !page.isLoading;
  }

  /** A thrown taxonomy request: the error is shown above the placeholders,
      no filters appear and no article load is ever started. */
  method TaxonomyFailureScenario()
  {
    var page := new Page();
    var request := page.TaxonomyArrived(RequestThrew);
    assert request.None? && page.ShowsError() && page.Placeholders() == PlaceholderCount;
    assert !page.ShowsFilters() && !page.RefreshEnabled();
  }
}
