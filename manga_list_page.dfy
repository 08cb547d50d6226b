/**
  The manga list page: its filters live in the address bar as query pairs
  (`q`, `year`, repeated `status` and `contentRating`, and `page`), a load asks
  for 24 manga at the current page, and the page keeps the list, the total,
  an error and a loading flag.

  The pure parts are the parser and builder of the query pairs, the first page
  number, the request built from the filters and the number of pages. The page
  component itself is `MangaListController`: its fields are the component's
  state, and its methods are the state updates of `loadManga` (split at the
  `await` into `BeginLoad` and `CompleteLoad`), `handleSearch`,
  `handlePageChange` and the effect that rewrites the address bar.
*/
module MangaListPage {
  import opened Wrappers
  import Text
  import SearchParams
  import Api
  import opened MangaTypes

  const ItemsPerPage := 24

  /** The filters the page keeps (`Partial<MangaSearchParameters>`); `None` is an absent key. */
  datatype Filters = Filters(
    title: Option<string>,
    year: Option<int>,
    status: Option<seq<string>>,
    contentRating: Option<seq<string>>)

  const NoFilters := Filters(None, None, None, None)

  // ---------------------------------------------------------------------------
  // parseFiltersFromUrl and the first page

  /**
    `parseFiltersFromUrl(params)`: `q` becomes the title, `year` is kept when
    `parseInt` reads a number from it, and `status`/`contentRating` keep every
    value, in order; an absent key stays unset. A list that is set is never
    empty, and a year is only set when the address has one.
  */
  function ParseFilters(p: SearchParams.Params): (r: Filters)
    ensures r.title.Some? <==> SearchParams.Has(p, "q")
    ensures r.title == SearchParams.Get(p, "q")
    ensures r.year.Some? ==> SearchParams.Has(p, "year")
    ensures SearchParams.Has(p, "year") ==> r.year == Text.ParseInt(SearchParams.Get(p, "year").value)
    ensures r.status.Some? <==> SearchParams.Has(p, "status")
    ensures r.status.Some? ==> |r.status.value| > 0 && r.status.value == SearchParams.GetAll(p, "status")
    ensures r.contentRating.Some? <==> SearchParams.Has(p, "contentRating")
    ensures r.contentRating.Some? ==>
      |r.contentRating.value| > 0 && r.contentRating.value == SearchParams.GetAll(p, "contentRating")
  {
    SearchParams.GetAllEmpty(p, "status");
    SearchParams.GetAllEmpty(p, "contentRating");
    Filters(
      SearchParams.Get(p, "q"),
      match SearchParams.Get(p, "year") { case None => None case Some(v) => Text.ParseInt(v) },
      if SearchParams.Has(p, "status") then Some(SearchParams.GetAll(p, "status")) else None,
      if SearchParams.Has(p, "contentRating") then Some(SearchParams.GetAll(p, "contentRating")) else None)
  }

  /**
    `Number(searchParams.get('page')) || 1`: an absent page (`Number(null)` is
    0), a zero and anything that is not a number all give page 1; any other
    number `Number` reads is kept as it is, negative ones included.
  */
  function InitialPage(p: SearchParams.Params): (r: int)
    ensures r != 0
    ensures !SearchParams.Has(p, "page") ==> r == 1
    ensures SearchParams.Has(p, "page") ==>
      var n := Text.ParseNumber(SearchParams.Get(p, "page").value);
      && (n.Some? && n.value != 0 ==> r == n.value)
      && (n.None? || n.value == 0 ==> r == 1)
  {
    match SearchParams.Get(p, "page")
    case None => 1
    case Some(v) =>
      match Text.ParseNumber(v)
      case None => 1
      case Some(n) => if n == 0 then 1 else n
  }

  // ---------------------------------------------------------------------------
  // buildQueryStringFromFilters

  /** `name` paired with each value, in order. */
  function Named(name: string, values: seq<string>): (r: SearchParams.Params)
    ensures |r| == |values|
    ensures forall i :: 0 <= i < |r| ==> r[i] == (name, values[i])
  {
    if |values| == 0 then [] else [(name, values[0])] + Named(name, values[1..])
  }

  function TitlePairs(f: Filters): SearchParams.Params
  {
    if Truthy(f.title) then [("q", f.title.value)] else []
  }

  function YearPairs(f: Filters): SearchParams.Params
  {
    if f.year.Some? && f.year.value != 0 then [("year", Text.IntToDecimal(f.year.value))] else []
  }

  function PagePairs(page: int): SearchParams.Params
  {
    if page > 1 then [("page", Text.IntToDecimal(page))] else []
  }

  /**
    The pairs `buildQueryStringFromFilters` puts in the address: `q` for a
    truthy title, `year` for a truthy year, one pair per status and per
    content rating, and `page` only past the first page.
  */
  function QueryPairs(f: Filters, page: int): SearchParams.Params
  {
    TitlePairs(f) + (YearPairs(f) + (Named("status", f.status.GetOr([]))
      + (Named("contentRating", f.contentRating.GetOr([])) + PagePairs(page))))
  }

  /** The filters as the address can carry them: empty title, zero year and empty lists dropped. */
  function Canonical(f: Filters): (r: Filters)
    ensures r.title.Some? ==> r.title.value != ""
    ensures r.year.Some? ==> r.year.value != 0
    ensures r.status.Some? ==> |r.status.value| > 0
    ensures r.contentRating.Some? ==> |r.contentRating.value| > 0
  {
    Filters(
      if Truthy(f.title) then f.title else None,
      if f.year.Some? && f.year.value != 0 then f.year else None,
      if f.status.Some? && |f.status.value| > 0 then f.status else None,
      if f.contentRating.Some? && |f.contentRating.value| > 0 then f.contentRating else None)
  }

  /** The builder: `set` for the title and year, `append` in a loop for each list, `set` for the page. */
  method BuildQueryString(f: Filters, page: int) returns (query: string)
    ensures query == SearchParams.Serialize(QueryPairs(f, page))
  {
    var params := SetTitleAndYear(f);
    params := AppendEach(params, "status", f.status.GetOr([]));
    params := AppendEach(params, "contentRating", f.contentRating.GetOr([]));
    NamesOfHead(f);
    if page > 1 {
      params := SearchParams.Set(params, "page", Text.IntToDecimal(page));
    } else {
      assert params + PagePairs(page) == params;
    }
    Nest(TitlePairs(f), YearPairs(f), Named("status", f.status.GetOr([])),
         Named("contentRating", f.contentRating.GetOr([])), PagePairs(page));
    query := SearchParams.Serialize(params);
  }

  /** The first two statements of the builder. */
  method SetTitleAndYear(f: Filters) returns (params: SearchParams.Params)
    ensures params == TitlePairs(f) + YearPairs(f)
  {
    params := [];
    if Truthy(f.title) {
      params := SearchParams.Set(params, "q", f.title.value);
    }
    if f.year.Some? && f.year.value != 0 {
      assert Without(params, "year");
      params := SearchParams.Set(params, "year", Text.IntToDecimal(f.year.value));
    } else {
      assert params + YearPairs(f) == params;
    }
  }

  lemma Nest<T>(t: seq<T>, y: seq<T>, s: seq<T>, c: seq<T>, g: seq<T>)
    ensures t + y + s + c + g == t + (y + (s + (c + g)))
  {
  }

  /** The pairs written before the page never carry the name `page`. */
  lemma NamesOfHead(f: Filters)
    ensures Without(TitlePairs(f) + YearPairs(f) + Named("status", f.status.GetOr([]))
      + Named("contentRating", f.contentRating.GetOr([])), "page")
  {
    WithoutConcat(TitlePairs(f), YearPairs(f), "page");
    WithoutConcat(TitlePairs(f) + YearPairs(f), Named("status", f.status.GetOr([])), "page");
    WithoutConcat(TitlePairs(f) + YearPairs(f) + Named("status", f.status.GetOr([])),
      Named("contentRating", f.contentRating.GetOr([])), "page");
  }

  /** `values.forEach(v => params.append(name, v))`. */
  method AppendEach(params: SearchParams.Params, name: string, values: seq<string>) returns (r: SearchParams.Params)
    ensures r == params + Named(name, values)
  {
    r := params;
    for i := 0 to |values|
      invariant r == params + Named(name, values[..i])
    {
      assert Named(name, values[..i + 1]) == Named(name, values[..i]) + [(name, values[i])];
      r := SearchParams.Append(r, name, values[i]);
    }
    assert values[..|values|] == values;
  }

  // ---------------------------------------------------------------------------
  // reading the address back

  /** No pair of `p` has the name `name`: `has(name)` is false. */
  predicate Without(p: SearchParams.Params, name: string)
    ensures Without(p, name) <==> !SearchParams.Has(p, name)
  {
    forall i :: 0 <= i < |p| ==> p[i].0 != name
  }

  lemma WithoutConcat(a: SearchParams.Params, b: SearchParams.Params, name: string)
    requires Without(a, name) && Without(b, name)
    ensures Without(a + b, name)
  {
    forall i | 0 <= i < |a + b| ensures (a + b)[i].0 != name {
      if i >= |a| { assert (a + b)[i] == b[i - |a|]; }
    }
  }

  lemma {:induction false} GetSkip(a: SearchParams.Params, b: SearchParams.Params, name: string)
    requires Without(a, name)
    ensures SearchParams.Get(a + b, name) == SearchParams.Get(b, name)
  {
    if |a| > 0 {
      assert (a + b)[0] == a[0];
      assert (a + b)[1..] == a[1..] + b;
      GetSkip(a[1..], b, name);
    } else {
      assert a + b == b;
    }
  }

  lemma GetDeep(t: SearchParams.Params, y: SearchParams.Params, s: SearchParams.Params,
                c: SearchParams.Params, g: SearchParams.Params, name: string)
    requires Without(t, name) && Without(y, name) && Without(s, name) && Without(c, name)
    ensures SearchParams.Get(t + (y + (s + (c + g))), name) == SearchParams.Get(g, name)
  {
    GetSkip(c, g, name);
    GetSkip(s, c + g, name);
    GetSkip(y, s + (c + g), name);
    GetSkip(t, y + (s + (c + g)), name);
  }

  lemma GetAllDeep(t: SearchParams.Params, y: SearchParams.Params, s: SearchParams.Params,
                   c: SearchParams.Params, g: SearchParams.Params, name: string)
    requires Without(t, name) && Without(y, name) && Without(g, name)
    ensures SearchParams.GetAll(t + (y + (s + (c + g))), name) == SearchParams.GetAll(s, name) + SearchParams.GetAll(c, name)
  {
    SearchParams.GetAllEmpty(t, name);
    SearchParams.GetAllEmpty(y, name);
    SearchParams.GetAllEmpty(g, name);
    SearchParams.GetAllConcat(c, g, name);
    SearchParams.GetAllConcat(s, c + g, name);
    SearchParams.GetAllConcat(y, s + (c + g), name);
    SearchParams.GetAllConcat(t, y + (s + (c + g)), name);
  }

  lemma NamedWithout(name: string, values: seq<string>, other: string)
    requires name != other
    ensures Without(Named(name, values), other)
  {
  }

  lemma {:induction false} GetAllNamed(name: string, values: seq<string>)
    ensures SearchParams.GetAll(Named(name, values), name) == values
  {
    if |values| > 0 {
      assert Named(name, values)[1..] == Named(name, values[1..]);
      GetAllNamed(name, values[1..]);
    }
  }

  /** The `page` the parser reads back from the built pairs. */
  lemma ReadPage(f: Filters, page: int)
    ensures SearchParams.Get(QueryPairs(f, page), "page") == (if page > 1 then Some(Text.IntToDecimal(page)) else None)
  {
    NamedWithout("status", f.status.GetOr([]), "page");
    NamedWithout("contentRating", f.contentRating.GetOr([]), "page");
    GetDeep(TitlePairs(f), YearPairs(f), Named("status", f.status.GetOr([])),
      Named("contentRating", f.contentRating.GetOr([])), PagePairs(page), "page");
  }

  /** The `q` the parser reads back from the built pairs. */
  lemma ReadTitle(f: Filters, page: int)
    ensures SearchParams.Get(QueryPairs(f, page), "q") == (if Truthy(f.title) then f.title else None)
  {
    if !Truthy(f.title) {
      var t, y := TitlePairs(f), YearPairs(f);
      var s, c, g := Named("status", f.status.GetOr([])), Named("contentRating", f.contentRating.GetOr([])), PagePairs(page);
      NamedWithout("status", f.status.GetOr([]), "q");
      NamedWithout("contentRating", f.contentRating.GetOr([]), "q");
      GetDeep(t, y, s, c, g, "q");
      assert Without(g, "q");
    }
  }

  /** The `year` the parser reads back from the built pairs. */
  lemma ReadYear(f: Filters, page: int)
    ensures SearchParams.Get(QueryPairs(f, page), "year")
         == (if f.year.Some? && f.year.value != 0 then Some(Text.IntToDecimal(f.year.value)) else None)
  {
    var t, y := TitlePairs(f), YearPairs(f);
    var s, c, g := Named("status", f.status.GetOr([])), Named("contentRating", f.contentRating.GetOr([])), PagePairs(page);
    GetSkip(t, y + (s + (c + g)), "year");
    if y == [] {
      NamedWithout("status", f.status.GetOr([]), "year");
      NamedWithout("contentRating", f.contentRating.GetOr([]), "year");
      GetDeep([], [], s, c, g, "year");
      assert Without(g, "year");
      assert y + (s + (c + g)) == [] + ([] + (s + (c + g)));
    }
  }

  /** What the parser reads from `status` and `contentRating` in the built pairs. */
  lemma ReadLists(f: Filters, page: int)
    ensures SearchParams.GetAll(QueryPairs(f, page), "status") == f.status.GetOr([])
    ensures SearchParams.GetAll(QueryPairs(f, page), "contentRating") == f.contentRating.GetOr([])
  {
    var t, y := TitlePairs(f), YearPairs(f);
    var s, c, g := Named("status", f.status.GetOr([])), Named("contentRating", f.contentRating.GetOr([])), PagePairs(page);
    GetAllDeep(t, y, s, c, g, "status");
    GetAllDeep(t, y, s, c, g, "contentRating");
    GetAllNamed("status", f.status.GetOr([]));
    GetAllNamed("contentRating", f.contentRating.GetOr([]));
    NamedWithout("contentRating", f.contentRating.GetOr([]), "status");
    NamedWithout("status", f.status.GetOr([]), "contentRating");
    SearchParams.GetAllEmpty(c, "status");
    SearchParams.GetAllEmpty(s, "contentRating");
  }

  /**
    Round trip: parsing the pairs the builder writes gives back the filters
    as the address can carry them, and the page (page 1 for anything not past
    the first). So for a non-empty title, a non-zero year and non-empty lists
    the filters come back unchanged.
  */
  lemma RoundTrip(f: Filters, page: int)
    requires f.year.Some? ==> Text.IsSafeInteger(f.year.value)
    requires Text.IsSafeInteger(page)
    ensures ParseFilters(QueryPairs(f, page)) == Canonical(f)
    ensures InitialPage(QueryPairs(f, page)) == (if page > 1 then page else 1)
  {
    var p := QueryPairs(f, page);
    ReadTitle(f, page);
    ReadYear(f, page);
    ReadPage(f, page);
    ReadLists(f, page);
    SearchParams.GetAllEmpty(p, "status");
    SearchParams.GetAllEmpty(p, "contentRating");
    if f.year.Some? && f.year.value != 0 {
      Text.ParseIntOfDecimal(f.year.value);
    }
    if page > 1 {
      Text.ParseNumberOfDecimal(page);
    }
  }

  /** The builder cannot tell filters apart that differ only in what the address drops. */
  lemma QueryOfCanonical(f: Filters, page: int)
    ensures QueryPairs(Canonical(f), page) == QueryPairs(f, page)
    ensures Canonical(Canonical(f)) == Canonical(f)
  {
    var g := Canonical(f);
    assert TitlePairs(g) == TitlePairs(f);
    assert YearPairs(g) == YearPairs(f);
    assert g.status.GetOr([]) == f.status.GetOr([]);
    assert g.contentRating.GetOr([]) == f.contentRating.GetOr([]);
  }

  // ---------------------------------------------------------------------------
  // the request

  /**
    The `order` of a load: `relevance: desc` when a title, a year, a status or
    a content rating is set (truthy, or a non-empty list), otherwise
    `followedCount: desc`.
  */
  function SortOrder(f: Filters): seq<(string, string)>
  {
    if Truthy(f.title) || (f.year.Some? && f.year.value != 0)
       || (f.status.Some? && |f.status.value| > 0) || (f.contentRating.Some? && |f.contentRating.value| > 0)
    then [("relevance", "desc")]
    else [("followedCount", "desc")]
  }

  /** The order is chosen from what the address can carry, and relevance means some filter is set. */
  lemma SortOrderOfFilters(f: Filters)
    ensures SortOrder(Canonical(f)) == SortOrder(f)
    ensures SortOrder(f) == [("relevance", "desc")] <==> Canonical(f) != NoFilters
  {
  }

  /**
    The options of `loadManga(filters, page)`: 24 items from
    `(page - 1) * 24`, the filters spread in, `cover_art`, the sort order, and
    the languages `en` and `id`.
  */
  function ListRequest(f: Filters, page: int): (r: Api.ListOptions)
    ensures Api.ListLimit(r) == ItemsPerPage
    ensures page >= 1 ==> Api.ListOffset(r) >= 0 && Api.ListOffset(r) / ItemsPerPage + 1 == page
    ensures Api.ListOffset(r) % ItemsPerPage == 0
    ensures Api.ListOffset(r) == (page - 1) * ItemsPerPage
    ensures Api.ListOrder(r) == SortOrder(f) && r.order == Some(SortOrder(f))
    ensures Api.ListIncludes(r) == ["cover_art"] && r.includes == Some(["cover_art"])
    ensures Api.ListLanguages(r) == ["en", "id"] && r.availableTranslatedLanguage == Some(["en", "id"])
    ensures r.title == f.title && r.status == f.status && r.contentRating == f.contentRating
  {
    Api.ListOptions(
      Some(ItemsPerPage),
      Some((page - 1) * ItemsPerPage),
      Some(SortOrder(f)),
      Some(["cover_art"]),
      Some(["en", "id"]),
      f.title,
      if f.year.Some? then Some(Api.YearNumber(f.year.value)) else None,
      f.status,
      f.contentRating)
  }

  /** The request sends one status and one content-rating part per filter value, and a title part only for a truthy title. */
  lemma RequestCarriesFilters(f: Filters, page: int)
    ensures Api.PartsWithPrefix(Api.ListQueryParts(ListRequest(f, page)), "status[]=")
         == Api.EachPart("status[]=", f.status.GetOr([]), true)
    ensures Api.PartsWithPrefix(Api.ListQueryParts(ListRequest(f, page)), "contentRating[]=")
         == Api.EachPart("contentRating[]=", f.contentRating.GetOr([]), true)
    ensures |Api.PartsWithPrefix(Api.ListQueryParts(ListRequest(f, page)), "title=")| == (if Truthy(f.title) then 1 else 0)
  {
    Api.ListStatusParts(ListRequest(f, page));
    Api.ListContentRatingParts(ListRequest(f, page));
    Api.ListTitlePart(ListRequest(f, page));
  }

  /** `Math.ceil(total / 24)`. */
  function TotalPages(total: int): (r: int)
  {
    -((-total) / ItemsPerPage)
  }

  /** The pages are just enough for the items: the last page starts before the end and ends at or after it. */
  lemma TotalPagesBounds(total: int)
    ensures (TotalPages(total) - 1) * ItemsPerPage < total <= TotalPages(total) * ItemsPerPage
    ensures total >= 0 ==> TotalPages(total) >= 0
    ensures total >= 0 ==> (TotalPages(total) == 0 <==> total == 0)
  {
  }

  // ---------------------------------------------------------------------------
  // the page component

  const LoadFailedMessage := "Gagal mengambil data manga."

  class MangaListController {
    const pathname: string
    /** The pairs of the address bar (`useSearchParams()`). */
    var location: SearchParams.Params
    var mangaList: seq<Manga>
    var isLoading: bool
    var error: Option<string>
    var totalManga: int
    var activeFilters: Filters
    var currentPage: int

    /** While loading there is no error, and an error comes with an empty list and no total. */
    predicate Valid()
      reads this
    {
      (isLoading ==> error.None?) && (error.Some? ==> mangaList == [] && totalManga == 0)
    }

    /** The first render: filters and page read from the address, loading, nothing loaded yet. */
    constructor(pathname: string, location: SearchParams.Params)
      ensures Valid()
      ensures this.pathname == pathname && this.location == location
      ensures activeFilters == ParseFilters(location) && currentPage == InitialPage(location)
      ensures mangaList == [] && isLoading && error.None? && totalManga == 0
    {
      this.pathname := pathname;
      this.location := location;
      mangaList := [];
      isLoading := true;
      error := None;
      totalManga := 0;
      activeFilters := ParseFilters(location);
      currentPage := InitialPage(location);
    }

    function TotalPageCount(): int
      reads this
    {
      TotalPages(totalManga)
    }

    /** `loadManga(activeFilters, currentPage)` up to the `await`: loading starts, the error is cleared. */
    method BeginLoad() returns (request: Api.ListOptions)
      requires Valid()
      modifies this
      ensures Valid()
      ensures isLoading && error.None?
      ensures request == ListRequest(activeFilters, currentPage)
      ensures mangaList == old(mangaList) && totalManga == old(totalManga)
      ensures activeFilters == old(activeFilters) && currentPage == old(currentPage) && location == old(location)
    {
      isLoading := true;
      error := None;
      request := ListRequest(activeFilters, currentPage);
    }

    /**
      The rest of `loadManga`: `fetchMangaList` with the request, then an `ok`
      response gives the list and the total, anything else empties both and
      sets the first error detail or the default message; loading always ends.
    */
    method CompleteLoad(request: Api.ListOptions, outcome: Api.Fetched<ListResponse<Manga>>) returns (url: string)
      requires Valid() && isLoading
      modifies this
      ensures Valid()
      ensures url == Api.ListUrl(request)
      ensures !isLoading
      ensures outcome.Ok? && outcome.body.result == "ok" ==>
        mangaList == outcome.body.data && totalManga == outcome.body.total && error.None?
      ensures !(outcome.Ok? && outcome.body.result == "ok") ==>
        mangaList == [] && totalManga == 0
        && error == Some(FirstErrorDetail(if outcome.Ok? then outcome.body.errors else None, LoadFailedMessage))
      ensures error.Some? ==> error.value != ""
      ensures activeFilters == old(activeFilters) && currentPage == old(currentPage) && location == old(location)
    {
      var response;
      url, response := Api.FetchMangaList(request, outcome);
      if response.Some? && response.value.result == "ok" {
        mangaList := response.value.data;
        totalManga := response.value.total;
      } else {
        var errors := if response.Some? then response.value.errors else None;
        error := Some(FirstErrorDetail(errors, LoadFailedMessage));
        mangaList := [];
        totalManga := 0;
      }
      isLoading := false;
    }

    /** `handleSearch(filters)`: the new filters, back to page 1. */
    method HandleSearch(filters: Filters)
      requires Valid()
      modifies this
      ensures Valid()
      ensures activeFilters == filters && currentPage == 1
      ensures mangaList == old(mangaList) && isLoading == old(isLoading) && error == old(error)
      ensures totalManga == old(totalManga) && location == old(location)
    {
      activeFilters := filters;
      currentPage := 1;
    }

    /** `handlePageChange(page)`: only a different page is taken (and scrolls to the top). */
    method HandlePageChange(page: int) returns (scrolled: bool)
      requires Valid()
      modifies this
      ensures Valid()
      ensures scrolled <==> page != old(currentPage)
      ensures currentPage == page
      ensures activeFilters == old(activeFilters)
      ensures mangaList == old(mangaList) && isLoading == old(isLoading) && error == old(error)
      ensures totalManga == old(totalManga) && location == old(location)
    {
      scrolled := page != currentPage;
      if scrolled {
        currentPage := page;
      }
    }

    /**
      The effect that keeps the address in step with the filters and page:
      the address is replaced exactly when the built pairs are not a
      rearrangement of the current ones, and afterwards the two agree.
    */
    method SyncUrl() returns (target: Option<string>)
      requires Valid()
      modifies this
      ensures Valid()
      ensures activeFilters == old(activeFilters) && currentPage == old(currentPage)
      ensures mangaList == old(mangaList) && isLoading == old(isLoading) && error == old(error)
      ensures totalManga == old(totalManga)
      ensures var next := QueryPairs(activeFilters, currentPage);
        && (target.Some? <==> multiset(next) != multiset(old(location)))
        && (target.Some? ==> target.value == Api.WithQuery(pathname, SearchParams.Serialize(next)) && location == next)
        && (target.None? ==> location == old(location))
        && multiset(location) == multiset(next)
    {
      target := UrlTarget(pathname, activeFilters, currentPage, location);
      if target.Some? {
        location := QueryPairs(activeFilters, currentPage);
      }
    }
  }

  /**
    The decision of the address effect: `router.replace` to the path with the
    new query exactly when the normalised query strings differ, which is
    exactly when the new pairs are not a rearrangement of the current ones.
  */
  method UrlTarget(pathname: string, f: Filters, page: int, current: SearchParams.Params)
    returns (target: Option<string>)
    ensures target.Some? <==> multiset(QueryPairs(f, page)) != multiset(current)
    ensures target.Some? ==> target.value == Api.WithQuery(pathname, SearchParams.Serialize(QueryPairs(f, page)))
  {
    var query := BuildQueryString(f, page);
    var next := QueryPairs(f, page);
    SearchParams.ShouldReplaceIffNotRearranged(next, current);
    if SearchParams.Normalize(query) != SearchParams.Normalize(SearchParams.Serialize(current)) {
      target := Some(Api.WithQuery(pathname, query));
    } else {
      target := None;
    }
  }

  /** An address the page wrote itself is left alone when the page is opened from it. */
  lemma OwnAddressIsStable(f: Filters, page: int)
    requires f.year.Some? ==> Text.IsSafeInteger(f.year.value)
    requires Text.IsSafeInteger(page)
    ensures var loc := QueryPairs(f, page);
      !SearchParams.ShouldReplace(QueryPairs(ParseFilters(loc), InitialPage(loc)), loc)
  {
    var loc := QueryPairs(f, page);
    RoundTrip(f, page);
    QueryOfCanonical(f, page);
    assert PagePairs(InitialPage(loc)) == PagePairs(page);
    SearchParams.ShouldReplaceIffNotRearranged(loc, loc);
  }
}
