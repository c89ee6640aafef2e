/**
 * The listing page (`IndexModel`): it canonicalizes the four paging and sort
 * query parameters, fetches the genre facet counts and one page of titles,
 * and derives the drop-down and page-number options the view renders.
 */
module Listing {
  import opened Catalog
  import opened Text
  import opened Int32
  import opened Sequences

  // ---------------------------------------------------------------------
  // Canonicalization guard
  // ---------------------------------------------------------------------

  /** The query keys that must all be present for the page to render. */
  const CanonicalKeys: set<string> := {"PageSize", "PageNumber", "TitleSort", "SortDescending"}

  /** True when the query string lacks (ignoring ASCII case) at least one of the
      four paging and sort keys; the `Filter` keys play no part. */
  predicate MissingCanonicalKey(keys: set<string>)
  {
    || !HasKey(keys, "PageSize")
    || !HasKey(keys, "PageNumber")
    || !HasKey(keys, "TitleSort")
    || !HasKey(keys, "SortDescending")
  }

  /** The route values of a redirect to the listing; there is no filter among them. */
  datatype ListingRoute = ListingRoute(pageSize: int32, pageNumber: int32, titleSort: TitleSort, sortDescending: bool)

  /** Where an incomplete query is sent. */
  const DefaultRoute := ListingRoute(20, 1, ReleaseYear, true)

  /** The arguments of the data service's page query. */
  datatype TitleQuery = TitleQuery(pageSize: int32, page: int32, filter: TitleFilter, titleSort: TitleSort, sortDescending: bool)

  /** A call the listing makes to the data service. */
  datatype ServiceCall = GetGenresWithTitleCounts | GetTitles(query: TitleQuery)

  /** How a listing request ends. */
  datatype ListingOutcome = RedirectToIndex(route: ListingRoute) | ShowListing | ListingFault(error: ServiceError)

  /** The query keys a redirect to `route` writes: one per route value. */
  function RouteQueryKeys(route: ListingRoute): set<string>
  {
    match route
    case ListingRoute(_, _, _, _) => {"PageSize", "PageNumber", "TitleSort", "SortDescending"}
  }

  /** Following any redirect to the listing lands on a query string that passes
      the guard, so the canonicalization redirects at most once. */
  lemma RedirectTargetPassesGuard(route: ListingRoute)
    ensures !MissingCanonicalKey(RouteQueryKeys(route))
  {
  }

  /** Adding or removing a key that is none of the four (a filter key, say)
      never changes whether the guard redirects. */
  lemma GuardIgnoresOtherKeys(keys: set<string>, other: string)
    requires forall name :: name in CanonicalKeys ==> !SameKey(other, name)
    ensures MissingCanonicalKey(keys + {other}) == MissingCanonicalKey(keys)
    ensures MissingCanonicalKey(keys - {other}) == MissingCanonicalKey(keys)
  {
  }

  /** Key lookup ignores case: respelling every key of a query, each in any
      mix of upper and lower case, never changes whether the guard redirects. */
  lemma GuardIgnoresCase(keys: set<string>, respell: string -> string)
    requires forall k :: k in keys ==> SameKey(k, respell(k))
    ensures MissingCanonicalKey(keys) == MissingCanonicalKey(set k | k in keys :: respell(k))
  {
    var respelled := set k | k in keys :: respell(k);
    forall k | k in keys ensures exists k' :: k' in respelled && SameKey(k, k') {
      assert respell(k) in respelled;
    }
    forall k' | k' in respelled ensures exists k :: k in keys && SameKey(k, k') {
      var k :| k in keys && respell(k) == k';
    }
    HasKeyRespelled(keys, respelled);
    GuardSeesOnlyNamedParameters(keys, respelled);
  }

  /** The guard looks only at which parameters the query names. */
  lemma GuardSeesOnlyNamedParameters(keys: set<string>, other: set<string>)
    requires forall name :: HasKey(keys, name) == HasKey(other, name)
    ensures MissingCanonicalKey(keys) == MissingCanonicalKey(other)
  {
  }

  /** When each key of either set names the same parameter as some key of the
      other, both sets name the same parameters. */
  lemma HasKeyRespelled(keys: set<string>, respelled: set<string>)
    requires forall k :: k in keys ==> exists k' :: k' in respelled && SameKey(k, k')
    requires forall k' :: k' in respelled ==> exists k :: k in keys && SameKey(k, k')
    ensures forall name :: HasKey(keys, name) == HasKey(respelled, name)
  {
  }

  /** For instance, the all-lower-case spelling of the four keys passes the guard. */
  lemma GuardAcceptsLowerCase()
    ensures !MissingCanonicalKey({"pagesize", "pagenumber", "titlesort", "sortdescending"})
  {
  }

  // ---------------------------------------------------------------------
  // Derived option lists
  // ---------------------------------------------------------------------

  /** The page sizes on offer, in menu order. */
  const PageSizeMenu: seq<int> := [10, 20, 30, 60, 120]

  /** `PageSizeOptions`: the fixed five-entry menu; an entry is preselected exactly
      when it is the bound page size. */
  function PageSizeOptions(pageSize: int32): (r: seq<SelectItem>)
    ensures |r| == |PageSizeMenu|
    ensures forall i :: 0 <= i < |r| ==>
      && r[i].value == NatToDecimal(PageSizeMenu[i])
      && r[i].text == r[i].value + " items/page"
      && (r[i].selected <==> pageSize == PageSizeMenu[i])
    ensures SelectedCount(r) <= 1
    ensures SelectedCount(r) == 1 <==> pageSize in PageSizeMenu
  {
    var r := [
      SelectItem("10 items/page", "10", pageSize == 10),
      SelectItem("20 items/page", "20", pageSize == 20),
      SelectItem("30 items/page", "30", pageSize == 30),
      SelectItem("60 items/page", "60", pageSize == 60),
      SelectItem("120 items/page", "120", pageSize == 120)
    ];
    PageSizeMenuDecimals();
    PageSizeLabels();
    assert forall i :: 0 <= i < |r| ==>
      && r[i].value == NatToDecimal(PageSizeMenu[i])
      && r[i].text == r[i].value + " items/page"
      && (r[i].selected <==> pageSize == PageSizeMenu[i])
    by {
      forall i | 0 <= i < |r|
        ensures && r[i].value == NatToDecimal(PageSizeMenu[i])
                && r[i].text == r[i].value + " items/page"
                && (r[i].selected <==> pageSize == PageSizeMenu[i])
      {
        assert i == 0 || i == 1 || i == 2 || i == 3 || i == 4;
      }
    }
    PageSizeSelection(r, pageSize);
    r
  }

  /** The menu's values are the decimal renderings of the page sizes. */
  lemma PageSizeMenuDecimals()
    ensures NatToDecimal(10) == "10" && NatToDecimal(20) == "20" && NatToDecimal(30) == "30"
    ensures NatToDecimal(60) == "60" && NatToDecimal(120) == "120"
  {
  }

  /** The menu's labels are its values followed by " items/page". */
  lemma PageSizeLabels()
    ensures "10" + " items/page" == "10 items/page"
    ensures "20" + " items/page" == "20 items/page"
    ensures "30" + " items/page" == "30 items/page"
    ensures "60" + " items/page" == "60 items/page"
    ensures "120" + " items/page" == "120 items/page"
  {
  }

  /** Over the page-size menu, at most one entry is preselected, and one exactly
      when the page size is on the menu. */
  lemma PageSizeSelection(r: seq<SelectItem>, pageSize: int)
    requires |r| == |PageSizeMenu|
    requires forall i :: 0 <= i < |r| ==> (r[i].selected <==> pageSize == PageSizeMenu[i])
    ensures SelectedCount(r) <= 1
    ensures SelectedCount(r) == 1 <==> pageSize in PageSizeMenu
  {
    if k :| 0 <= k < |PageSizeMenu| && PageSizeMenu[k] == pageSize {
      SelectedCountOne(r, k);
    } else {
      SelectedCountZero(r);
    }
  }

  /** One entry per sort key of `members`, in order, labelled and valued by the key's name. */
  function SortFieldOptions(members: seq<TitleSort>, current: TitleSort): (r: seq<SelectItem>)
    ensures |r| == |members|
    ensures forall i :: 0 <= i < |r| ==>
      && r[i].text == TitleSortName(members[i])
      && r[i].value == TitleSortName(members[i])
      && (r[i].selected <==> members[i] == current)
  {
    if members == [] then []
    else
      var name := TitleSortName(members[0]);
      [SelectItem(name, name, members[0] == current)] + SortFieldOptions(members[1..], current)
  }

  /** Over an enumeration that lists `current` once, exactly one entry is preselected. */
  lemma SortFieldOptionsSelectOne(members: seq<TitleSort>, current: TitleSort)
    requires NoDuplicates(members) && current in members
    ensures SelectedCount(SortFieldOptions(members, current)) == 1
  {
    var k :| 0 <= k < |members| && members[k] == current;
    SelectedCountOne(SortFieldOptions(members, current), k);
  }

  /** `TitleSortOptions`: one entry per member of the sort enumeration, in the
      order `Enum.GetValues` yields, labelled and valued by the member name; the
      bound sort key is the one preselected entry. */
  function TitleSortOptions(current: TitleSort): (r: seq<SelectItem>)
    ensures |r| == |TitleSortMembers|
    ensures forall i :: 0 <= i < |r| ==>
      && r[i].value == TitleSortName(TitleSortMembers[i])
      && r[i].text == r[i].value
      && (r[i].selected <==> TitleSortMembers[i] == current)
    ensures SelectedCount(r) == 1
  {
    TitleSortMembersEnumerate();
    SortFieldOptionsSelectOne(TitleSortMembers, current);
    SortFieldOptions(TitleSortMembers, current)
  }

  /** `SortDirectionOptions`: "Ascending" (value "false") then "Descending"
      (value "true"); exactly one is preselected, the bound direction. */
  function SortDirectionOptions(sortDescending: bool): (r: seq<SelectItem>)
    ensures |r| == 2
    ensures r[0].text == "Ascending" && r[0].value == "false" && r[0].selected == !sortDescending
    ensures r[1].text == "Descending" && r[1].value == "true" && r[1].selected == sortDescending
    ensures SelectedCount(r) == 1
  {
    var r := [
      SelectItem("Ascending", "false", sortDescending == false),
      SelectItem("Descending", "true", sortDescending == true)
    ];
    SelectedCountOne(r, if sortDescending then 1 else 0);
    r
  }

  // ---------------------------------------------------------------------
  // Page-number window
  // ---------------------------------------------------------------------

  /** The nine candidate page numbers, computed with C#'s unchecked int arithmetic. */
  function PageNumberCandidates(pageNumber: int32, lastPageNumber: int32): seq<int>
  {
    [ 1, 2, 3,
      Wrap(pageNumber - 1), pageNumber, Wrap(pageNumber + 1),
      Wrap(lastPageNumber - 1), lastPageNumber, Wrap(lastPageNumber + 1) ]
  }

  /** `PageNumberOptions`: the candidates `c` with `0 < c <= lastPageNumber + 1`,
      without duplicates, in ascending order. */
  function PageNumberOptions(pageNumber: int32, lastPageNumber: int32): (r: seq<int>)
    ensures StrictlyAscending(r)
    ensures |r| <= 9
    ensures forall x :: x in r <==>
      x in PageNumberCandidates(pageNumber, lastPageNumber) && 1 <= x <= Wrap(lastPageNumber + 1)
  {
    var kept := KeepInRange(PageNumberCandidates(pageNumber, lastPageNumber), 1, Wrap(lastPageNumber + 1));
    var distinct := Distinct(kept);
    var r := SortAscending(distinct);
    assert |r| == |multiset(r)| == |multiset(distinct)| == |distinct|;
    forall x ensures x in r <==> x in distinct {
      assert x in r <==> x in multiset(r);
      assert x in distinct <==> x in multiset(distinct);
    }
    r
  }

  /** The window with unbounded arithmetic: the in-range members of
      {1, 2, 3, p-1, p, p+1, L-1, L, L+1}. */
  function IdealPageNumberCandidates(pageNumber: int, lastPageNumber: int): seq<int>
  {
    [ 1, 2, 3,
      pageNumber - 1, pageNumber, pageNumber + 1,
      lastPageNumber - 1, lastPageNumber, lastPageNumber + 1 ]
  }

  /** Unless the last page number is int.MaxValue, wrap-around changes nothing:
      the window holds exactly the in-range members of the nine unbounded
      candidates, lies within [1, L+1], always shows the current page when it is
      in range, and shows page 1 and page L+1 whenever L >= 0. */
  lemma PageNumberOptionsWithoutOverflow(pageNumber: int32, lastPageNumber: int32)
    requires lastPageNumber < Max
    ensures forall x :: x in PageNumberOptions(pageNumber, lastPageNumber) <==>
      x in IdealPageNumberCandidates(pageNumber, lastPageNumber) && 1 <= x <= lastPageNumber + 1
    ensures forall x :: x in PageNumberOptions(pageNumber, lastPageNumber) ==> 1 <= x <= lastPageNumber + 1
    ensures 1 <= pageNumber <= lastPageNumber + 1 ==> pageNumber in PageNumberOptions(pageNumber, lastPageNumber)
    ensures 0 <= lastPageNumber ==>
      1 in PageNumberOptions(pageNumber, lastPageNumber) && lastPageNumber + 1 in PageNumberOptions(pageNumber, lastPageNumber)
  {
    var w := PageNumberOptions(pageNumber, lastPageNumber);
    CandidatesWithoutOverflow(pageNumber, lastPageNumber);
    assert 1 in IdealPageNumberCandidates(pageNumber, lastPageNumber);
    assert pageNumber in IdealPageNumberCandidates(pageNumber, lastPageNumber);
    assert lastPageNumber + 1 in IdealPageNumberCandidates(pageNumber, lastPageNumber);
  }

  /** Below int.MaxValue the in-range wrapped candidates are the in-range
      unbounded ones: a wrapped value that lands in range is `L + 1` itself. */
  lemma CandidatesWithoutOverflow(pageNumber: int32, lastPageNumber: int32)
    requires lastPageNumber < Max
    ensures Wrap(lastPageNumber + 1) == lastPageNumber + 1
    ensures forall x :: x in PageNumberCandidates(pageNumber, lastPageNumber) && 1 <= x <= lastPageNumber + 1 <==>
      x in IdealPageNumberCandidates(pageNumber, lastPageNumber) && 1 <= x <= lastPageNumber + 1
  {
  }

  /** As written, a last page number of int.MaxValue wraps `L + 1` to
      int.MinValue and the window is empty. */
  lemma PageNumberOptionsAtMaxLastPage(pageNumber: int32)
    ensures PageNumberOptions(pageNumber, Max) == []
  {
    var w := PageNumberOptions(pageNumber, Max);
    assert Wrap(Max + 1) == Min;
    StrictlyAscendingDeterminedByElements(w, []);
  }

  /** The window is the one strictly ascending sequence holding the in-range
      candidates: any such sequence is the window. */
  lemma PageNumberOptionsIs(pageNumber: int32, lastPageNumber: int32, expected: seq<int>)
    requires lastPageNumber < Max
    requires StrictlyAscending(expected)
    requires forall x :: x in expected <==>
      x in IdealPageNumberCandidates(pageNumber, lastPageNumber) && 1 <= x <= lastPageNumber + 1
    ensures PageNumberOptions(pageNumber, lastPageNumber) == expected
  {
    PageNumberOptionsWithoutOverflow(pageNumber, lastPageNumber);
    StrictlyAscendingDeterminedByElements(PageNumberOptions(pageNumber, lastPageNumber), expected);
  }

  /** Page 5 of 5 shows pages 1 to 6. */
  lemma PageNumberOptionsFiveOfFive()
    ensures PageNumberOptions(5, 5) == [1, 2, 3, 4, 5, 6]
  {
    var p: int32, l: int32 := 5, 5;
    PageNumberOptionsIs(p, l, [1, 2, 3, 4, 5, 6]);
  }

  /** Page 1 of 1 shows pages 1 and 2. */
  lemma PageNumberOptionsOneOfOne()
    ensures PageNumberOptions(1, 1) == [1, 2]
  {
    var p: int32, l: int32 := 1, 1;
    PageNumberOptionsIs(p, l, [1, 2]);
  }

  // ---------------------------------------------------------------------
  // The page model and its GET handler
  // ---------------------------------------------------------------------

  /** The listing page's state: the five query-bound properties and the two
      properties the GET handler fills from the data service. */
  class IndexModel {
    var pageSize: int32
    var pageNumber: int32
    var titleSort: TitleSort
    var sortDescending: bool
    var filter: TitleFilter
    var genresWithCounts: map<Genre, int>
    var titles: PagedResult

    /** A fresh page model: the declared property initializers. */
    constructor ()
      ensures pageSize == 20 && pageNumber == 1 && titleSort == ReleaseYear && sortDescending
      ensures filter == EmptyFilter
      ensures genresWithCounts == map[] && titles == EmptyPagedResult
    {
      pageSize, pageNumber, titleSort, sortDescending := 20, 1, ReleaseYear, true;
      filter := EmptyFilter;
      genresWithCounts, titles := map[], EmptyPagedResult;
    }

    /** The page query the bound properties ask for. */
    function TitlesRequest(): TitleQuery
      reads this
    {
      TitleQuery(pageSize, pageNumber, filter, titleSort, sortDescending)
    }

    /** `OnGet`: redirect to the defaults when a paging or sort key is missing
        from the query string; otherwise fetch the genre counts, then the page
        of titles for exactly the bound values. `calls` lists the data-service
        calls made, in order; a fault of either call propagates. */
    method OnGet(queryKeys: set<string>, genreCounts: Reply<map<Genre, int>>,
                 titlePage: TitleQuery -> Reply<PagedResult>)
      returns (outcome: ListingOutcome, calls: seq<ServiceCall>)
      modifies this
      ensures TitlesRequest() == old(TitlesRequest())
      ensures outcome.RedirectToIndex? <==> MissingCanonicalKey(queryKeys)
      ensures MissingCanonicalKey(queryKeys) ==>
        && outcome == RedirectToIndex(DefaultRoute)
        && calls == []
        && genresWithCounts == old(genresWithCounts) && titles == old(titles)
      ensures !MissingCanonicalKey(queryKeys) && genreCounts.Fault? ==>
        && outcome == ListingFault(genreCounts.error)
        && calls == [GetGenresWithTitleCounts]
        && genresWithCounts == old(genresWithCounts) && titles == old(titles)
      ensures !MissingCanonicalKey(queryKeys) && genreCounts.Ok? ==>
        && calls == [GetGenresWithTitleCounts, GetTitles(TitlesRequest())]
        && genresWithCounts == genreCounts.value
        && match titlePage(TitlesRequest())
           case Ok(page) => outcome == ShowListing && titles == page
           case Fault(e) => outcome == ListingFault(e) && titles == old(titles)
    {
      if MissingCanonicalKey(queryKeys) {
        return RedirectToIndex(DefaultRoute), [];
      }
      calls := [GetGenresWithTitleCounts];
      match genreCounts {
        case Fault(e) =>
          return ListingFault(e), calls;
        case Ok(counts) =>
          genresWithCounts := counts;
      }
      var request := TitlesRequest();
      calls := calls + [GetTitles(request)];
      match titlePage(request) {
        case Fault(e) =>
          return ListingFault(e), calls;
        case Ok(page) =>
          titles := page;
      }
      outcome := ShowListing;
    }
  }
}
