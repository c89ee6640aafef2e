# Movie catalog page controllers, modelled in Dafny

This project models the two page controllers of the movie catalog web UI.

- **The listing page (`IndexModel`).** It checks that the four paging and sort query parameters are present. If one is missing, it redirects to fixed defaults. Otherwise it fetches the genre facet counts and one page of titles. It also derives the option lists the view renders: page sizes, sort fields, sort directions and the window of page numbers.
- **The title create/edit page (`TitleModel`).** A GET loads an existing title into the form, or shows a blank form. It lists the catalog's genres with the bound ones preselected. A POST validates the form against the declared validation attributes, upserts the title, sets a success message and redirects to the stored title.

Modules:

- `Catalog` (`catalog.dfy`): the entities (title, genre, title-genre link, paged result, filter, sort key, title type), drop-down entries, and the `Reply` of a data-service call (a value or a fault).
- `Text` (`text.dfy`): the .NET string behaviour the controllers rely on. This covers query-key comparison that ignores case, `char.IsWhiteSpace` and the decimal rendering of `int.ToString()`.
- `Int32` (`int32.dfy`): 32-bit `int` and C#'s unchecked wrap-around.
- `Sequences` (`sequences.dfy`): the LINQ `Where`, `Distinct` and `OrderBy` steps of the page-number window, and the fact that a strictly ascending sequence is determined by its elements.
- `Listing` (`listing.dfy`): the canonicalization guard, the four option lists and the `IndexModel` class with its `OnGet`.
- `TitleEdit` (`title_edit.dfy`): the validation rules, form loading, genre options, the success message and the `TitleModel` class with `OnGet` and `OnPost`.

The data service is not modelled as code. Each handler receives its answers as inputs: a `Reply` value, or a function from the call's arguments to a `Reply`. Each handler also returns the list of calls it made. This lets the contracts state which calls happen, how many, and with which arguments. An `ObjectNotFound` fault from the title lookup is the only fault a handler recovers from. Every other fault ends the request with a `ListingFault` or `TitleFault` outcome. Fields assigned before the fault keep their new values, and fields not yet assigned keep their old ones.

The four option properties of `IndexModel` are modelled as functions of the bound values they read. `GetGenreOptionsAsync` is modelled as a function of the genre catalog and the bound genre list.

Two requirements are not enforced by the controller code, and the model follows the code:

- A title's genre ids are meant to be unique, but the code only caps the list at three entries (`MaxLength(3)`). The model has the cap and no uniqueness rule; `GenreLimitBoundary` holds for lists with duplicates.
- The last page number is meant to be at least 1, but nothing in the controller establishes that, so `LastPageNumber` is an unconstrained `int` input.

## Model

| member | source | states |
|---|---|---|
| `Listing.RedirectTargetPassesGuard` | MovieCatalog.Web/Pages/Index.cshtml.cs:32-43 | for every route the redirect can carry, the query it produces has all four keys, so the request it leads to is not redirected again |
| `Listing.GuardIgnoresOtherKeys` | MovieCatalog.Web/Pages/Index.cshtml.cs:32-35 | adding or removing any key other than the four (a filter key, for instance) never changes whether the request redirects |
| `Text.SameKeyTransitive` | MovieCatalog.Web/Pages/Index.cshtml.cs:32-35 | two keys that each name the same parameter as a third name the same parameter as each other |
| `Listing.HasKeyRespelled` | MovieCatalog.Web/Pages/Index.cshtml.cs:32-35 | when every key of each query names the same parameter as some key of the other, `ContainsKey` answers the same for every name on both |
| `Listing.GuardSeesOnlyNamedParameters` | MovieCatalog.Web/Pages/Index.cshtml.cs:32-35 | two queries naming the same parameters get the same verdict from the guard |
| `Listing.GuardIgnoresCase` | MovieCatalog.Web/Pages/Index.cshtml.cs:32-35 | key lookup ignores case: respelling every key of any query, each in any mix of upper and lower case, never changes whether the request redirects |
| `Listing.GuardAcceptsLowerCase` | MovieCatalog.Web/Pages/Index.cshtml.cs:32-35 | for instance, the four keys written in lower case pass the guard |
| `Listing.IndexModel.constructor` | MovieCatalog.Web/Pages/Index.cshtml.cs:21-29 | the initial values: page size 20, page 1, sort by ReleaseYear, descending, empty filter, no genre counts, empty result |
| `Listing.IndexModel.OnGet` | MovieCatalog.Web/Pages/Index.cshtml.cs:30-56 | redirects iff one of the four keys is missing. The redirect carries exactly PageSize=20, PageNumber=1, TitleSort=ReleaseYear, SortDescending=true and no filter, makes no service call and leaves both result fields as they were. Otherwise it calls the genre counts, then `GetTitles` with exactly the bound page size, page number, filter, sort key and direction, and stores both answers. A fault stops the request, and any field not yet assigned keeps its value. The bound properties never change |
| `Listing.PageSizeOptions` | MovieCatalog.Web/Pages/Index.cshtml.cs:58-65 | five entries valued 10, 20, 30, 60, 120 in order, each labelled "<n> items/page". An entry is selected iff its value is the page size. At most one is selected, and exactly one iff the page size is on the menu |
| `Listing.PageSizeSelection` | MovieCatalog.Web/Pages/Index.cshtml.cs:58-65 | over any list whose entries are selected iff the page size equals the menu entry, the selected count is at most 1, and 1 exactly when the size is on the menu |
| `Listing.SortFieldOptions` | MovieCatalog.Web/Pages/Index.cshtml.cs:67-71 | one entry per sort key given, in order, with the key's name as label and value, selected iff it is the current key |
| `Listing.SortFieldOptionsSelectOne` | MovieCatalog.Web/Pages/Index.cshtml.cs:67-71 | over any duplicate-free enumeration that contains the current key, exactly one entry is selected |
| `Listing.TitleSortOptions` | MovieCatalog.Web/Pages/Index.cshtml.cs:67-71 | one entry per member of the sort enumeration, in the order `Enum.GetValues` yields them, with the member name as both label and value; exactly one is selected, the current sort key |
| `Catalog.TitleSortMembersEnumerate` | MovieCatalog.Web/Pages/Index.cshtml.cs:67-69 | the member list standing for `Enum.GetValues` (ascending underlying value) contains every sort key exactly once |
| `Listing.SortDirectionOptions` | MovieCatalog.Web/Pages/Index.cshtml.cs:73-77 | exactly two entries, ("Ascending","false") then ("Descending","true"); the second is selected iff sorting descends, the first iff not; exactly one is selected |
| `Sequences.KeepInRange` | MovieCatalog.Web/Pages/Index.cshtml.cs:85 | the `Where` step keeps exactly the elements inside the bounds and never lengthens the list |
| `Sequences.Distinct` | MovieCatalog.Web/Pages/Index.cshtml.cs:86 | the `Distinct` step yields a duplicate-free list with the same elements |
| `Sequences.Insert` | MovieCatalog.Web/Pages/Index.cshtml.cs:87 | inserting into an ascending list keeps it ascending, adds exactly that element, and keeps it strictly ascending when the element was new |
| `Sequences.SortAscending` | MovieCatalog.Web/Pages/Index.cshtml.cs:87 | the `OrderBy` step yields an ascending permutation of its input, strictly ascending when the input had no duplicates |
| `Sequences.StrictlyAscendingDeterminedByElements` | MovieCatalog.Web/Pages/Index.cshtml.cs:79-88 | two strictly ascending lists with the same elements are equal, so the window is the sorted list of its element set |
| `Int32.Wrap` | MovieCatalog.Web/Pages/Index.cshtml.cs:82-85 | unchecked `int` addition: the result is congruent to the true sum modulo 2^32, equals it when it fits, and int.MaxValue+1 becomes int.MinValue |
| `Listing.PageNumberOptions` | MovieCatalog.Web/Pages/Index.cshtml.cs:79-88 | the window is strictly ascending, so it has no duplicates. It has at most 9 entries, and it holds exactly the candidates `c` (computed with int wrap-around) with `1 <= c <= LastPageNumber + 1` |
| `Listing.CandidatesWithoutOverflow` | MovieCatalog.Web/Pages/Index.cshtml.cs:82-85 | unless LastPageNumber is int.MaxValue, `L + 1` does not wrap, and the in-range candidates computed with wrap-around are exactly the in-range unbounded ones |
| `Listing.PageNumberOptionsWithoutOverflow` | MovieCatalog.Web/Pages/Index.cshtml.cs:79-88 | unless LastPageNumber is int.MaxValue, the window holds exactly the in-range members of {1,2,3,p-1,p,p+1,L-1,L,L+1} and lies in [1, L+1]. It contains p when 1 <= p <= L+1, and contains 1 and L+1 when L >= 0 |
| `Listing.PageNumberOptionsAtMaxLastPage` | MovieCatalog.Web/Pages/Index.cshtml.cs:83-85 | with LastPageNumber = int.MaxValue, `LastPageNumber + 1` wraps and the window is empty |
| `Listing.PageNumberOptionsIs` | MovieCatalog.Web/Pages/Index.cshtml.cs:79-88 | any strictly ascending list of exactly the in-range candidates is the window |
| `Listing.PageNumberOptionsFiveOfFive` | MovieCatalog.Web/Pages/Index.cshtml.cs:79-88 | page 5 of 5 gives [1, 2, 3, 4, 5, 6] |
| `Listing.PageNumberOptionsOneOfOne` | MovieCatalog.Web/Pages/Index.cshtml.cs:79-88 | page 1 of 1 gives [1, 2] |
| `TitleEdit.FormValidIff` | MovieCatalog.Web/Pages/Title.cshtml.cs:26-53 | validation passes iff both titles are present, not blank and at most 500 characters long. Each year must be absent or in [1900, 2100], the runtime absent or in [1, 9999], and there may be at most 3 genres |
| `TitleEdit.GenreLimitBoundary` | MovieCatalog.Web/Pages/Title.cshtml.cs:50-53 | with the other fields valid, any 3 genre ids pass and any 4 fail, duplicates included |
| `TitleEdit.BlankTitleRejected` | MovieCatalog.Web/Pages/Title.cshtml.cs:26-32 | `[Required]` rejects any form whose primary or original title is empty or made only of white space |
| `TitleEdit.GenreIdsOf` | MovieCatalog.Web/Pages/Title.cshtml.cs:70 | the genre ids of a title's genre links, one per link, in the same order |
| `TitleEdit.TitleModel.constructor` | MovieCatalog.Web/Pages/Title.cshtml.cs:20-53 | a fresh page has no id and no message. Its form is blank: no titles, the default title type, no years, no runtime, an empty genre list |
| `TitleEdit.TitleModel.OnGet` | MovieCatalog.Web/Pages/Title.cshtml.cs:55-77 | with no id: shows the page, makes no call and changes nothing. With an id: looks it up exactly once. If found, it copies the two titles, the type, both years, the runtime and the genre ids in order. If not found, it redirects with the id cleared and leaves the form as it was. Any other fault propagates and leaves the form as it was |
| `TitleEdit.GenreOptions` | MovieCatalog.Web/Pages/Title.cshtml.cs:79-83 | one entry per catalog genre in service order, labelled by name and valued by the decimal id; selected iff the bound genre list contains the id |
| `Text.NatToDecimalInjective` | MovieCatalog.Web/Pages/Title.cshtml.cs:82 | distinct non-negative numbers have distinct digit strings |
| `Text.IntToDecimalInjective` | MovieCatalog.Web/Pages/Title.cshtml.cs:82 | distinct ids give distinct option values, so each submitted value names one genre |
| `TitleEdit.GenreOptionsSelectedCount` | MovieCatalog.Web/Pages/Title.cshtml.cs:79-83 | with distinct catalog ids, the number of preselected entries is the number of catalog ids the bound list names |
| `TitleEdit.GenreOptionsSelectAtMostBound` | MovieCatalog.Web/Pages/Title.cshtml.cs:79-83 | with distinct catalog ids, no more entries are preselected than the bound list has ids |
| `TitleEdit.ValidFormPreselectsAtMostThree` | MovieCatalog.Web/Pages/Title.cshtml.cs:50-53 | a form that passed validation preselects at most three genre options |
| `TitleEdit.SuccessMessageFor` | MovieCatalog.Web/Pages/Title.cshtml.cs:103-105 | the message is "Movie added successfully." iff the id was absent, and "Movie updated successfully." iff it was present |
| `TitleEdit.ResubmitLoadedTitle` | MovieCatalog.Web/Pages/Title.cshtml.cs:92-101 | submitting an unchanged loaded title sends back its own fields and genre ids in stored order. That form is valid iff the stored title meets the attribute rules |
| `TitleEdit.TitleModel.OnPost` | MovieCatalog.Web/Pages/Title.cshtml.cs:85-108 | an invalid submit redisplays the page with no upsert and leaves every field and the message unchanged. A valid one calls the upsert exactly once with the bound id, the fields and the genre list in order. On success it sets the added or updated message from whether the id was absent, and redirects to the id the service returned. A fault propagates with the message unchanged |

## Left out

- Asynchronous execution (`Task`, `await`) is left out: each handler runs to completion on the answers it is given.
- HTTP redirect mechanics and Razor rendering are left out: outcomes are datatypes, and option entries are (text, value, selected) triples.
- The data service implementation is left out: its answers are inputs. `PagedResult.Empty` is modelled as an empty page whose last page number is 1, because its definition is not part of this model.
- `LastPageNumber` is not computed here; it is an unconstrained 32-bit input.
- The logger and dependency injection are left out; they have no effect on the logic.
- `TempData` is left out: its one-request lifetime is not modelled, and `SuccessMessage` is a plain field.
- `ModelState` internals are left out: a value that fails to convert while binding is a boolean input of `OnPost`, and attribute validation is the predicate `FormValid`.
- `TitleSort` members: only `ReleaseYear` is known from the source. The other members, `PrimaryTitle` and `Rating`, stand in for the library's enumeration. The option lemmas hold for any duplicate-free member list.
- `TitleType` is modelled by its underlying integer, because its members belong to library code that is not part of this model.
- `Text.IntToDecimal`: genre option values are rendered with '-' as the negative sign. `int.ToString()` uses the current culture, which may render the sign differently (U+2212, say); ids that are not negative render the same in every culture.
- `Catalog.TitleSortMembers`: `Enum.GetValues` orders members by ascending underlying value. The stand-in members have no explicit values, so that order is their declaration order; the library's real values are not part of this model.
- `Text.SameKey`: query keys are compared ignoring ASCII case only; .NET's case-insensitive comparison also folds non-ASCII letters.
- `TitleEdit.StringLengthAtMost`: lengths count Unicode scalar values, while .NET counts UTF-16 code units, so a title with characters outside the Basic Multilingual Plane can pass here and fail there.
- Title years, runtime and genre ids are unbounded integers: the controller does no arithmetic on them, so their 32-bit width changes nothing.
- A fault of `GetGenresAsync` inside `GetGenreOptionsAsync` is left out: it propagates unchanged, and `GenreOptions` receives the catalog.
- `LatestMovies` is left out: it only exposes `Titles.Results`.
- Coordination of concurrent edits is left out, because the data service owns it.
