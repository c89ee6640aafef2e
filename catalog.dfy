/**
 * Entities shared by the two page controllers of the movie catalog web UI,
 * and the shape of the answers the catalog data service gives them.
 */
module Catalog {
  import Int32

  /** A nullable value (`int?`, `string?`) of the controllers' bound properties. */
  datatype Option<+T> = None | Some(value: T)

  /** Why a data-service call failed. `ObjectNotFound` is the condition the title
      lookup raises for an unknown id; every other fault is `Failure`. */
  datatype ServiceError = ObjectNotFound | Failure(message: string)

  /** The answer of one data-service call: a value, or the exception it throws. */
  datatype Reply<+T> = Ok(value: T) | Fault(error: ServiceError)

  /** A genre as owned by the data service. */
  datatype Genre = Genre(id: int, name: string)

  /** One association between a title and a genre. */
  datatype TitleGenre = TitleGenre(titleId: int, genreId: int)

  /** The title type enumeration, by its underlying integer; `TitleType(0)` is the
      default value an unset enum property holds. */
  datatype TitleType = TitleType(code: int)

  const DefaultTitleType := TitleType(0)

  /** A title record as the data service returns it. */
  datatype Title = Title(
    id: int,
    primaryTitle: string,
    originalTitle: string,
    titleType: TitleType,
    startYear: Option<int>,
    endYear: Option<int>,
    runtimeMinutes: Option<int>,
    titleGenres: seq<TitleGenre>)

  /** The listing's filter: passed through to the data service, never inspected. */
  datatype TitleFilter = TitleFilter(criteria: map<string, string>)

  const EmptyFilter := TitleFilter(map[])

  /** The sort keys of the listing; a stand-in with no explicit underlying values. */
  datatype TitleSort = ReleaseYear | PrimaryTitle | Rating

  /** Every member of `TitleSort`, in the order `Enum.GetValues` yields: ascending
      underlying value, which for this stand-in is declaration order. */
  const TitleSortMembers: seq<TitleSort> := [ReleaseYear, PrimaryTitle, Rating]

  /** The member name, as `Enum.ToString` renders it. */
  function TitleSortName(s: TitleSort): string
  {
    match s
    case ReleaseYear => "ReleaseYear"
    case PrimaryTitle => "PrimaryTitle"
    case Rating => "Rating"
  }

  /** One page of titles; `lastPageNumber` is computed by the data service. */
  datatype PagedResult = PagedResult(results: seq<Title>, totalCount: Int32.int32, lastPageNumber: Int32.int32)

  /** The empty result a listing holds before any fetch. */
  const EmptyPagedResult := PagedResult([], 0, 1)

  /** An entry of a drop-down list: display text, submitted value, whether it is preselected. */
  datatype SelectItem = SelectItem(text: string, value: string, selected: bool)

  /** How many entries of a drop-down list are preselected. */
  function SelectedCount(items: seq<SelectItem>): nat
  {
    if items == [] then 0
    else (if items[0].selected then 1 else 0) + SelectedCount(items[1..])
  }

  /** No two entries share an element. */
  predicate NoDuplicates<T(==)>(s: seq<T>)
  {
    forall i, j :: 0 <= i < j < |s| ==> s[i] != s[j]
  }

  /** `TitleSortMembers` enumerates the enum: every member exactly once. */
  lemma TitleSortMembersEnumerate()
    ensures NoDuplicates(TitleSortMembers)
    ensures forall s: TitleSort :: s in TitleSortMembers
  {
    forall s: TitleSort ensures s in TitleSortMembers {
      match s
      case ReleaseYear => assert TitleSortMembers[0] == s;
      case PrimaryTitle => assert TitleSortMembers[1] == s;
      case Rating => assert TitleSortMembers[2] == s;
    }
  }

  /** A list with no preselected entry counts zero. */
  lemma {:induction false} SelectedCountZero(items: seq<SelectItem>)
    requires forall i :: 0 <= i < |items| ==> !items[i].selected
    ensures SelectedCount(items) == 0
  {
    if items != [] {
      SelectedCountZero(items[1..]);
    }
  }

  /** A list whose only preselected entry is at index `k` has exactly one preselected entry. */
  lemma {:induction false} SelectedCountOne(items: seq<SelectItem>, k: nat)
    requires k < |items|
    requires forall i :: 0 <= i < |items| ==> (items[i].selected <==> i == k)
    ensures SelectedCount(items) == 1
  {
    if k == 0 {
      SelectedCountZero(items[1..]);
    } else {
      SelectedCountOne(items[1..], k - 1);
    }
  }
}
