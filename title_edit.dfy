/**
 * The combined create/edit page for one title (`TitleModel`): it loads an
 * existing title into the form or shows a blank one, lists the genres with the
 * bound ones preselected, and on submit validates the form, upserts the title
 * and redirects with a success message.
 */
module TitleEdit {
  import opened Catalog
  import opened Text

  // ---------------------------------------------------------------------
  // The form and its validation attributes
  // ---------------------------------------------------------------------

  const TitleMaxLength: nat := 500
  const MinYear: int := 1900
  const MaxYear: int := 2100
  const MinRuntime: int := 1
  const MaxRuntime: int := 9999
  const MaxGenres: nat := 3

  /** The bound form fields (every bound property except `Id`). */
  datatype TitleForm = TitleForm(
    primaryTitle: Option<string>,
    originalTitle: Option<string>,
    titleType: TitleType,
    startYear: Option<int>,
    endYear: Option<int>,
    runtimeMinutes: Option<int>,
    genres: seq<int>)

  /** The form of a freshly created page model. */
  const BlankForm := TitleForm(None, None, DefaultTitleType, None, None, None, [])

  /** `[Required]` on a string: present and not empty or white space only. */
  predicate RequiredText(s: Option<string>)
  {
    s.Some? && !IsBlank(s.value)
  }

  /** `[StringLength(max)]`: absent, or at most `max` characters. */
  predicate StringLengthAtMost(s: Option<string>, max: nat)
  {
    s.None? || |s.value| <= max
  }

  /** `[Range(lo, hi)]` on a nullable number: absent, or within [lo, hi]. */
  predicate InRange(v: Option<int>, lo: int, hi: int)
  {
    v.None? || lo <= v.value <= hi
  }

  /** `[MaxLength(max)]` on a list. */
  predicate MaxLength(s: seq<int>, max: nat)
  {
    |s| <= max
  }

  /** The validation attributes of the form's properties, all together. */
  predicate FormValid(f: TitleForm)
  {
    && RequiredText(f.primaryTitle) && StringLengthAtMost(f.primaryTitle, TitleMaxLength)
    && RequiredText(f.originalTitle) && StringLengthAtMost(f.originalTitle, TitleMaxLength)
    && InRange(f.startYear, MinYear, MaxYear)
    && InRange(f.endYear, MinYear, MaxYear)
    && InRange(f.runtimeMinutes, MinRuntime, MaxRuntime)
    && MaxLength(f.genres, MaxGenres)
  }

  /** `ModelState.IsValid`: no value failed to convert while binding, and every
      validation attribute holds. */
  predicate ModelStateValid(bindingErrors: bool, f: TitleForm)
  {
    !bindingErrors && FormValid(f)
  }

  /** The validation rules in plain terms: both titles present, not blank and at
      most 500 characters; each year absent or in [1900, 2100]; the runtime
      absent or in [1, 9999]; at most three genres. */
  lemma FormValidIff(f: TitleForm)
    ensures FormValid(f) <==>
      && f.primaryTitle.Some? && !IsBlank(f.primaryTitle.value) && |f.primaryTitle.value| <= 500
      && f.originalTitle.Some? && !IsBlank(f.originalTitle.value) && |f.originalTitle.value| <= 500
      && (f.startYear.Some? ==> 1900 <= f.startYear.value <= 2100)
      && (f.endYear.Some? ==> 1900 <= f.endYear.value <= 2100)
      && (f.runtimeMinutes.Some? ==> 1 <= f.runtimeMinutes.value <= 9999)
      && |f.genres| <= 3
  {
  }

  /** The genre limit on its boundary: with every other field valid, three
      genres pass and four fail, duplicates or not. */
  lemma GenreLimitBoundary(f: TitleForm, three: seq<int>, four: seq<int>)
    requires FormValid(f)
    requires |three| == 3 && |four| == 4
    ensures FormValid(f.(genres := three))
    ensures !FormValid(f.(genres := four))
  {
  }

  /** A title of only white space fails `[Required]` however short it is. */
  lemma BlankTitleRejected(f: TitleForm)
    requires || (f.primaryTitle.Some? && IsBlank(f.primaryTitle.value))
             || (f.originalTitle.Some? && IsBlank(f.originalTitle.value))
    ensures !FormValid(f)
  {
  }

  // ---------------------------------------------------------------------
  // Loading a title into the form
  // ---------------------------------------------------------------------

  /** `TitleGenres.Select(tg => tg.GenreId)`: the genre ids, in the same order. */
  function GenreIdsOf(titleGenres: seq<TitleGenre>): (ids: seq<int>)
    ensures |ids| == |titleGenres|
    ensures forall i :: 0 <= i < |ids| ==> ids[i] == titleGenres[i].genreId
  {
    if titleGenres == [] then [] else [titleGenres[0].genreId] + GenreIdsOf(titleGenres[1..])
  }

  /** The form a fetched title fills in. */
  function FormOf(t: Title): TitleForm
  {
    TitleForm(Some(t.primaryTitle), Some(t.originalTitle), t.titleType,
              t.startYear, t.endYear, t.runtimeMinutes, GenreIdsOf(t.titleGenres))
  }

  // ---------------------------------------------------------------------
  // Genre options
  // ---------------------------------------------------------------------

  /** `GetGenreOptionsAsync`: one entry per genre of the catalog, in the data
      service's order, labelled with its name and valued by its id; an entry is
      preselected exactly when the bound genre list holds its id. */
  function GenreOptions(allGenres: seq<Genre>, genres: seq<int>): (r: seq<SelectItem>)
    ensures |r| == |allGenres|
    ensures forall i :: 0 <= i < |r| ==>
      && r[i].text == allGenres[i].name
      && r[i].value == IntToDecimal(allGenres[i].id)
      && (r[i].selected <==> allGenres[i].id in genres)
  {
    if allGenres == [] then []
    else
      var g := allGenres[0];
      [SelectItem(g.name, IntToDecimal(g.id), g.id in genres)] + GenreOptions(allGenres[1..], genres)
  }

  /** The ids of a genre catalog, in order. */
  function GenreIds(allGenres: seq<Genre>): (ids: seq<int>)
    ensures |ids| == |allGenres|
    ensures forall i :: 0 <= i < |ids| ==> ids[i] == allGenres[i].id
  {
    if allGenres == [] then [] else [allGenres[0].id] + GenreIds(allGenres[1..])
  }

  /** The catalog ids that the bound genre list selects. */
  function SelectedIds(allGenres: seq<Genre>, genres: seq<int>): set<int>
  {
    set x | x in GenreIds(allGenres) && x in genres
  }

  /** When the catalog's ids are distinct, the preselected entries are exactly as
      many as the catalog ids the bound list names. */
  lemma {:induction false} GenreOptionsSelectedCount(allGenres: seq<Genre>, genres: seq<int>)
    requires NoDuplicates(GenreIds(allGenres))
    ensures SelectedCount(GenreOptions(allGenres, genres)) == |SelectedIds(allGenres, genres)|
  {
    if allGenres != [] {
      var g, rest := allGenres[0], allGenres[1..];
      var ids := GenreIds(allGenres);
      assert GenreIds(rest) == ids[1..];
      assert NoDuplicates(GenreIds(rest));
      GenreOptionsSelectedCount(rest, genres);
      var r := GenreOptions(allGenres, genres);
      assert r[1..] == GenreOptions(rest, genres);
      assert g.id !in GenreIds(rest);
      forall x ensures x in SelectedIds(allGenres, genres) <==>
                       x in SelectedIds(rest, genres) || (x == g.id && g.id in genres) {
        assert ids == [g.id] + GenreIds(rest);
      }
      if g.id in genres {
        assert SelectedIds(allGenres, genres) == SelectedIds(rest, genres) + {g.id};
      } else {
        assert SelectedIds(allGenres, genres) == SelectedIds(rest, genres);
      }
    } else {
      assert SelectedIds(allGenres, genres) == {};
    }
  }

  /** A list has at least as many entries as distinct elements. */
  lemma {:induction false} DistinctElementsAtMostLength(s: seq<int>)
    ensures |set x | x in s| <= |s|
  {
    if s != [] {
      DistinctElementsAtMostLength(s[1..]);
      assert s == [s[0]] + s[1..];
      var all, rest := set x | x in s, set x | x in s[1..];
      assert all == rest + {s[0]};
      assert |rest + {s[0]}| <= |rest| + 1;
    }
  }

  /** With distinct catalog ids, no more entries are preselected than the bound
      list has ids; so a form that passed validation preselects at most three. */
  lemma GenreOptionsSelectAtMostBound(allGenres: seq<Genre>, genres: seq<int>)
    requires NoDuplicates(GenreIds(allGenres))
    ensures SelectedCount(GenreOptions(allGenres, genres)) <= |genres|
  {
    GenreOptionsSelectedCount(allGenres, genres);
    DistinctElementsAtMostLength(genres);
    SubsetCardinality(SelectedIds(allGenres, genres), set x | x in genres);
  }

  /** A form that passed validation preselects at most three genre options. */
  lemma ValidFormPreselectsAtMostThree(allGenres: seq<Genre>, f: TitleForm)
    requires NoDuplicates(GenreIds(allGenres)) && FormValid(f)
    ensures SelectedCount(GenreOptions(allGenres, f.genres)) <= 3
  {
    GenreOptionsSelectAtMostBound(allGenres, f.genres);
  }

  lemma SubsetCardinality(a: set<int>, b: set<int>)
    requires a <= b
    ensures |a| <= |b|
  {
    assert b == a + (b - a);
  }

  // ---------------------------------------------------------------------
  // Submitting the form
  // ---------------------------------------------------------------------

  const AddedMessage: string := "Movie added successfully."
  const UpdatedMessage: string := "Movie updated successfully."

  /** The arguments of `InsertOrUpdateTitleAsync`; `genreIds` is the bound list
      copied to an array. */
  datatype UpsertRequest = UpsertRequest(
    id: Option<int>,
    primaryTitle: Option<string>,
    originalTitle: Option<string>,
    titleType: TitleType,
    startYear: Option<int>,
    endYear: Option<int>,
    runtimeMinutes: Option<int>,
    genreIds: seq<int>)

  /** The upsert a submit of form `f` for title `id` sends. */
  function UpsertRequestFor(id: Option<int>, f: TitleForm): UpsertRequest
  {
    UpsertRequest(id, f.primaryTitle, f.originalTitle, f.titleType,
                  f.startYear, f.endYear, f.runtimeMinutes, f.genres)
  }

  /** The confirmation after a successful upsert: "added" exactly when the
      form had no id, "updated" exactly when it had one. */
  function SuccessMessageFor(id: Option<int>): (m: string)
    ensures m == AddedMessage <==> id.None?
    ensures m == UpdatedMessage <==> id.Some?
  {
    assert AddedMessage[6] != UpdatedMessage[6];
    if id == None then AddedMessage else UpdatedMessage
  }

  /** Editing a loaded title without changing it sends the title's own values
      back, its genre ids in their stored order. */
  lemma ResubmitLoadedTitle(t: Title)
    ensures UpsertRequestFor(Some(t.id), FormOf(t)) ==
      UpsertRequest(Some(t.id), Some(t.primaryTitle), Some(t.originalTitle), t.titleType,
                    t.startYear, t.endYear, t.runtimeMinutes, GenreIdsOf(t.titleGenres))
    ensures FormValid(FormOf(t)) <==>
      && !IsBlank(t.primaryTitle) && |t.primaryTitle| <= 500
      && !IsBlank(t.originalTitle) && |t.originalTitle| <= 500
      && InRange(t.startYear, 1900, 2100) && InRange(t.endYear, 1900, 2100)
      && InRange(t.runtimeMinutes, 1, 9999)
      && |t.titleGenres| <= 3
  {
  }

  // ---------------------------------------------------------------------
  // The page model and its handlers
  // ---------------------------------------------------------------------

  /** How a request to the title page ends. */
  datatype TitleOutcome = ShowTitleForm | RedirectToTitle(id: Option<int>) | TitleFault(error: ServiceError)

  /** The title page's bound properties and its one-shot success message. */
  class TitleModel {
    var id: Option<int>
    var successMessage: Option<string>
    var primaryTitle: Option<string>
    var originalTitle: Option<string>
    var titleType: TitleType
    var startYear: Option<int>
    var endYear: Option<int>
    var runtimeMinutes: Option<int>
    var genres: seq<int>

    /** A fresh page model: no id, no message, and a blank form. */
    constructor ()
      ensures id == None && successMessage == None && Form() == BlankForm
    {
      id, successMessage := None, None;
      primaryTitle, originalTitle, titleType := None, None, DefaultTitleType;
      startYear, endYear, runtimeMinutes := None, None, None;
      genres := [];
    }

    /** The current values of the form fields. */
    function Form(): TitleForm
      reads this
    {
      TitleForm(primaryTitle, originalTitle, titleType, startYear, endYear, runtimeMinutes, genres)
    }

    /** `OnGet`: without an id, show the form as it is and call nothing; with
        an id, fetch that title once and copy it into the form. An unknown id
        redirects to the page without an id; any other fault propagates. Only
        a found title changes the form; the id and the message never change. */
    method OnGet(lookup: int -> Reply<Title>) returns (outcome: TitleOutcome, calls: seq<int>)
      modifies this
      ensures id == old(id) && successMessage == old(successMessage)
      ensures old(id).None? ==> outcome == ShowTitleForm && calls == [] && Form() == old(Form())
      ensures old(id).Some? ==>
        && calls == [old(id).value]
        && match lookup(old(id).value)
           case Ok(t) => outcome == ShowTitleForm && Form() == FormOf(t)
           case Fault(ObjectNotFound) => outcome == RedirectToTitle(None) && Form() == old(Form())
           case Fault(Failure(m)) => outcome == TitleFault(Failure(m)) && Form() == old(Form())
    {
      if id == None {
        return ShowTitleForm, [];
      }
      calls := [id.value];
      match lookup(id.value) {
        case Ok(t) =>
          primaryTitle := Some(t.primaryTitle);
          originalTitle := Some(t.originalTitle);
          titleType := t.titleType;
          startYear := t.startYear;
          endYear := t.endYear;
          runtimeMinutes := t.runtimeMinutes;
          genres := GenreIdsOf(t.titleGenres);
          outcome := ShowTitleForm;
        case Fault(ObjectNotFound) =>
          outcome := RedirectToTitle(None);
        case Fault(e) =>
          outcome := TitleFault(e);
      }
    }

    /** `OnPostAsync`: an invalid submit redisplays the form, calls nothing and
        changes nothing. A valid one calls the upsert exactly once with the bound
        id and fields; on success it sets the message from whether the id was
        absent and redirects to the id the service returned. A fault propagates
        before the message is set. The bound fields never change. */
    method OnPost(bindingErrors: bool, upsert: UpsertRequest -> Reply<Title>)
      returns (outcome: TitleOutcome, calls: seq<UpsertRequest>)
      modifies this
      ensures id == old(id) && Form() == old(Form())
      ensures !ModelStateValid(bindingErrors, Form()) ==>
        outcome == ShowTitleForm && calls == [] && successMessage == old(successMessage)
      ensures ModelStateValid(bindingErrors, Form()) ==>
        && calls == [UpsertRequestFor(id, Form())]
        && match upsert(UpsertRequestFor(id, Form()))
           case Ok(t) => successMessage == Some(SuccessMessageFor(id)) && outcome == RedirectToTitle(Some(t.id))
           case Fault(e) => successMessage == old(successMessage) && outcome == TitleFault(e)
    {
      if !ModelStateValid(bindingErrors, Form()) {
        return ShowTitleForm, [];
      }
      var request := UpsertRequestFor(id, Form());
      calls := [request];
      match upsert(request) {
        case Fault(e) =>
          return TitleFault(e), calls;
        case Ok(result) =>
          successMessage := Some(SuccessMessageFor(id));
          outcome := RedirectToTitle(Some(result.id));
      }
    }
  }
}
