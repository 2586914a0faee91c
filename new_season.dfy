/**
 The new-season screen: the typed year is rejected when blank, read as an
 integer, rejected when that season already exists, and stored otherwise;
 a year that was read becomes the current season either way.
 */
module NewSeason {
  import opened Models
  import opened Text
  import opened ViewModels

  /** What a press of the save button leads to. */
  datatype SaveOutcome =
    | EnterYear                 // blank text: the "enter a year" message
    | NotAnInteger              // `toInt` rejects the text
    | AlreadyExists(year: int)  // the "season already exists" message
    | Saved(year: int)

  /** The decision the save button takes for `text`, given the stored years. */
  function Decide(years: set<int>, text: string): SaveOutcome
  {
    if IsBlank(text) then EnterYear
    else
      match ParseInt32(text)
      case None => NotAnInteger
      case Some(year) => if year in years then AlreadyExists(year) else Saved(year)
  }

  /** The stored years after the save. */
  function YearsAfter(years: set<int>, text: string): set<int>
  {
    match Decide(years, text)
    case Saved(year) => years + {year}
    case _ => years
  }

  /** The current season after the save. */
  function CurrentAfter(current: Option<int>, years: set<int>, text: string): Option<int>
  {
    match Decide(years, text)
    case Saved(year) => Some(year)
    case AlreadyExists(year) => Some(year)
    case _ => current
  }

  /** Blank text changes neither the store nor the current season. */
  lemma BlankSaveChangesNothing(years: set<int>, current: Option<int>, text: string)
    requires IsBlank(text)
    ensures Decide(years, text) == EnterYear
    ensures YearsAfter(years, text) == years && CurrentAfter(current, years, text) == current
  {
  }

  /** A year already stored is reported and leaves the store as it was. */
  lemma ExistingYearIsRejected(years: set<int>, text: string, year: int)
    requires ParseInt32(text) == Some(year) && year in years
    ensures Decide(years, text) == AlreadyExists(year)
    ensures YearsAfter(years, text) == years
  {
  }

  /**
   A text read as a year leaves that year stored and current, whether it was
   new or not; a save never removes a year and adds at most the one it read.
   */
  lemma SaveStoresTheYear(years: set<int>, current: Option<int>, text: string, year: int)
    requires ParseInt32(text) == Some(year)
    ensures year in YearsAfter(years, text)
    ensures CurrentAfter(current, years, text) == Some(year)
    ensures years <= YearsAfter(years, text) <= years + {year}
  {
  }

  /** Nothing is stored when the text is not read as a year. */
  lemma UnreadTextStoresNothing(years: set<int>, text: string)
    requires ParseInt32(text).None?
    ensures YearsAfter(years, text) == years
  {
  }

  /** Saving the same text twice stores what saving it once does; the second press is rejected. */
  lemma SaveIsIdempotent(years: set<int>, text: string)
    ensures YearsAfter(YearsAfter(years, text), text) == YearsAfter(years, text)
    ensures !Decide(YearsAfter(years, text), text).Saved?
  {
  }

  /** Typing a year as plain digits stores that year. */
  lemma {:induction false} TypedYearIsStored(years: set<int>, year: nat)
    requires year <= INT_MAX
    ensures year in YearsAfter(years, ShowNat(year))
    ensures Decide(years, ShowNat(year)) == if year in years then AlreadyExists(year) else Saved(year)
  {
    ParseShowNat(year);
  }

  /** The season table, keyed by year. */
  class SeasonRepository {
    var years: set<int>

    constructor ()
      ensures years == {}
    {
      years := {};
    }

    /** `getSeason(year)`: the season, or nothing. */
    method GetSeason(year: int) returns (r: Option<int>)
      ensures r.Some? <==> year in years
      ensures r.Some? ==> r.value == year
    {
      r := if year in years then Some(year) else None;
    }

    method InsertSeason(year: int)
      modifies this
      ensures years == old(years) + {year}
    {
      years := years + {year};
    }
  }

  /** `handleSave`: check that the season is new, then insert it. */
  method HandleSave(repository: SeasonRepository, year: int) returns (saved: bool)
    modifies repository
    ensures saved <==> year !in old(repository.years)
    ensures repository.years == old(repository.years) + {year}
    ensures !saved ==> repository.years == old(repository.years)
  {
    var existing := repository.GetSeason(year);
    saved := existing.None?;
    if saved {
      repository.InsertSeason(year);
    }
  }

  /** The save button's click listener. */
  method OnSaveClicked(text: string, repository: SeasonRepository, seasons: SeasonViewModel)
    returns (outcome: SaveOutcome)
    modifies repository, seasons
    ensures outcome == Decide(old(repository.years), text)
    ensures repository.years == YearsAfter(old(repository.years), text)
    ensures seasons.currentSeason == CurrentAfter(old(seasons.currentSeason), old(repository.years), text)
  {
    if IsBlank(text) {
      outcome := EnterYear;
      return;
    }
    var parsed := ParseInt32(text);
    if parsed.None? {
      outcome := NotAnInteger;
      return;
    }
    var year := parsed.value;
    var saved := HandleSave(repository, year);
    seasons.currentSeason := Some(year);
    outcome := if saved then Saved(year) else AlreadyExists(year);
  }
}
