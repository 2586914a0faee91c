/**
 The plant-choosing dialog: the list of candidate plants for a bed, the
 search box that narrows it by name, and the click that places the chosen
 plant at the bed's coordinate.
 */
module ChoosePlant {
  import opened Models
  import opened Lists
  import opened Text
  import opened ViewModels

  /**
   The candidates shown by the dialog: the plants that suit the bed's location
   and satisfy the navigation argument's predicate, in their original order.
   */
  function CreateList(all: seq<Plant>, location: Plant -> bool, allowed: Plant -> bool): (r: seq<Plant>)
    ensures forall i :: 0 <= i < |r| ==> location(r[i]) && allowed(r[i])
    ensures forall i :: 0 <= i < |all| && location(all[i]) && allowed(all[i]) ==> all[i] in r
    ensures IsSubsequence(r, all)
    ensures forall x :: multiset(r)[x] == if location(x) && allowed(x) then multiset(all)[x] else 0
  {
    var here := Keep(all, location);
    KeepMultiset(all, location);
    KeepMultiset(here, allowed);
    KeepSound(all, location);
    KeepComplete(all, location);
    KeepSound(here, allowed);
    KeepComplete(here, allowed);
    KeepIsSubsequence(all, location);
    KeepIsSubsequence(here, allowed);
    SubsequenceTransitive(Keep(here, allowed), here, all);
    Keep(here, allowed)
  }

  /** The search pattern: the query lower-cased, then trimmed. */
  function Pattern(query: string): (r: string)
    ensures r == [] || (!IsWhitespace(r[0]) && !IsWhitespace(r[|r| - 1]))
    ensures forall i :: 0 <= i < |r| ==> !('A' <= r[i] <= 'Z')
  {
    Trim(Lower(query))
  }

  /** The plant's lower-cased name contains the pattern. */
  predicate Matches(plant: Plant, pattern: string)
  {
    Contains(Lower(plant.name), pattern)
  }

  function NameContains(pattern: string): Plant -> bool
  {
    plant => Matches(plant, pattern)
  }

  /** The filter's `performFiltering`: a search over the original list. */
  function PerformFiltering(dataSet: seq<Plant>, constraint: Option<string>): (r: seq<Plant>)
    ensures constraint == None || constraint == Some([]) ==> r == dataSet
    ensures constraint.Some? && constraint.value != [] ==>
      forall i :: 0 <= i < |r| ==> Matches(r[i], Pattern(constraint.value))
    ensures constraint.Some? && constraint.value != [] ==>
      forall i :: 0 <= i < |dataSet| && Matches(dataSet[i], Pattern(constraint.value)) ==> dataSet[i] in r
    ensures constraint.Some? && constraint.value != [] ==>
      forall x :: multiset(r)[x] == if Matches(x, Pattern(constraint.value)) then multiset(dataSet)[x] else 0
    ensures IsSubsequence(r, dataSet)
  {
    match constraint
    case None =>
      SubsequenceReflexive(dataSet);
      dataSet
    case Some(query) =>
      if query == [] then
        SubsequenceReflexive(dataSet);
        dataSet
      else
        KeepIsSubsequence(dataSet, NameContains(Pattern(query)));
        KeepSound(dataSet, NameContains(Pattern(query)));
        KeepComplete(dataSet, NameContains(Pattern(query)));
        KeepMultiset(dataSet, NameContains(Pattern(query)));
        Keep(dataSet, NameContains(Pattern(query)))
  }

  /** A query of whitespace only trims to the empty pattern and keeps every plant. */
  lemma WhitespaceQueryKeepsAll(dataSet: seq<Plant>, query: string)
    requires IsBlank(query)
    ensures PerformFiltering(dataSet, Some(query)) == dataSet
  {
    if query != [] {
      LowerKeepsBlank(query);
      TrimEmptyIffBlank(Lower(query));
      KeepAll(dataSet, NameContains(Pattern(query)));
    }
  }

  /** Every plant the search shows still suits the bed and the navigation argument. */
  lemma SearchKeepsCandidates(all: seq<Plant>, location: Plant -> bool, allowed: Plant -> bool,
                              constraint: Option<string>)
    ensures forall p :: p in PerformFiltering(CreateList(all, location, allowed), constraint) ==>
      location(p) && allowed(p)
  {
    var candidates := CreateList(all, location, allowed);
    SubsequenceElements(PerformFiltering(candidates, constraint), candidates);
  }

  /**
   The recycler view's adapter. `dataSet` is fixed when the adapter is made;
   `flowingData` is what is shown, the result of the latest search.
   */
  class PlantAdapter {
    const dataSet: seq<Plant>
    var flowingData: seq<Plant>
    ghost var lastQuery: Option<string>

    ghost predicate Valid()
      reads this
    {
      flowingData == PerformFiltering(dataSet, lastQuery)
    }

    constructor (dataSet: seq<Plant>)
      ensures Valid()
      ensures this.dataSet == dataSet && flowingData == dataSet
    {
      this.dataSet := dataSet;
      flowingData := dataSet;
      lastQuery := None;
    }

    /**
     A search: `performFiltering` followed by `publishResults`. The new list
     depends on the query and the original list only, never on the list an
     earlier search left behind.
     */
    method Filter(constraint: Option<string>)
      modifies this
      ensures Valid()
      ensures flowingData == PerformFiltering(dataSet, constraint)
    {
      var results := PerformFiltering(dataSet, constraint);
      flowingData := results;
      lastQuery := constraint;
    }

    /** `getItemCount`: never more rows than the original list. */
    function ItemCount(): (n: nat)
      reads this
      requires Valid()
      ensures n == |flowingData| && n <= |dataSet|
    {
      SubsequenceLength(flowingData, dataSet);
      |flowingData|
    }

    /** A click on the row at `position`: its plant is placed at `coordinate`. */
    method ChooseAt(position: nat, coordinate: Coordinate, bed: BedViewModel)
      requires position < |flowingData|
      modifies bed
      ensures bed.plants == old(bed.plants)[coordinate := flowingData[position]]
      ensures forall c :: c != coordinate ==> Lookup(bed.plants, c) == Lookup(old(bed.plants), c)
    {
      bed.SetPlant(coordinate, flowingData[position]);
    }
  }

  /** Two searches in a row show what the second alone would show. */
  method SearchTwice(adapter: PlantAdapter, first: Option<string>, second: Option<string>)
    modifies adapter
    ensures adapter.Valid()
    ensures adapter.flowingData == PerformFiltering(adapter.dataSet, second)
  {
    adapter.Filter(first);
    adapter.Filter(second);
  }
}
