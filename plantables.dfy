/**
 The "what can be planted now" screen: the plantable plants are split into a
 greenhouse list and an outdoors list.
 */
module Plantables {
  import opened Models
  import opened Lists

  /** The plantables to distribute: none when the plant list has not loaded yet. */
  function PlantablesOf(plants: Option<seq<Plant>>, plantable: Plant -> bool): seq<Plant>
  {
    match plants
    case None => []
    case Some(ps) => Keep(ps, plantable)
  }

  class PlantablePlantsScreen {
    var plantablesOutdoors: seq<Plant>
    var plantablesGreenhouse: seq<Plant>

    constructor ()
      ensures plantablesOutdoors == [] && plantablesGreenhouse == []
    {
      plantablesOutdoors, plantablesGreenhouse := [], [];
    }

    /**
     `findPlantables`: each plantable plant is appended to the greenhouse list
     when the greenhouse predicate holds of it and to the outdoors list
     otherwise. Entries already in the lists stay in front.
     */
    method FindPlantables(plants: Option<seq<Plant>>, plantable: Plant -> bool, inGreenhouse: Plant -> bool)
      modifies this
      ensures plantablesGreenhouse == old(plantablesGreenhouse) + Keep(PlantablesOf(plants, plantable), inGreenhouse)
      ensures plantablesOutdoors == old(plantablesOutdoors) + Keep(PlantablesOf(plants, plantable), Not(inGreenhouse))
    {
      if plants.Some? {
        ghost var greenhouse0, outdoors0 := plantablesGreenhouse, plantablesOutdoors;
        var plantables := Keep(plants.value, plantable);
        var i := 0;
        while i < |plantables|
          invariant 0 <= i <= |plantables|
          invariant plantablesGreenhouse == greenhouse0 + Keep(plantables[..i], inGreenhouse)
          invariant plantablesOutdoors == outdoors0 + Keep(plantables[..i], Not(inGreenhouse))
        {
          var plant := plantables[i];
          assert Not(inGreenhouse)(plant) == !inGreenhouse(plant);
          KeepPrefixStep(plantables, i, inGreenhouse);
          KeepPrefixStep(plantables, i, Not(inGreenhouse));
          if inGreenhouse(plant) {
            plantablesGreenhouse := plantablesGreenhouse + [plant];
          } else {
            plantablesOutdoors := plantablesOutdoors + [plant];
          }
          i := i + 1;
        }
        assert plantables[..i] == plantables;
      }
    }
  }

  /**
   Between them, the two lists gain exactly the plantable plants: each one
   once, in one list, and nothing else.
   */
  lemma SplitIsPartition(plants: Option<seq<Plant>>, plantable: Plant -> bool, inGreenhouse: Plant -> bool)
    ensures var ps := PlantablesOf(plants, plantable);
      |Keep(ps, inGreenhouse)| + |Keep(ps, Not(inGreenhouse))| == |ps| &&
      multiset(Keep(ps, inGreenhouse)) + multiset(Keep(ps, Not(inGreenhouse))) == multiset(ps)
  {
    var ps := PlantablesOf(plants, plantable);
    PartitionCount(ps, inGreenhouse);
    PartitionMultiset(ps, inGreenhouse);
  }

  /** Every plant in either list is plantable, and it is in the list its location calls for. */
  lemma SplitPlacesByLocation(ps: seq<Plant>, plantable: Plant -> bool, inGreenhouse: Plant -> bool)
    ensures forall p :: p in Keep(PlantablesOf(Some(ps), plantable), inGreenhouse) ==>
      p in ps && plantable(p) && inGreenhouse(p)
    ensures forall p :: p in Keep(PlantablesOf(Some(ps), plantable), Not(inGreenhouse)) ==>
      p in ps && plantable(p) && !inGreenhouse(p)
  {
    var plantables := Keep(ps, plantable);
    KeepSound(ps, plantable);
    KeepSound(plantables, inGreenhouse);
    KeepSound(plantables, Not(inGreenhouse));
  }
}
