/**
 The view models whose fields the screens update in place: the bed being
 edited (its coordinate-to-plant map) and the season currently selected.
 */
module ViewModels {
  import opened Models

  class BedViewModel {
    var plants: map<Coordinate, Plant>

    constructor ()
      ensures plants == map[]
    {
      plants := map[];
    }

    /** `plants[coordinate] = plant`: one entry is written, every other stays. */
    method SetPlant(coordinate: Coordinate, plant: Plant)
      modifies this
      ensures plants == old(plants)[coordinate := plant]
      ensures forall c :: c != coordinate ==> Lookup(plants, c) == Lookup(old(plants), c)
    {
      plants := plants[coordinate := plant];
    }
  }

  class SeasonViewModel {
    var currentSeason: Option<int>

    constructor ()
      ensures currentSeason == None
    {
      currentSeason := None;
    }
  }
}
