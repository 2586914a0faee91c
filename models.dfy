/**
 The records shared by the planner's screens: grid coordinates, plants, bed
 locations and beds, plus the Option type used wherever the application works
 with a value that may be absent (a nullable reference).
 */
module Models {

  datatype Option<T> = None | Some(value: T)

  /** A cell of a bed's grid, addressed by column and row. */
  datatype Coordinate = Coordinate(col: int, row: int)

  /**
   A plant's planting window: its earliest and latest dates, as day numbers.
   Either may be missing, as for a plant made from a name alone.
   */
  datatype PlantingWindow = PlantingWindow(earliest: Option<int>, latest: Option<int>)

  /** A plant window with neither date set. */
  const NoWindow := PlantingWindow(None, None)

  /**
   A plant: its name and its planting window. Two plants with the same name
   but different windows are different values.
   */
  datatype Plant = Plant(name: string, window: PlantingWindow)

  datatype BedLocation = Outdoors | Greenhouse

  /** A bed as the store keeps it: its name is the key. */
  datatype Bed = Bed(
    name: string,
    bedLocation: BedLocation,
    plants: map<Coordinate, Plant>,
    columns: int,
    rows: int)

  /** `m.get(k)` on a map: the value stored under `k`, or nothing. */
  function Lookup<K, V>(m: map<K, V>, k: K): (r: Option<V>)
    ensures r.Some? <==> k in m
    ensures r.Some? ==> m[k] == r.value
  {
    if k in m then Some(m[k]) else None
  }

  /** Every placement of the bed lies inside its declared grid. */
  ghost predicate WithinGrid(bed: Bed)
  {
    forall c :: c in bed.plants ==> 0 <= c.col < bed.columns && 0 <= c.row < bed.rows
  }
}
