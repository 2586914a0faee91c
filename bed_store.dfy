/**
 The bed store: beds kept by name, with insert, find-by-name, update, delete
 and get-all. The methods after the class replay the store's test scenarios.
 */
module BedStore {
  import opened Models

  class BedDao {
    var beds: map<string, Bed>

    /** Every bed is stored under its own name. */
    ghost predicate Valid()
      reads this
    {
      NamedByKey(beds)
    }

    constructor ()
      ensures Valid() && beds == map[]
    {
      beds := map[];
    }

    /** Adds a bed whose name is not taken yet; a taken name is refused. */
    method Insert(bed: Bed) returns (inserted: bool)
      requires Valid()
      modifies this
      ensures Valid()
      ensures inserted <==> bed.name !in old(beds)
      ensures beds == if inserted then old(beds)[bed.name := bed] else old(beds)
    {
      inserted := bed.name !in beds;
      if inserted {
        beds := beds[bed.name := bed];
      }
    }

    /** The bed with that name, or nothing. */
    method FindByName(name: string) returns (r: Option<Bed>)
      requires Valid()
      ensures r.Some? <==> name in beds
      ensures r.Some? ==> r.value.name == name && beds[name] == r.value
    {
      r := if name in beds then Some(beds[name]) else None;
    }

    /** Replaces the whole stored bed of that name; a name not stored is left alone. */
    method Update(bed: Bed) returns (updated: bool)
      requires Valid()
      modifies this
      ensures Valid()
      ensures updated <==> bed.name in old(beds)
      ensures beds == if updated then old(beds)[bed.name := bed] else old(beds)
    {
      updated := bed.name in beds;
      if updated {
        beds := beds[bed.name := bed];
      }
    }

    /** Removes the bed of that name, if there is one, and nothing else. */
    method Delete(name: string)
      requires Valid()
      modifies this
      ensures Valid()
      ensures beds == old(beds) - {name}
    {
      beds := beds - {name};
    }

    /** Every stored bed, each once, in no particular order. */
    method GetAll() returns (all: seq<Bed>)
      requires Valid()
      ensures |all| == |beds|
      ensures forall i :: 0 <= i < |all| ==> all[i].name in beds && beds[all[i].name] == all[i]
      ensures forall n :: n in beds ==> beds[n] in all
      ensures forall i, j :: 0 <= i < j < |all| ==> all[i].name != all[j].name
    {
      all := ListBeds(beds);
      ListedAll(beds, beds.Keys, all);
    }
  }

  /** Collects the beds of a name-to-bed map, one name at a time. */
  method ListBeds(stored: map<string, Bed>) returns (all: seq<Bed>)
    requires NamedByKey(stored)
    ensures Listed(stored, stored.Keys, all)
  {
    all := [];
    var rest := stored.Keys;
    ghost var done: set<string> := {};
    while rest != {}
      invariant rest == stored.Keys - done && done <= stored.Keys
      invariant Listed(stored, done, all)
      decreases rest
    {
      var name :| name in rest;
      ListedStep(stored, done, all, name);
      all := all + [stored[name]];
      rest := rest - {name};
      done := done + {name};
    }
    assert done == stored.Keys;
  }

  ghost predicate NamedByKey(beds: map<string, Bed>)
  {
    forall n :: n in beds ==> beds[n].name == n
  }

  /** `all` lists the beds stored under the names in `done`, each once. */
  ghost predicate Listed(beds: map<string, Bed>, done: set<string>, all: seq<Bed>)
  {
    && done <= beds.Keys
    && |all| == |done|
    && (forall i :: 0 <= i < |all| ==> all[i].name in done && beds[all[i].name] == all[i])
    && (forall n :: n in done ==> beds[n] in all)
    && (forall i, j :: 0 <= i < j < |all| ==> all[i].name != all[j].name)
  }

  /** Once every name is done, `all` is the store's content. */
  lemma ListedAll(beds: map<string, Bed>, done: set<string>, all: seq<Bed>)
    requires Listed(beds, done, all) && done == beds.Keys
    ensures |all| == |beds|
    ensures forall i :: 0 <= i < |all| ==> all[i].name in beds && beds[all[i].name] == all[i]
    ensures forall n :: n in beds ==> beds[n] in all
    ensures forall i, j :: 0 <= i < j < |all| ==> all[i].name != all[j].name
  {
    assert |beds| == |beds.Keys|;
  }

  lemma ListedStep(beds: map<string, Bed>, done: set<string>, all: seq<Bed>, name: string)
    requires NamedByKey(beds)
    requires Listed(beds, done, all) && name in beds && name !in done
    ensures Listed(beds, done + {name}, all + [beds[name]])
  {
    var all' := all + [beds[name]];
    assert |done + {name}| == |done| + 1;
    assert forall i :: 0 <= i < |all| ==> all'[i] == all[i];
  }

  /** A store holding exactly the given beds, inserted in order. */
  method StoreWith(initial: seq<Bed>) returns (dao: BedDao)
    requires forall i, j :: 0 <= i < j < |initial| ==> initial[i].name != initial[j].name
    ensures fresh(dao) && dao.Valid()
    ensures dao.beds.Keys == set i | 0 <= i < |initial| :: initial[i].name
    ensures forall i :: 0 <= i < |initial| ==> dao.beds[initial[i].name] == initial[i]
  {
    dao := new BedDao();
    var k := 0;
    while k < |initial|
      invariant 0 <= k <= |initial| && dao.Valid()
      invariant dao.beds.Keys == set i | 0 <= i < k :: initial[i].name
      invariant forall i :: 0 <= i < k ==> dao.beds[initial[i].name] == initial[i]
    {
      var inserted := dao.Insert(initial[k]);
      k := k + 1;
    }
  }

  /** Create tests: a bed inserted into an empty store is found by its name with
      the same name, location, plants, columns and rows. */
  method InsertThenFind(bed: Bed) returns (found: Option<Bed>)
    ensures found == Some(bed)
  {
    var dao := new BedDao();
    var inserted := dao.Insert(bed);
    found := dao.FindByName(bed.name);
  }

  /** Update tests: after an update, finding the name gives the new bed. */
  method UpdateThenFind(bed: Bed, newBed: Bed) returns (found: Option<Bed>)
    requires newBed.name == bed.name
    ensures found == Some(newBed)
  {
    var dao := new BedDao();
    var inserted := dao.Insert(bed);
    var updated := dao.Update(newBed);
    found := dao.FindByName(bed.name);
  }

  /** Delete test: a deleted bed is no longer found. */
  method DeleteThenFind(bed: Bed) returns (found: Option<Bed>)
    ensures found == None
  {
    var dao := new BedDao();
    var inserted := dao.Insert(bed);
    dao.Delete(bed.name);
    found := dao.FindByName(bed.name);
  }

  /** Delete tests: deleting one name, present or not, keeps the other bed. */
  method DeleteKeepsOther(kept: Bed, other: Option<Bed>, deleted: string) returns (found: Option<Bed>)
    requires kept.name != deleted
    requires other.Some? ==> other.value.name == deleted
    ensures found == Some(kept)
  {
    var dao := new BedDao();
    var inserted := dao.Insert(kept);
    if other.Some? {
      inserted := dao.Insert(other.value);
    }
    dao.Delete(deleted);
    found := dao.FindByName(kept.name);
  }

  /** Find test: a name never inserted is not found. */
  method FindInEmpty(name: string) returns (found: Option<Bed>)
    ensures found == None
  {
    var dao := new BedDao();
    found := dao.FindByName(name);
  }

  /** Get-all tests: the list has one entry per bed inserted under distinct names. */
  method GetAllCount(initial: seq<Bed>) returns (count: nat)
    requires forall i, j :: 0 <= i < j < |initial| ==> initial[i].name != initial[j].name
    ensures count == |initial|
  {
    var dao := StoreWith(initial);
    var all := dao.GetAll();
    count := |all|;
    DistinctNamesCount(initial);
  }

  lemma {:induction false} DistinctNamesCount(s: seq<Bed>)
    requires forall i, j :: 0 <= i < j < |s| ==> s[i].name != s[j].name
    ensures |set i | 0 <= i < |s| :: s[i].name| == |s|
  {
    if s != [] {
      var t := s[..|s| - 1];
      DistinctNamesCount(t);
      var last := s[|s| - 1].name;
      assert (set i | 0 <= i < |s| :: s[i].name) == (set i | 0 <= i < |t| :: t[i].name) + {last};
      assert last !in (set i | 0 <= i < |t| :: t[i].name);
    }
  }

  /**
   The store does not check placements against the grid: a bed whose plants lie
   outside its columns and rows is stored and found as it is.
   */
  method StoresOutOfGridPlacement() returns (found: Option<Bed>)
    ensures found.Some? && !WithinGrid(found.value)
  {
    var bed := Bed("Test3", Greenhouse,
                   map[Coordinate(0, 0) := Plant("Plant1", NoWindow), Coordinate(1, 1) := Plant("Plant2", NoWindow)], 0, 0);
    found := InsertThenFind(bed);
    assert Coordinate(0, 0) in found.value.plants;
  }
}
