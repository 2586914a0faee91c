# Vegetable gardening planner: the rules behind the screens

This project models the deterministic rules inside a small Android gardening
planner and proves properties of them in Dafny. Users define beds with a location
(outdoors or greenhouse), place plants at (column, row) coordinates, and keep
seasons by year. Five pieces are modelled:

- **Choosing a plant** (`ChoosePlant`). The dialog lists the plants that suit
  the bed's location and the navigation argument's predicate. A search box
  narrows the list. An empty query shows everything. Otherwise the query is
  lower-cased, then trimmed, and a plant stays when its lower-cased name contains
  that pattern. Every search starts again from the dialog's original list. A
  click on a row writes that plant into the bed's coordinate-to-plant map.
- **The bed overview** (`BedOverview`). The grid size is one more than
  the largest column and row among the map's keys, never below 1 by 1. The
  tiles are listed column by column, each with the plant at its cell, if any.
- **Plantable plants** (`Plantables`). The plantable plants are appended to a
  greenhouse list or an outdoors list, according to a location predicate.
- **New season** (`NewSeason`). Blank text is rejected. The text is read as
  an integer. A year that already exists is reported and not stored. Any other
  year is inserted. A year that was read becomes the current season either way.
- **The bed store** (`BedStore`). Beds are kept by name, with insert,
  find-by-name, update, delete and get-all, as the database tests use them.
  Methods after the class replay those tests.

The predicates whose code is not part of this model are function parameters
(`Plant -> bool`): the bed-location predicate, the navigation argument's
predicate, the plantable predicate and the greenhouse predicate. A plant is its
name and its planting window (earliest and latest dates), so two plants with the
same name but different windows stay distinct.
`Lists` holds Kotlin's `filter` and its lemmas. `Text` holds lower-casing,
`trim`, `isBlank`, `contains` and `toInt`. `ViewModels` holds the
view-model fields that the screens update.

Two facts about beds that the code fixes:

- A bed's columns and rows do not bound its placements: the store does not
  check them. The test at AppDatabaseTest.kt:80 stores a plant at (1, 1) in a
  0 by 0 bed, and `BedStore.StoresOutOfGridPlacement` shows this.
- The overview's grid size comes from the plant map alone, not from the bed's
  stored columns and rows.

## Model

| member | source | states |
|---|---|---|
| `Lists.Keep` | app/src/main/java/dk/mifu/pmos/vegetablegardening/fragments/dialogs/ChoosePlantDialogFragment.kt:66-67 | Kotlin's `filter`: the result is never longer than the list; what it keeps is stated by `Lists.KeepSound`, `Lists.KeepComplete`, `Lists.KeepIsSubsequence` and `Lists.KeepMultiset` |
| `Lists.KeepSound` | app/src/main/java/dk/mifu/pmos/vegetablegardening/fragments/dialogs/ChoosePlantDialogFragment.kt:125 | every element a filter keeps satisfies the predicate and comes from the input list |
| `Lists.KeepComplete` | app/src/main/java/dk/mifu/pmos/vegetablegardening/fragments/dialogs/ChoosePlantDialogFragment.kt:125 | every element of the input that satisfies the predicate is kept |
| `Lists.KeepIsSubsequence` | app/src/main/java/dk/mifu/pmos/vegetablegardening/fragments/dialogs/ChoosePlantDialogFragment.kt:125 | the filter result keeps the input's order: it is a subsequence of the input |
| `Lists.PartitionCount` | app/src/main/java/dk/mifu/pmos/vegetablegardening/fragments/plantables/PlantablePlantsFragment.kt:54-56 | a predicate and its complement split a list into two parts whose lengths add up to the list's length |
| `Lists.PartitionMultiset` | app/src/main/java/dk/mifu/pmos/vegetablegardening/fragments/plantables/PlantablePlantsFragment.kt:54-56 | the two parts together hold exactly the list's elements, each as often as in the list |
| `Lists.KeepMultiset` | app/src/main/java/dk/mifu/pmos/vegetablegardening/fragments/dialogs/ChoosePlantDialogFragment.kt:125 | an element satisfying the predicate is kept as many times as it occurs in the input; any other element is not kept |
| `Lists.KeepAppend` | app/src/main/java/dk/mifu/pmos/vegetablegardening/fragments/plantables/PlantablePlantsFragment.kt:54-56 | filtering a concatenation is the concatenation of the filtered parts, so appending plant by plant builds the filtered list |
| `Text.Lower` | app/src/main/java/dk/mifu/pmos/vegetablegardening/fragments/dialogs/ChoosePlantDialogFragment.kt:124-125 | lower-casing keeps the length and leaves no upper-case letter |
| `Text.IsBlank` | app/src/main/java/dk/mifu/pmos/vegetablegardening/fragments/croprotation/NewSeasonFragment.kt:33 | `isBlank`: every character is whitespace; no contract of its own, `Text.TrimEmptyIffBlank` ties it to `trim` |
| `Text.Trim` | app/src/main/java/dk/mifu/pmos/vegetablegardening/fragments/dialogs/ChoosePlantDialogFragment.kt:124 | the result is no longer than the text, neither starts nor ends with whitespace, and holds only characters of the text; `Text.TrimStart` and `Text.TrimEnd` fix it exactly |
| `Text.Contains` | app/src/main/java/dk/mifu/pmos/vegetablegardening/fragments/dialogs/ChoosePlantDialogFragment.kt:125 | `contains`: no contract of its own; `Text.ContainsIffOccurs` states that it holds exactly when the pattern occurs at some position |
| `Text.TrimStart` | app/src/main/java/dk/mifu/pmos/vegetablegardening/fragments/dialogs/ChoosePlantDialogFragment.kt:124 | the result is a suffix of the text; it does not start with whitespace; every dropped character is whitespace |
| `Text.TrimEnd` | app/src/main/java/dk/mifu/pmos/vegetablegardening/fragments/dialogs/ChoosePlantDialogFragment.kt:124 | the result is a prefix of the text; it does not end with whitespace; every dropped character is whitespace |
| `Text.TrimEmptyIffBlank` | app/src/main/java/dk/mifu/pmos/vegetablegardening/fragments/dialogs/ChoosePlantDialogFragment.kt:124 | trimming gives the empty string if and only if the text is blank |
| `Text.ContainsIffOccurs` | app/src/main/java/dk/mifu/pmos/vegetablegardening/fragments/dialogs/ChoosePlantDialogFragment.kt:125 | `contains` holds if and only if the pattern occurs at some position of the text |
| `Text.ParseInt32` | app/src/main/java/dk/mifu/pmos/vegetablegardening/fragments/croprotation/NewSeasonFragment.kt:34 | `toInt` accepts only an optional `-` or `+` followed by at least one decimal digit; an accepted value lies in the 32-bit range, the text is not blank, a negative value comes only after a minus sign, and a minus sign gives no positive value |
| `Text.ParseDigits` | app/src/main/java/dk/mifu/pmos/vegetablegardening/fragments/croprotation/NewSeasonFragment.kt:34 | any non-empty string of digits whose value fits 32 bits is read as that value, leading zeros included |
| `Text.ParseShowNat` | app/src/main/java/dk/mifu/pmos/vegetablegardening/fragments/croprotation/NewSeasonFragment.kt:34 | the decimal spelling of any year up to the 32-bit maximum is read back as that year |
| `Text.ParseNegatedShowNat` | app/src/main/java/dk/mifu/pmos/vegetablegardening/fragments/croprotation/NewSeasonFragment.kt:34 | a minus sign before the digits of any number up to 2^31 reads back the negated number |
| `Text.ParsePlusShowNat` | app/src/main/java/dk/mifu/pmos/vegetablegardening/fragments/croprotation/NewSeasonFragment.kt:34 | a plus sign before the digits reads back the same number |
| `Text.ParseRejectsOverflow` | app/src/main/java/dk/mifu/pmos/vegetablegardening/fragments/croprotation/NewSeasonFragment.kt:34 | digits whose value exceeds the 32-bit maximum are rejected |
| `ChoosePlant.CreateList` | app/src/main/java/dk/mifu/pmos/vegetablegardening/fragments/dialogs/ChoosePlantDialogFragment.kt:64-67 | every candidate suits the location and the navigation predicate; every such plant is a candidate, as often as it occurs in the list; the original order is kept |
| `ChoosePlant.Pattern` | app/src/main/java/dk/mifu/pmos/vegetablegardening/fragments/dialogs/ChoosePlantDialogFragment.kt:124 | the search pattern neither starts nor ends with whitespace and has no upper-case letter |
| `ChoosePlant.PerformFiltering` | app/src/main/java/dk/mifu/pmos/vegetablegardening/fragments/dialogs/ChoosePlantDialogFragment.kt:119-128 | no query or an empty one returns the list unchanged; otherwise exactly the plants whose lower-cased name contains the lower-cased, trimmed query are kept, each as often as in the list, in order |
| `ChoosePlant.WhitespaceQueryKeepsAll` | app/src/main/java/dk/mifu/pmos/vegetablegardening/fragments/dialogs/ChoosePlantDialogFragment.kt:121-125 | a query of whitespace only is not empty but trims to the empty pattern, so every plant is kept |
| `ChoosePlant.SearchKeepsCandidates` | app/src/main/java/dk/mifu/pmos/vegetablegardening/fragments/dialogs/ChoosePlantDialogFragment.kt:64-125 | every plant a search shows suits the bed's location and the navigation predicate |
| `ChoosePlant.PlantAdapter.constructor` | app/src/main/java/dk/mifu/pmos/vegetablegardening/fragments/dialogs/ChoosePlantDialogFragment.kt:98-99 | a new adapter shows its whole list |
| `ChoosePlant.PlantAdapter.Filter` | app/src/main/java/dk/mifu/pmos/vegetablegardening/fragments/dialogs/ChoosePlantDialogFragment.kt:118-134 | after a search the shown list is the search over the original list; the earlier shown list plays no part |
| `ChoosePlant.PlantAdapter.ItemCount` | app/src/main/java/dk/mifu/pmos/vegetablegardening/fragments/dialogs/ChoosePlantDialogFragment.kt:114 | the row count is the shown list's length and never exceeds the original list's |
| `ChoosePlant.PlantAdapter.ChooseAt` | app/src/main/java/dk/mifu/pmos/vegetablegardening/fragments/dialogs/ChoosePlantDialogFragment.kt:86-95 | a click on a row sets the bed's entry at the coordinate to that row's plant; every other coordinate's entry is unchanged |
| `ChoosePlant.SearchTwice` | app/src/main/java/dk/mifu/pmos/vegetablegardening/fragments/dialogs/ChoosePlantDialogFragment.kt:99-132 | two searches in a row show what the second search alone shows |
| `ViewModels.BedViewModel.SetPlant` | app/src/main/java/dk/mifu/pmos/vegetablegardening/fragments/dialogs/ChoosePlantDialogFragment.kt:92 | writing a plant at a coordinate adds or replaces that one entry and leaves every other entry unchanged |
| `BedOverview.SizeOfBed` | app/src/main/java/dk/mifu/pmos/vegetablegardening/fragments/viewgarden/BedOverviewFragment.kt:61-74 | both dimensions are at least 1; every key lies below them; each dimension is 1 or one more than some key's column or row, so it is one more than the maximum of 0 and the keys' values |
| `BedOverview.OrderedTiles` | app/src/main/java/dk/mifu/pmos/vegetablegardening/fragments/viewgarden/BedOverviewFragment.kt:41-47 | the listing has columns times rows tiles; the tile at position k is cell (k / rows, k % rows) with the plant the map holds for it, or none |
| `BedOverview.ColumnMajorIndex` | app/src/main/java/dk/mifu/pmos/vegetablegardening/fragments/viewgarden/BedOverviewFragment.kt:42-45 | position i times rows plus j of the listing holds cell (i, j) |
| `BedOverview.CellInGrid` | app/src/main/java/dk/mifu/pmos/vegetablegardening/fragments/viewgarden/BedOverviewFragment.kt:42-47 | every position of the listing holds a cell inside the grid, and its position is column times rows plus row |
| `BedOverview.CellsDistinct` | app/src/main/java/dk/mifu/pmos/vegetablegardening/fragments/viewgarden/BedOverviewFragment.kt:42-47 | two different positions of the listing hold different cells, so no cell is listed twice |
| `BedOverview.EveryCellListed` | app/src/main/java/dk/mifu/pmos/vegetablegardening/fragments/viewgarden/BedOverviewFragment.kt:42-47 | every cell of the grid is listed at the position column times rows plus row |
| `BedOverview.LayOut` | app/src/main/java/dk/mifu/pmos/vegetablegardening/fragments/viewgarden/BedOverviewFragment.kt:34-47 | the grid size is the one `sizeOfBed` gives: at least 1 by 1, every key below it, and each dimension 1 or one more than some key's column or row, so an empty map gives 1 by 1; every tile's cell has non-negative coordinates; every placement with non-negative coordinates is shown at its cell with its plant |
| `Plantables.PlantablesOf` | app/src/main/java/dk/mifu/pmos/vegetablegardening/fragments/plantables/PlantablePlantsFragment.kt:52 | the plantable plants of a loaded list, none when the list is null; no contract of its own, `Plantables.PlantablePlantsScreen.FindPlantables` and `Plantables.SplitIsPartition` state what is done with them |
| `Plantables.PlantablePlantsScreen.constructor` | app/src/main/java/dk/mifu/pmos/vegetablegardening/fragments/plantables/PlantablePlantsFragment.kt:34-35 | both lists start empty |
| `Plantables.PlantablePlantsScreen.FindPlantables` | app/src/main/java/dk/mifu/pmos/vegetablegardening/fragments/plantables/PlantablePlantsFragment.kt:51-58 | the greenhouse list gains exactly the plantable plants passing the greenhouse predicate, the outdoors list exactly the others, both in their original order, after the entries already there; no plant list leaves both lists unchanged |
| `Plantables.SplitIsPartition` | app/src/main/java/dk/mifu/pmos/vegetablegardening/fragments/plantables/PlantablePlantsFragment.kt:52-56 | the two lists' growth adds up to the number of plantable plants, and each plantable plant lands in exactly one of them |
| `Plantables.SplitPlacesByLocation` | app/src/main/java/dk/mifu/pmos/vegetablegardening/fragments/plantables/PlantablePlantsFragment.kt:52-56 | every plant added to the greenhouse list is plantable and passes the greenhouse predicate; every plant added to the outdoors list is plantable and fails it |
| `NewSeason.Decide` | app/src/main/java/dk/mifu/pmos/vegetablegardening/fragments/croprotation/NewSeasonFragment.kt:32-38 | the outcome of a save for a text and the stored years; no contract of its own, its cases are stated by the `NewSeason` lemmas below |
| `NewSeason.YearsAfter` | app/src/main/java/dk/mifu/pmos/vegetablegardening/fragments/croprotation/NewSeasonFragment.kt:72-77 | the stored years after a save; no contract of its own, stated by `NewSeason.SaveStoresTheYear`, `NewSeason.ExistingYearIsRejected` and `NewSeason.SaveIsIdempotent` |
| `NewSeason.CurrentAfter` | app/src/main/java/dk/mifu/pmos/vegetablegardening/fragments/croprotation/NewSeasonFragment.kt:35-36 | the current season after a save; no contract of its own, stated by `NewSeason.SaveStoresTheYear` and `NewSeason.BlankSaveChangesNothing` |
| `NewSeason.BlankSaveChangesNothing` | app/src/main/java/dk/mifu/pmos/vegetablegardening/fragments/croprotation/NewSeasonFragment.kt:33-39 | blank text gives the "enter a year" outcome and changes neither the stored years nor the current season |
| `NewSeason.ExistingYearIsRejected` | app/src/main/java/dk/mifu/pmos/vegetablegardening/fragments/croprotation/NewSeasonFragment.kt:72-78 | a year already stored gives the "already exists" outcome and leaves the stored years unchanged |
| `NewSeason.SaveStoresTheYear` | app/src/main/java/dk/mifu/pmos/vegetablegardening/fragments/croprotation/NewSeasonFragment.kt:32-36 | once the text is read as a year, that year is stored afterwards and is the current season; no year is removed, and no year other than that one is added |
| `NewSeason.UnreadTextStoresNothing` | app/src/main/java/dk/mifu/pmos/vegetablegardening/fragments/croprotation/NewSeasonFragment.kt:34 | text that is not read as a year stores nothing |
| `NewSeason.SaveIsIdempotent` | app/src/main/java/dk/mifu/pmos/vegetablegardening/fragments/croprotation/NewSeasonFragment.kt:70-78 | saving the same text twice stores what saving it once does, and the second save never inserts |
| `NewSeason.TypedYearIsStored` | app/src/main/java/dk/mifu/pmos/vegetablegardening/fragments/croprotation/NewSeasonFragment.kt:33-36 | a year typed as plain digits is stored, and the outcome is "saved" exactly when it was new |
| `NewSeason.SeasonRepository.GetSeason` | app/src/main/java/dk/mifu/pmos/vegetablegardening/fragments/croprotation/NewSeasonFragment.kt:86 | the season is found if and only if its year is stored |
| `NewSeason.SeasonRepository.InsertSeason` | app/src/main/java/dk/mifu/pmos/vegetablegardening/fragments/croprotation/NewSeasonFragment.kt:94 | the year is added to the stored years |
| `NewSeason.HandleSave` | app/src/main/java/dk/mifu/pmos/vegetablegardening/fragments/croprotation/NewSeasonFragment.kt:70-95 | the year is inserted if and only if it was not stored; when it was, the store is unchanged |
| `NewSeason.OnSaveClicked` | app/src/main/java/dk/mifu/pmos/vegetablegardening/fragments/croprotation/NewSeasonFragment.kt:32-40 | the outcome, the stored years and the current season after a press are the ones the decision functions give for the text and the years before |
| `BedStore.BedDao.constructor` | app/src/androidTest/java/dk/mifu/pmos/vegetablegardening/database/AppDatabaseTest.kt:32 | a new store is empty |
| `BedStore.BedDao.Insert` | app/src/androidTest/java/dk/mifu/pmos/vegetablegardening/database/AppDatabaseTest.kt:54 | a bed with a new name is stored under that name; nothing else changes |
| `BedStore.BedDao.FindByName` | app/src/androidTest/java/dk/mifu/pmos/vegetablegardening/database/AppDatabaseTest.kt:55 | a bed is found if and only if one is stored under the name, and the found bed has that name |
| `BedStore.BedDao.Update` | app/src/androidTest/java/dk/mifu/pmos/vegetablegardening/database/AppDatabaseTest.kt:131 | the stored bed of that name is replaced as a whole: location, plants, columns and rows |
| `BedStore.BedDao.Delete` | app/src/androidTest/java/dk/mifu/pmos/vegetablegardening/database/AppDatabaseTest.kt:192 | exactly the bed of that name is removed; a name not stored leaves the store unchanged |
| `BedStore.BedDao.GetAll` | app/src/androidTest/java/dk/mifu/pmos/vegetablegardening/database/AppDatabaseTest.kt:264 | the list has one entry per stored bed: each entry is a stored bed, each stored bed appears, no name twice |
| `BedStore.InsertThenFind` | app/src/androidTest/java/dk/mifu/pmos/vegetablegardening/database/AppDatabaseTest.kt:52-110 | a bed inserted into an empty store is found with the same name, location, plants, columns and rows |
| `BedStore.UpdateThenFind` | app/src/androidTest/java/dk/mifu/pmos/vegetablegardening/database/AppDatabaseTest.kt:126-178 | after an update, finding the name gives the new bed |
| `BedStore.DeleteThenFind` | app/src/androidTest/java/dk/mifu/pmos/vegetablegardening/database/AppDatabaseTest.kt:187-195 | after a delete, the name is not found |
| `BedStore.DeleteKeepsOther` | app/src/androidTest/java/dk/mifu/pmos/vegetablegardening/database/AppDatabaseTest.kt:200-229 | deleting a name, stored or not, keeps another stored bed |
| `BedStore.FindInEmpty` | app/src/androidTest/java/dk/mifu/pmos/vegetablegardening/database/AppDatabaseTest.kt:250-253 | a name never inserted is not found |
| `BedStore.GetAllCount` | app/src/androidTest/java/dk/mifu/pmos/vegetablegardening/database/AppDatabaseTest.kt:263-300 | get-all returns as many beds as were inserted under distinct names: none for an empty store, two after two inserts |
| `BedStore.StoresOutOfGridPlacement` | app/src/androidTest/java/dk/mifu/pmos/vegetablegardening/database/AppDatabaseTest.kt:76-90 | the store accepts and returns a bed whose placements lie outside its columns and rows |

## Left out

- Room, `LiveData` and their observers are not modelled. Coroutines and `Dispatchers.IO` are not modelled either. The stores are plain maps and sets, and every operation runs to completion in order.
- NewSeason.OnSaveClicked: the source launches the check-then-insert as a coroutine and sets the current season before it finishes. Two quick presses could then both pass the check. The model runs the save in sequence.
- NewSeason.OnSaveClicked: in the source, text that `toInt` rejects throws an uncaught `NumberFormatException`. The model returns `NotAnInteger` and changes nothing.
- Text.ParseInt32: only ASCII digits are read. Kotlin also accepts other Unicode decimal digits.
- Text.Lower: lower-cases ASCII letters only. Locale-specific case rules are not modelled.
- Text.IsWhitespace: only ASCII whitespace. Unicode space separators are not modelled.
- ChoosePlant.PlantAdapter.Filter: Android runs `performFiltering` on a worker thread and `publishResults` on the UI thread. The model runs the two in sequence.
- The text watcher passes `s.toString()` to the filter, and this gives "null" when the text is null. That is not modelled. `None` stands for a null constraint reaching `performFiltering`.
- BedOverview.SizeOfBed: does not model 32-bit overflow of `column + 1` when a key's column or row is `Int.MAX_VALUE`. Coordinates are unbounded integers.
- BedOverview.LayOut: a key with a negative column does not raise the column count, and a key with a negative row does not raise the row count. No tile shows a key with either coordinate negative, because every tile's cell is non-negative. The model does not forbid such keys.
- Tile rendering, button sizes and the plant-info navigation (BedOverviewFragment.kt:49-58, 76-80) are not modelled, because they are UI only.
- BedStore.BedDao.Insert: the DAO's conflict strategy is not part of this model. Inserting a name already stored is modelled as refused, with the store unchanged. This matches Room's default of aborting on conflict, where the source would throw an exception.
- BedStore.BedDao.GetAll: the order of the list is left open, as a query without an ordering leaves it.
- BedStore.BedDao: only beds are modelled. The season DAO is modelled as the set of stored years. Gardens are not modelled, because no core operation touches them.
- The bodies of the location, navigation, plantable and greenhouse predicates are not part of this model; they are parameters.
- Formatting of the plant dates (PlantablePlantsFragment.kt:90-93) is not modelled, because it is display only. The dates are day numbers; the date type is not part of this model.
- `GridTile.snapToGrid`, `BedCallback`, `GardenOverviewFragment` and `GardenOverviewNavigation` are not modelled. They are layout and navigation code, as are the toasts, tooltips and keyboard handling.
- `GardenViewModel` is not modelled. Of `BedViewModel` (app/src/main/java/dk/mifu/pmos/vegetablegardening/viewmodels/BedViewModel.kt) only the plant map is modelled; its name, location and tile ids are not.
