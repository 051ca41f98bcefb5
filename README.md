# Endless Sky map editor: map store and planet panel, in Dafny

This project models the non-graphical core of the Endless Sky map editor:

- **The map store** (`Map.cpp`) keeps two keyed tables: star systems by name and planets by name.
  - A stellar object in a system names the planet it hosts.
  - A planet lists the systems it appears in. More than one system means a wormhole; several objects of one system hosting it make a "ringworld".
- **Four identity edits** change these tables in place:
  - renaming a system, which rewrites its neighbours' links;
  - renaming a planet, which moves its record and renames the other objects of its wormhole path;
  - linking an object to an existing planet;
  - splitting an object off onto another planet.
- **Price labels:** `PriceLevel` turns a commodity price into one of five labels.
- **The planet panel** (`PlanetView.cpp`):
  - shows list fields as comma-separated text and reads them back;
  - stores each edited field, marking the map changed only when the value differs;
  - routes a typed planet name to one of the map edits, depending on the answers to its question dialogs.

Files:

- `Records.dfy`: systems, stellar objects and planets. It also gives the small `System`/`Planet` members used by the edits their simplest definition. `PlanetCount`, `ChangeLink`, `AddSystem`, `RemoveSystem` and `WormholeSystems` each carry a contract. `IsInSystem` and `IsWormhole` are a membership test and a size test, with `WormholeSpansTwoSystems` relating the two.
- `Prices.dfy`: `PriceLevel`, with C++ truncating division written out.
- `MapEdits.dfy`: each map edit as a function on the two tables (`Tables`), with lemmas about it.
- `MapStore.dfy`: `class Map`, whose methods change the tables step by step as the C++ does. Each is proved to end in exactly the state its `MapEdits` function gives.
- `FieldText.dfy`: `ToString`/`ToList` as loop methods, each proved equal to a recursive definition, and the round trip between them.
- `PlanetEditor.dfy`: `class PlanetView` with the field handlers and `NameChanged`, the routing decision `NameRoute`, and lemmas about the result.

Conventions:

- Pointers become keys. A system is its key; a stellar object is `ObjRef(system key, index)`; a null pointer is `None`. A planet's vector of `const System *` is a sequence of system keys.
- `planets[key]` on a missing key creates a default record. This is modelled by `PlanetAt` plus insertion wherever the C++ does it.
- The dialog buttons are `Answer` parameters of `NameChanged`. Closing a dialog counts as `Cancel`.
- `NameChanged` returns the route it took. `Aborted` means the name box is reset to the old name.

## Model

| member | source | states |
|---|---|---|
| Records.CountHosts | Map.cpp:271 | The count of hosting objects is at most the number of objects. It is 0 exactly when no object hosts the planet, and equals the object count exactly when all of them do. |
| Records.SoleHost | Map.cpp:271 | Given one hosting object, the count is at least 1, and it is exactly 1 when no other object hosts the planet. |
| Records.PlanetCount | Map.cpp:271 | `System::PlanetCount` is at most the number of objects, and 0 exactly when no object hosts the planet. |
| Records.ReplaceLink | Map.cpp:224 | `ChangeLink`: each link to `from` becomes a link to `to` in the same position. Other links stay. No link to `from` remains. |
| Records.ChangeLink | Map.cpp:224 | `System::ChangeLink` keeps the name, the objects and the number of links. In each position a link to `from` becomes one to `to` and every other link stays. If `from` was linked, `to` is linked afterwards, and no link to `from` is left unless `from == to`. |
| Records.ChangeLinkIdempotent | Map.cpp:224 | Changing a link twice is the same as changing it once. |
| Records.AddSystem | Planet.h:77 | Afterwards the planet is in the system. Membership grows by exactly that system, and no other field changes. Adding a system already present changes nothing. Duplicate-freedom is kept. |
| Records.WormholeSpansTwoSystems | Planet.h:82 | With no system listed twice, a planet is a wormhole exactly when it is in two different systems. |
| Records.WormholeSystems | Planet.h:84 | The listed systems are exactly those the planet is in. There are more than one of them exactly for a wormhole, and none twice when the planet lists none twice. |
| Records.Without | Planet.h:78 | Exactly the keys other than the given one remain, and nothing changes when the key is absent. |
| Records.WithoutCounts | Planet.h:78 | Every occurrence of the key is dropped, and each other key is kept as many times as it occurs. |
| Records.WithoutAppend | Planet.h:78 | Dropping a key keeps the order of the other keys: it distributes over concatenation. |
| Records.RemoveSystem | Planet.h:78 | Afterwards the planet is not in the system. Each other system is listed as often as before, so membership in it is unchanged, and with no duplicates before there are none after. A planet not in the system is unchanged. No other field changes. |
| Prices.TruncDiv | Map.cpp:201 | C++ `int` division. The size of the quotient is the size of the dividend divided by the size of the divisor. Its sign is the product of the operands' signs, and it agrees with `/` for a non-negative dividend and a positive divisor. |
| Prices.TruncDivRemainder | Map.cpp:201 | Rounding toward zero: the remainder has the dividend's sign and is smaller than the divisor in size. Negating either operand negates the quotient. |
| Prices.Clamp | Map.cpp:201 | `max(0, min(4, k))` is in [0, 4]. It equals `k` inside that range and the nearer bound outside it. |
| Prices.Lookup | Map.cpp:198-199 | Gives the first position whose commodity has the name, or `None` exactly when no commodity has it. |
| Prices.PriceLevel | Map.cpp:188-206 | `""` exactly when no commodity has the name. Otherwise one of the five labels. The first commodity with that name decides, through the clamped truncating index. A zero price range is excluded by precondition. |
| Prices.TruncDivMonotone | Map.cpp:201 | C++ division by a positive divisor is monotonic in the dividend. |
| Prices.PriceLevelMonotonic | Map.cpp:201-202 | With high > low, a higher price never gets a cheaper label. |
| Prices.PriceLevelAtOrBelowLow | Map.cpp:198-202 | For any commodity table: if the first commodity of that name has high > low, a price at or below its low price is "(very low)". |
| Prices.PriceLevelAtOrAboveHigh | Map.cpp:198-202 | For any commodity table: if the first commodity of that name has high > low, a price at or above its high price is "(very high)". |
| Prices.EuclideanAgreesAfterClamp | Map.cpp:201 | With high > low, Euclidean and truncating division give the same label once clamped. |
| Prices.InvertedRangeNeedsTruncation | Map.cpp:201 | With high < low the two divisions give different labels (a concrete case). |
| MapEdits.WithPlanetOf | Map.cpp:257 | `SetPlanet` on one object: that object hosts the name and every other object is unchanged. |
| MapEdits.RewriteLinks | Map.cpp:222-224 | The link-fixing loop keeps the table's keys. |
| MapEdits.RewriteLinksAt | Map.cpp:222-224 | After the loop, an entry has had `ChangeLink` applied exactly when it is among the visited links. |
| MapEdits.RenamedSystems | Map.cpp:211-228 | A no-op when `to` exists, when `from` does not, or when `from == to`. Otherwise the keys are the old keys with `from` replaced by `to`. |
| MapEdits.RenameSystemEffect | Map.cpp:217-227 | The entry under `to` is the old system renamed. Every other entry is unchanged, except that a linked neighbour now links to `to` instead of `from`. |
| MapEdits.RenameSystemKeepsLinks | Map.cpp:217-218 | The renamed system keeps its objects and all its links, including links to systems outside the map. |
| MapEdits.RenameSystemLeavesUnlinked | Map.cpp:222-224 | A system the renamed one does not link to is unchanged. |
| MapEdits.RenameSystemRedirectsLinks | Map.cpp:222-224 | A linked system no longer links to `from`. It links to `to` if it linked to `from`. |
| MapEdits.FirstOther | Map.cpp:244-248 | Gives the first object, other than the renamed one, that hosts the planet, or `None` exactly when there is none. |
| MapEdits.RenameFirstOther | Map.cpp:243-249 | One pass of the wormhole loop keeps the layout and changes no other system. |
| MapEdits.RenameOthersAt | Map.cpp:243-249 | With no system listed twice, each system ends as a single pass over it leaves it. |
| MapEdits.RenamedPlanet | Map.cpp:233-258 | No-op for a null object or an empty name. Otherwise: the object hosts `name`, and `planets[name]` is named `name`. The old record moves to `name` when it exists under a different key. Renaming to the current name replaces the record with a blank one. Other planets are unchanged. |
| MapEdits.RenamePlanetRenamesAtMostOneOther | Map.cpp:243-249 | In each system, the only other object that changes is the first other host of the old planet, and only in a system of its path. |
| MapEdits.RenamePlanetChangesOneOtherPerSystem | Map.cpp:245-248 | Two changed objects of one system, neither of them the renamed object, are the same object (the `break`). |
| MapEdits.Detached | Map.cpp:270-272 | The planet keys are kept and only the old planet's record can change. |
| MapEdits.LinkedToPlanet | Map.cpp:264-278 | No-op unless object, system and a non-empty existing name are given. Then the object hosts `name`, and `name` lists the system. The old planet is never erased. It loses the system exactly when the object was its only host there. Other planets are unchanged. |
| MapEdits.RelinkedObject | Map.cpp:282-308 | No-op unless the object's planet exists. If `newName` exists, the result equals `LinkedToPlanet`. Otherwise the result is a new record for a non-empty name, named and listing the system. The object hosts `newName` even when it is empty. The old planet is never erased. |
| MapEdits.RenamePlanetConsistent | Map.cpp:252-256 | `RenamePlanet` keeps every planet's system list free of duplicates. |
| MapEdits.LinkToPlanetConsistent | Map.cpp:270-277 | `LinkToPlanet` keeps every planet's system list free of duplicates. |
| MapEdits.RelinkObjectConsistent | Map.cpp:295-307 | `RelinkObject` keeps every planet's system list free of duplicates. |
| MapStore.Map.SetChanged | Map.cpp:113-123 | Afterwards `IsChanged()` is the given value. The tables are untouched. |
| MapStore.Map.RenameSystem | Map.cpp:211-228 | The systems table ends as `RenamedSystems` of the old one. Planets, commodities and the flag are untouched. |
| MapStore.Map.RenameFirstOther | Map.cpp:243-249 | The inner search loop ends as `MapEdits.RenameFirstOther` of the old systems table. |
| MapStore.Map.RenamePlanet | Map.cpp:233-258 | Both tables end as `RenamedPlanet` of the old ones. |
| MapStore.Map.LinkToPlanet | Map.cpp:264-278 | Both tables end as `LinkedToPlanet` of the old ones. |
| MapStore.Map.RelinkObject | Map.cpp:282-308 | Both tables end as `RelinkedObject` of the old ones. |
| FieldText.Trim | PlanetView.cpp:619 | `QString::trimmed`: the result has no white space at either end. It is the whole text when that is already trimmed, and empty when the text is all white space. |
| FieldText.TrimFramed | PlanetView.cpp:619 | Nothing but white space is removed: the result is the piece of the text that starts right after the leading white space, with only white space after it. |
| FieldText.Joined | PlanetView.cpp:597-609 | `""` for no items and the item itself for one item. |
| FieldText.ToString | PlanetView.cpp:597-609 | The loop result is `Joined(items)`: the items in order, separated by ", ". |
| FieldText.Segments | PlanetView.cpp:617 | The split gives at least one piece, and no piece contains a comma. |
| FieldText.SegmentsJoinBack | PlanetView.cpp:617 | Joining the pieces with ',' gives the text back. |
| FieldText.NonEmpty | PlanetView.cpp:617 | Every kept piece is non-empty. A piece is kept exactly when it is a non-empty piece of the input, and input without empty pieces is kept whole. |
| FieldText.NonEmptyCounts | PlanetView.cpp:617 | Each non-empty piece is kept as many times as it occurs, and the empty ones are dropped. |
| FieldText.NonEmptyAppend | PlanetView.cpp:617 | Dropping empty pieces keeps the order of the others: it distributes over concatenation. |
| FieldText.Tokens | PlanetView.cpp:613-622 | Every token is trimmed and comma-free. There are no more tokens than pieces. |
| FieldText.ToList | PlanetView.cpp:613-622 | The loop result is `Tokens(str)`. |
| FieldText.ToListOfToString | PlanetView.cpp:597-622 | For items that are non-empty, comma-free and trimmed, reading back the shown text gives the same list. |
| FieldText.BlankTextGivesEmptyItem | PlanetView.cpp:617-619 | A non-empty text of white space only reads back as one empty item. |
| PlanetEditor.StoreEdit | PlanetView.cpp:409-415 | The record under the key (created if missing) becomes the edited one, and other records are unchanged. The flag is set exactly when the stored value differed. An equal value leaves table and flag as they were. |
| PlanetEditor.StoreEditIdempotent | PlanetView.cpp:411-415 | Storing the same value a second time changes nothing and sets no flag. |
| PlanetEditor.ConfirmShownAttributes | PlanetView.cpp:210 | Confirming the attribute text the panel shows, for plain items, leaves the planet and the flag as they are. |
| PlanetEditor.AsksToUpdateAll | PlanetView.cpp:278-281 | The relink question needs an old planet that has a non-empty name and exists in the table. |
| PlanetEditor.UpdateAllAskedForSharedPlanet | PlanetView.cpp:278-281 | For an object of the panel's system, the question is asked exactly when the old planet exists and is a wormhole, or another object of that system also hosts it. |
| PlanetEditor.NameRoute | PlanetView.cpp:255-368 | Nothing happens exactly when there is no object or the name is unchanged, so an empty name passes the guard. A name shared with a system needs "Yes". The relink question routes to `RelinkObject` on "No" and aborts on "Cancel". Otherwise an existing name links only on "Yes", and a new name renames. |
| PlanetEditor.WithSystemAdded | PlanetView.cpp:371-375 | Afterwards `planets[text]` exists and is in the system. Its systems are the old record's plus this one, and its other fields are the old record's (or the default record's). The systems table and the other records are unchanged. |
| PlanetEditor.AfterNameChange | PlanetView.cpp:317-375 | The systems keep their layout, and an unchanged or aborted name leaves both tables as they were. |
| PlanetEditor.NameChangeCompletes | PlanetView.cpp:314-377 | On every path that is not aborted, planet `text` exists and lists the panel's system, and the object hosts `text` unless it is empty. |
| PlanetEditor.EmptyNameMakesBlankRecord | PlanetView.cpp:255-257 | An empty name for a plain planet leaves the object as it was, but creates a blank record under the empty key that lists the system. |
| PlanetEditor.WithSystemAddedConsistent | PlanetView.cpp:371-375 | Adding the panel's system to planet `text` keeps every planet's system list free of duplicates. |
| PlanetEditor.NameChangeConsistent | PlanetView.cpp:314-377 | Renaming through the panel keeps every planet's system list free of duplicates. |
| PlanetEditor.PlanetView.constructor | PlanetView.cpp:42-43 | A new panel has no object or system selected. |
| PlanetEditor.PlanetView.SetPlanet | PlanetView.cpp:181-184 | The panel selects the given object and system. |
| PlanetEditor.PlanetView.GovernmentChanged | PlanetView.cpp:383-401 | Nothing changes without an object or with an empty planet name. Otherwise the government is stored as `StoreEdit` gives. |
| PlanetEditor.PlanetView.AttributesChanged | PlanetView.cpp:405-417 | Nothing changes without an object or with an empty planet name. Otherwise the attribute list `Tokens(text)` is stored as `StoreEdit` gives. |
| PlanetEditor.PlanetView.DescriptionChanged | PlanetView.cpp:421-433 | The same as AttributesChanged, for the description. |
| PlanetEditor.PlanetView.SpaceportDescriptionChanged | PlanetView.cpp:437-449 | The same as AttributesChanged, for the spaceport description. |
| PlanetEditor.PlanetView.ShipyardChanged | PlanetView.cpp:453-465 | The same as AttributesChanged, for the shipyard list. |
| PlanetEditor.PlanetView.OutfitterChanged | PlanetView.cpp:469-481 | The same as AttributesChanged, for the outfitter list. |
| PlanetEditor.PlanetView.TributeFleetNameChanged | PlanetView.cpp:581-593 | The same as AttributesChanged, for the tribute fleet name. |
| PlanetEditor.PlanetView.NameChanged | PlanetView.cpp:253-378 | Returns `NameRoute` of the answers. The tables end as `AfterNameChange`, and the map is marked changed exactly on a non-aborted route. The selection stays valid. |

## Left out

- `Map::Load`, `Map::Save`, `DataDirectory` and `FileName` (Map.cpp:25-110): file I/O through a parser and writer that are not part of this model.
- `Map::MapPrice` (Map.cpp:177-184): floating-point arithmetic.
- Prices.PriceLevel: `int` is unbounded here, so the 32-bit overflow of `(price - low) * 5` for extreme prices is not modelled.
- The galaxies list and the table accessors (Map.cpp:127-170) are plain field access; the model reads the fields directly.
- The numeric handlers (`ReputationChanged`, `BribeChanged`, `SecurityChanged`, `TributeChanged`, `TributeThresholdChanged`, `TributeFleetQuantityChanged`) and `GetOptionalValue`: they use NaN for "unset" and compare doubles.
- Everything that is Qt widget state is left out:
  - the panel's layout and validators;
  - the widget filling in `SetPlanet` and `Reinitialize`;
  - signal blocking and the dialog texts;
  - `landscape->SetPlanet`;
  - the government placeholder text.
- `LandscapeView` and sprites: code that is not part of this model.
- The bodies of `Planet.cpp` and `System.cpp` are not part of this model. Each helper has a simplest definition meeting its contract:
  - `AddSystem` appends the system at the end when absent. `SortWormholeSystems` and the travel order it fixes are not modelled.
  - `IsWormhole` means "listed in more than one system".
- MapStore.Map.RenameSystem iterates a copy of the renamed system's link list. The C++ iterates the live list, which differs only if a system links to itself.
- MapEdits.RenamedPlanet skips a wormhole system whose key is not in the table. The C++ would follow a dangling pointer left by an earlier system rename.
- Planets' system lists keep a renamed system's old key, just as the C++ keeps its dangling `const System *`. No lemma speaks about such stale keys.
- The NaN-defaulted numeric fields of a planet and its landscape sprite are not part of the record.
- A planet's `music`, `unparsed` and `tributeUnparsed` (Planet.h:125, 144-145) are not part of the record. No handler modelled here reads or writes them.
- PlanetEditor.PlanetView.NameChanged requires a system whenever an object is selected (`SystemGiven`). With a null system the C++ would dereference it at PlanetView.cpp:281, or pass it to `AddSystem` at PlanetView.cpp:375. A null system has no key here. `SetPlanet`, `Valid` and the field handlers still accept that selection.
- `Planet::IsInSystem` is a plain membership test (`Records.IsInSystem`). `AddSystem`, `RemoveSystem` and `WormholeSystems` state what it means.
- Map.h, where the map's fields get their initial values, is not part of this model. `MapStore.Map.constructor` starts with empty tables and the flag clear.
