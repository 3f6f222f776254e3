# Karel Playgrounds — a verified model of the world state and its rules

Karel Playgrounds is an iOS app in which a robot, Karel, lives on a grid of
at most 10 × 10 cells. Cells may hold stacks of beepers and obstacles. Karel
can turn, move, pick up and put down beepers. World-builder modes let the user
add and remove beepers and obstacles by tapping cells, and a store keeps the
names of all saved playgrounds.

This project models, in Dafny:

- **the world model** (`PlaygroundModel`, file `playground_model.dfy`). It is a class holding the grid
  dimensions, the lists of beeper and obstacle entities, and the two derived
  maps: the beeper count per cell and the obstacle presence (0 or 1) per cell.
  Every mutating operation is a method with a `modifies` clause. The four
  single-cell operations state their effect as two-state predicates on the
  old and new fields (`ObstacleRemoved`, `BeeperAdded`, `BeeperRemoved`,
  `ObstacleAdded`). The clear-all, dimension, rebuild and resize operations
  state the new fields directly in `ensures` clauses, against `old(...)`. There are two
  invariants. `Covers` means both maps have exactly the grid's cells as keys.
  `Consistent` means a count never exceeds the beepers on the cell, presence
  is 0 or 1, and presence 1 means an obstacle entity stands there.
  - The single-cell operations (add/remove beeper, add/remove obstacle) and
    the two clear-all operations preserve both invariants.
  - `changeNumRows`, `changeNumCols` and the two map rebuilds preserve
    `Consistent`. Taken alone, they put the maps out of step with the
    dimensions, so they do not keep `Covers`. The editor's whole sequence,
    `Resize`, restores `Covers`.
  - The view actions and `ChangeWorld` preserve both invariants.
- **Karel's rules** (`KarelWorldView`, file `karel_world_view.dfy`). These are
  the view's state (position, accumulated rotation, the four mode flags and
  the alert flags), the turns, the move state machine with its wall and
  obstacle checks, put/pick beeper, the trash action, the mode toggles, and the
  two map lookups. Swift's truncated `%` is modelled by `Rem360`. A reference
  heading `HeadingOf` (quarter turns from east, Euclidean) is proved to agree
  with the four branch tests of `moveKarel`.
- **the tap dispatch** (`GridView.ChangeWorld`, file `grid_view.dfy`). This is
  the priority-ordered choice between add beeper, remove beeper, add obstacle,
  remove obstacle and teleport, with every branch's effect and alert.
- **the playground store** (`PlaygroundStore`, file `playground_store.dfy`). It
  maps a playground id to a name. It offers lookup, update, add, remove and
  rename, and a listing sorted by name; Swift's `String <` is modelled as
  lexicographic order and proved a strict total order. It also converts to and
  from the `[String: String]` property list that is persisted.
- **UUIDs** (`Uuid`, file `uuid.dfy`). A UUID is identified by its canonical
  text: 36 characters, upper-case hexadecimal digits, hyphens at positions 8,
  13, 18 and 23. Parsing accepts either case. Printing and parsing back gives
  the same UUID.

Fresh UUIDs (a new beeper, obstacle or playground, or a property-list key that
does not parse) come from the caller as parameters. They match no existing
entry wherever behaviour depends on that.

## Behaviour as written

The model follows the code, including these points where the code does less
than a description of the app would suggest:

- `moveKarel` bounds-checks only the coordinate that changes. The rule "the
  target cell is in the grid and free of obstacles" therefore holds only when
  Karel starts inside the grid (`MoveRule`). From outside the grid, a move may
  succeed onto a cell that is not in it.
- `addObstacle` sets the cell's beeper count to 0 but leaves the beeper
  entities in the list. A later `removeBeeper` on that cell then drives the
  count to -1. So "count equals entities on the cell" is not an invariant
  (`ObstacleHidesBeeper` exhibits a world that breaks it), and "count ≤
  entities on the cell" is. Non-negative counts are kept only by the
  callers, which remove a beeper only where the count is non-zero
  (`CountsNonNegative` in `PickBeeper` and `ChangeWorld`).
- A second `addObstacle` on the same cell appends a second obstacle entity.
  Presence stays 1, and `removeObstacles` then removes only one of the two.
- `init(fromPropertyList:)` parses keys case-insensitively. Two keys that
  differ only in the case of their hexadecimal letters denote one playground,
  so the store can end up with fewer entries than the property list.

## Model

| member | source | states |
|---|---|---|
| Uuid.Upper | KarelPlaygrounds/PlaygroundStore.swift:79 | upper-casing keeps the length, maps each character by `UpperChar`, and turns a well-formed UUID text into a canonical one |
| Uuid.UpperChar | KarelPlaygrounds/PlaygroundStore.swift:79 | the result is never a lower-case hex letter, is a hex digit exactly when the input is, and is a hyphen exactly when the input is |
| Uuid.Parse | KarelPlaygrounds/PlaygroundStore.swift:79 | `UUID(uuidString:)` gives a UUID exactly when the text is well formed (36 characters, hyphens at 8/13/18/23, hex of either case elsewhere) |
| Uuid.CanonicalUpper | KarelPlaygrounds/PlaygroundStore.swift:70 | upper-casing leaves canonical `uuidString` text unchanged |
| Uuid.ParseUuidString | KarelPlaygrounds/PlaygroundStore.swift:70-79 | parsing a UUID's `uuidString` gives back that same UUID |
| Uuid.ParseIgnoresCase | KarelPlaygrounds/PlaygroundStore.swift:79 | a text of the same length as a well-formed one, agreeing with it character by character up to the case of the hex letters, is itself well formed and parses to the same UUID |
| PlaygroundModel.Cell | KarelPlaygrounds/PlaygroundModel.swift:156-159 | the grid coordinate (row, col) used as the maps' key, compared by value |
| PlaygroundModel.Token | KarelPlaygrounds/PlaygroundModel.swift:161-172 | a placed entity: id, row and column. `Beeper` and `Obstacle` are its two names, since both structs have exactly these fields |
| PlaygroundModel.RemoveFirstAt | KarelPlaygrounds/PlaygroundModel.swift:61-66 | the search plus `remove(at:)`: drops the first entity on the cell; when none is there the list is unchanged, otherwise it is one shorter (same for obstacles, lines 84-89) |
| PlaygroundModel.FirstIndexAt | KarelPlaygrounds/PlaygroundModel.swift:61-62 | the search index is at most the length; if it is in range, the entity there is on the cell and no earlier entity is |
| PlaygroundModel.CountConcat | KarelPlaygrounds/PlaygroundModel.swift:54 | the number of entities on a cell is additive over concatenation, as when an entity is appended |
| PlaygroundModel.FoundIffPresent | KarelPlaygrounds/PlaygroundModel.swift:61-68 | the linear search finds an entity exactly when at least one entity stands on the cell |
| PlaygroundModel.RemoveFirstCounts | KarelPlaygrounds/PlaygroundModel.swift:60-69 | removing the first entity on a cell lowers that cell's entity count by one if it was positive, and no other cell's count |
| PlaygroundModel.RemoveFirstKeepsOthers | KarelPlaygrounds/PlaygroundModel.swift:61-66 | `remove(at:)` of the first match removes exactly that entity (multiset). Entities before it keep their index and those after shift down by one; with no match the list is unchanged |
| PlaygroundModel.ZeroGrid | KarelPlaygrounds/PlaygroundModel.swift:28-33 | the nested row/column loops build a map whose keys are exactly the cells of rows × cols, every one mapped to 0 |
| PlaygroundModel.Playground.constructor | KarelPlaygrounds/PlaygroundModel.swift:22-41 | the given dimensions and lists are stored unchanged; both maps have exactly the grid's cells as keys, all 0; the new world is consistent |
| PlaygroundModel.Playground.RemoveObstacles | KarelPlaygrounds/PlaygroundModel.swift:83-92 | only the first obstacle on the cell is removed and its presence set to 0; with none it is a no-op. Consistency and coverage are preserved, and under consistency the presence at the cell is 0 afterwards |
| PlaygroundModel.Playground.AddBeeper | KarelPlaygrounds/PlaygroundModel.swift:51-57 | first the obstacle eviction of `removeObstacles`. Then one beeper with the new id is appended, the count at the cell rises by exactly 1, and every other count is unchanged. Consistency and coverage are preserved, and under consistency the presence at the cell is 0 afterwards |
| PlaygroundModel.Playground.RemoveBeeper | KarelPlaygrounds/PlaygroundModel.swift:60-69 | only the first beeper on the cell in list order is removed and the cell's count drops by 1; with none, nothing changes. Consistency and coverage are preserved |
| PlaygroundModel.Playground.AddObstacle | KarelPlaygrounds/PlaygroundModel.swift:71-79 | the cell's count becomes 0 while the beeper list is untouched; one obstacle is appended, even if the cell already has one; presence becomes 1; consistency and coverage are preserved |
| PlaygroundModel.Playground.RemoveAllBeepers | KarelPlaygrounds/PlaygroundModel.swift:96-105 | the beeper list is empty and every grid cell's count is 0; obstacles and dimensions are untouched; consistency and coverage are preserved |
| PlaygroundModel.Playground.RemoveAllObstacles | KarelPlaygrounds/PlaygroundModel.swift:109-118 | the obstacle list is empty and every grid cell's presence is 0; beepers and dimensions are untouched; consistency and coverage are preserved |
| PlaygroundModel.Playground.ChangeNumRows | KarelPlaygrounds/PlaygroundModel.swift:120-122 | only the row count changes; consistency is preserved |
| PlaygroundModel.Playground.ChangeNumCols | KarelPlaygrounds/PlaygroundModel.swift:124-126 | only the column count changes; consistency is preserved |
| PlaygroundModel.Playground.UpdateBeeperCountDict | KarelPlaygrounds/PlaygroundModel.swift:130-140 | the count map is rebuilt over exactly rows × cols, all 0, and the beeper list is emptied, whatever it held; consistency is preserved |
| PlaygroundModel.Playground.UpdateObstaclePositions | KarelPlaygrounds/PlaygroundModel.swift:144-154 | the presence map is rebuilt over exactly rows × cols, all 0, and the obstacle list is emptied, whatever it held; consistency is preserved |
| PlaygroundModel.ObstacleHidesBeeper | KarelPlaygrounds/PlaygroundModel.swift:71-79 | equality of count and beepers on a cell is not kept: in a 1 × 1 world, `addBeeper` then `addObstacle` on the one cell leave its count at 0 with one beeper still on it |
| PlaygroundModel.Playground.Resize | KarelPlaygrounds/PlaygroundEditor.swift:39-55 | given stepper values in 1...10, the editor's sequence (set dimension, rebuild beeper map, rebuild obstacle map) leaves an empty world of the new size that covers the grid, is all zero and is consistent |
| KarelWorldView.Rem360 | KarelPlaygrounds/KarelWorldView.swift:378-389 | Swift's `% 360`: the remainder lies strictly between -360 and 360, takes the sign of the dividend, and differs from it by a multiple of 360 |
| KarelWorldView.FacesEast | KarelPlaygrounds/KarelWorldView.swift:378 | `abs(Int(rotation) % 360) == 0`, on the truncated remainder |
| KarelWorldView.FacesWest | KarelPlaygrounds/KarelWorldView.swift:381 | `Int(rotation) % 360` is 180 or -180 |
| KarelWorldView.FacesSouth | KarelPlaygrounds/KarelWorldView.swift:384 | `Int(rotation) % 360` is 90 or -270 |
| KarelWorldView.FacesNorth | KarelPlaygrounds/KarelWorldView.swift:387 | `Int(rotation) % 360` is 270 or -90 |
| KarelWorldView.MoveAllowed | KarelPlaygrounds/KarelWorldView.swift:378-389 | the guard for each heading. The target holds no obstacle, and only the changing coordinate is bounds-checked, on the side it moves towards: east below numCols, west at least 0, south below numRows, north at least 0 |
| KarelWorldView.HeadingTests | KarelPlaygrounds/KarelWorldView.swift:378-389 | for every multiple of 90, each of the four branch tests (0 → east, ±180 → west, 90/-270 → south, 270/-90 → north) holds exactly when the reference heading names that direction, so exactly one test holds |
| KarelWorldView.TurnLeftHeading | KarelPlaygrounds/KarelWorldView.swift:349-352 | subtracting 90 keeps a multiple of 90 and turns the heading left |
| KarelWorldView.TurnRightHeading | KarelPlaygrounds/KarelWorldView.swift:362-365 | adding 90 keeps a multiple of 90 and turns the heading right |
| KarelWorldView.TurnAroundHeading | KarelPlaygrounds/KarelWorldView.swift:336-339 | adding 180 keeps a multiple of 90 and reverses the heading |
| KarelWorldView.ObstacleAtLocation | KarelPlaygrounds/KarelWorldView.swift:397-404 | true exactly when the cell is a key of the presence map with a non-zero value; an absent key gives false (GridView.swift:106-113 is the same lookup) |
| KarelWorldView.BeeperAtLocation | KarelPlaygrounds/KarelWorldView.swift:407-414 | true exactly when the cell is a key of the count map with a non-zero value; an absent key gives false (GridView.swift:116-123 is the same lookup) |
| KarelWorldView.ObstacleLookupFindsEntity | KarelPlaygrounds/GridView.swift:90-92 | when presence 1 implies an obstacle entity, an obstacle the lookup reports is one that `removeObstacles` finds |
| KarelWorldView.BeeperLookupFindsEntity | KarelPlaygrounds/KarelWorldView.swift:300-301 | when counts are non-negative and at most the entities on the cell, a beeper the lookup reports is one that `removeBeeper` finds |
| KarelWorldView.MoveRule | KarelPlaygrounds/KarelWorldView.swift:378-389 | from a cell of the grid, the heading's guard holds exactly when the cell ahead is in the grid and holds no obstacle |
| KarelWorldView.WorldView.constructor | KarelPlaygrounds/KarelWorldView.swift:28-38 | the initial state: rotation 0, Karel at (0, 0), every mode and alert flag off |
| KarelWorldView.WorldView.OnAppear | KarelPlaygrounds/KarelWorldView.swift:80-83 | Karel goes to row numRows - 1 and keeps its column, so it starts in the grid's bottom-left cell of a non-empty grid |
| KarelWorldView.WorldView.TurnLeft | KarelPlaygrounds/KarelWorldView.swift:349-352 | rotation decreases by 90 and nothing else changes; validity is preserved and the heading turns left |
| KarelWorldView.WorldView.TurnRight | KarelPlaygrounds/KarelWorldView.swift:362-365 | rotation increases by 90 and nothing else changes; validity is preserved and the heading turns right |
| KarelWorldView.WorldView.TurnAround | KarelPlaygrounds/KarelWorldView.swift:336-339 | rotation increases by 180 and nothing else changes; validity is preserved and the heading reverses |
| KarelWorldView.WorldView.MoveKarel | KarelPlaygrounds/KarelWorldView.swift:377-394 | if the heading's guard holds, Karel steps to the cell ahead; otherwise position is unchanged and the crash alert is set. Rotation and modes are unchanged. "Karel is in the grid" and "Karel stands on no obstacle" are preserved |
| KarelWorldView.WorldView.PutBeeper | KarelPlaygrounds/KarelWorldView.swift:282-285 | `addBeeper` at Karel's cell; under consistency Karel's cell is obstacle-free afterwards; consistency and coverage are preserved |
| KarelWorldView.WorldView.PickBeeper | KarelPlaygrounds/KarelWorldView.swift:298-304 | with a non-zero count at Karel's cell, `removeBeeper` there (one beeper fewer when the world is consistent and no count is negative); otherwise the world is unchanged and the no-object alert is set. Consistency, coverage and non-negative counts are preserved |
| KarelWorldView.WorldView.Trash | KarelPlaygrounds/KarelWorldView.swift:240-244 | both lists are empty, the maps cover the unchanged grid with zeros, the world is consistent and Karel's cell is obstacle-free |
| KarelWorldView.WorldView.ToggleAddBeeper | KarelPlaygrounds/KarelWorldView.swift:143-149 | its flag flips, the other three are off, so at most one mode is on; position, rotation and alerts are unchanged |
| KarelWorldView.WorldView.ToggleRemoveBeeper | KarelPlaygrounds/KarelWorldView.swift:162-168 | its flag flips, the other three are off, so at most one mode is on; position, rotation and alerts are unchanged |
| KarelWorldView.WorldView.ToggleAddObstacle | KarelPlaygrounds/KarelWorldView.swift:118-124 | its flag flips, the other three are off, so at most one mode is on; position, rotation and alerts are unchanged |
| KarelWorldView.WorldView.ToggleRemoveObstacle | KarelPlaygrounds/KarelWorldView.swift:100-106 | its flag flips, the other three are off, so at most one mode is on; position, rotation and alerts are unchanged |
| GridView.ChangeWorld | KarelPlaygrounds/GridView.swift:76-102 | only the first applicable rule acts, in priority order: add beeper; remove beeper or no-object alert; add obstacle, or the invalid-location alert on Karel's cell; remove obstacle or no-object alert; teleport to an obstacle-free cell, or the invalid-location alert. It preserves "Karel stands on no obstacle", consistency, coverage (both maps keyed by exactly the grid's cells, which rendering force-unwraps), non-negative counts, and Karel in the grid |
| PlaygroundStore.NameLess | KarelPlaygrounds/PlaygroundStore.swift:60 | Swift's `String <` on names, as lexicographic order by character with no Unicode normalisation: a name is never less than itself, and a proper prefix is less than the longer name |
| PlaygroundStore.NameLessTransitive | KarelPlaygrounds/PlaygroundStore.swift:60 | the name order is transitive |
| PlaygroundStore.NameLessTotal | KarelPlaygrounds/PlaygroundStore.swift:60 | of two different names, one is less than the other |
| PlaygroundStore.NameLessAsymmetric | KarelPlaygrounds/PlaygroundStore.swift:60 | two names are never each less than the other |
| PlaygroundStore.NotLessTransitive | KarelPlaygrounds/PlaygroundStore.swift:60 | "not less than" is transitive, so a non-decreasing order is well defined |
| PlaygroundStore.Insert | KarelPlaygrounds/PlaygroundStore.swift:60 | inserting a playground adds exactly it to the listing's elements and length |
| PlaygroundStore.InsertSorted | KarelPlaygrounds/PlaygroundStore.swift:60 | insertion into a listing sorted by name keeps it sorted |
| PlaygroundStore.InsertDistinct | KarelPlaygrounds/PlaygroundStore.swift:60 | insertion of a playground not yet listed keeps every entry distinct |
| PlaygroundStore.ListsByNameInsert | KarelPlaygrounds/PlaygroundStore.swift:59-61 | inserting one more key into a sorted listing of the others gives a sorted listing of all of them, each once |
| PlaygroundStore.SortByName | KarelPlaygrounds/PlaygroundStore.swift:59-61 | every key appears exactly once (a permutation of the key set) and names are non-decreasing along the listing |
| PlaygroundStore.AsPropertyList | KarelPlaygrounds/PlaygroundStore.swift:67-73 | each playground's id text maps to its name, every key of the result is such a text, and the result has as many entries as the store |
| PlaygroundStore.IdFor | KarelPlaygrounds/PlaygroundStore.swift:79 | the playground a key denotes: for well-formed text, the UUID it parses to (the text itself when canonical), otherwise the fresh UUID supplied for that key, as `PlaygroundViewModel(id:)` substitutes `UUID()` for nil (PlaygroundViewModel.swift:29) |
| PlaygroundStore.TableOf | KarelPlaygrounds/PlaygroundStore.swift:77 | `plist as? [String: String] ?? [:]`: the stored dictionary when there is one, the empty table otherwise |
| PlaygroundStore.FromPropertyList | KarelPlaygrounds/PlaygroundStore.swift:75-81 | a missing property list gives an empty store. Otherwise every key's playground is present, every entry carries the name of a key that denotes it, and there are at most as many entries as keys. When no two keys denote one UUID, there is exactly one entry per key with that key's name |
| PlaygroundStore.EntriesFromKeysStep | KarelPlaygrounds/PlaygroundStore.swift:78-80 | after one more key is stored, every entry still carries the name of a processed key that denotes it |
| PlaygroundStore.ExactSoFarStep | KarelPlaygrounds/PlaygroundStore.swift:78-80 | when no two keys denote one UUID, storing one more key adds a new entry with that key's name and keeps the entries of the keys already processed |
| PlaygroundStore.LoadStep | KarelPlaygrounds/PlaygroundStore.swift:78-80 | one loop iteration (store the name of one more key under its UUID) extends what has been loaded, from those keys, by that key |
| PlaygroundStore.PropertyListRoundTrip | KarelPlaygrounds/PlaygroundStore.swift:67-81 | converting a store to a property list and back gives the same store |
| PlaygroundStore.PlaygroundStore.constructor | KarelPlaygrounds/PlaygroundStore.swift:20-23 | the store's name defaults to "Karel Playgrounds". Its entries are those that `init(fromPropertyList:)` makes from the saved property list. Every key's playground is present; every entry carries the name of a key that denotes it; there are at most as many entries as keys; with no two keys denoting one UUID, there is exactly one entry per key |
| PlaygroundStore.PlaygroundStore.Name | KarelPlaygrounds/PlaygroundStore.swift:30-36 | the stored name when the playground is a key, nil otherwise |
| PlaygroundStore.PlaygroundStore.UpdatePlayground | KarelPlaygrounds/PlaygroundStore.swift:39-41 | that playground maps to the given name and every other lookup is unchanged |
| PlaygroundStore.PlaygroundStore.AddPlayground | KarelPlaygrounds/PlaygroundStore.swift:44-46 | exactly one new key (the fresh id) is added, with the given name defaulting to "Untitled"; every other lookup is unchanged |
| PlaygroundStore.PlaygroundStore.RemovePlayground | KarelPlaygrounds/PlaygroundStore.swift:49-51 | exactly that key is deleted; its lookup gives nil and every other lookup is unchanged |
| PlaygroundStore.PlaygroundStore.SetName | KarelPlaygrounds/PlaygroundStore.swift:54-56 | that playground maps to the given name and every other lookup is unchanged |
| PlaygroundStore.PlaygroundStore.Playgrounds | KarelPlaygrounds/PlaygroundStore.swift:59-61 | the listing is a permutation of the stored playgrounds, each once, in non-decreasing order of name |

## Left out

- The SwiftUI view hierarchy, layout, geometry, colours, images, animation values (`degreesForAnimation`, `progress`), beeper colour cycling and alert presentation: display only. The alert flags are kept as booleans.
- The drag-to-trash gestures and the `CGPoint`/`CGSize` operators: floating-point screen geometry.
- The crash sound played by `moveKarel`: audio output.
- JSON encoding and decoding of the world model, and the UserDefaults persistence with its Combine autosave, in both the store and the playground view model: I/O. The store constructor takes the saved property list as a parameter.
- `PlaygroundViewModel` only forwards to the model (its `removeObstacle` is `removeObstacles`); the model's methods are used directly. Its default 5 × 5 empty world is `Playground`'s constructor with those arguments.
- UUID generation: random fresh values become id parameters. `newIds` supplies those made for property-list keys that do not parse.
- Integer width: `Int` is 64-bit in Swift and unbounded here. No count or coordinate in the app comes near the limit.
- KarelWorldView.WorldView.MoveKarel: `rotation` is an integer here, while the source has a `Double` that `Int(...)` truncates. Rotation only ever changes by ±90 or 180 from 0, so the two agree.
- PlaygroundModel.Playground.AddBeeper: consistency is stated as preserved (`old(Consistent()) ==> Consistent()`), not as a class invariant that always holds. The constructor establishes it and every modelled operation keeps it, so it holds in every state the modelled operations can reach. A world decoded from saved JSON, which is not part of this model, may hold any state. The same holds for the other mutating methods.
- PlaygroundModel.Playground.RemoveBeeper: does not promise non-negative counts, because the source's `removeBeeper` does not keep them (see "Behaviour as written"); the callers `PickBeeper` and `ChangeWorld` do.
- PlaygroundStore.FromPropertyList: when two keys denote the same UUID, it does not say whose name survives, because that depends on Swift's dictionary iteration order.
- PlaygroundStore.PlaygroundStore.Playgrounds: states the order only up to playgrounds with equal names, since Swift's `sorted` does not fix the relative order of equal elements. It is a ghost function, since the modelled listing picks keys from a set.
- PlaygroundStore.NameLess: Swift compares strings by Unicode canonical equivalence; here strings are compared character by character, with no normalisation.
- Karel's cell is checked to be in the grid only through `KarelInGrid`, as an invariant that the operations preserve: the source never checks it, and rendering force-unwraps both maps only for cells of the grid (`Covers`).
