# Paint cost calculator — a Dafny model

The paint cost calculator keeps two lists: the paints on offer and the rooms to paint.

- A paint has an id, a name, a code, and optionally a coverage (square metres per litre) and a price (per square metre).
- A room has an id, a name and its walls.
- A wall has an id, a name, optionally a length and a height in metres, and the id of the paint chosen for it (`""` while none is chosen).

Nine handlers edit the lists. Each one appends a record, rewrites the records with a given id, or filters them out. `calculateTotals` then walks over every wall of every room. For each paint it adds up the area painted, the cost and the litres needed, and it keeps a grand total of the cost.

This project models that core in Dafny:

- **`model.dfy`** (`PaintModel`) holds the records and the closed set of single-field edits the forms can make. It also has `AllWalls`, every wall in the order the totals visit them.
- **`keyed.dfy`** (`Keyed`) defines the two shapes every handler is built from. One filters out a given id; the other rewrites the records with a given id. The lemmas here cover membership, order, uniqueness of ids and round trips.
- **`handlers.dfy`** (`Handlers`) has the nine handlers, as functions from the old list to the new one, with their properties.
- **`totals.dfy`** (`TotalsEngine`) covers `calculateTotals`:
  - a recursive specification, `ComputeTotals`, which folds `Step` over `AllWalls`;
  - the imperative method `CalculateTotals`, whose nested loops call `VisitWall` on each wall, proved equal to that specification;
  - what the totals mean: one bucket per paint that some counted wall uses, the grand total as the sum of the bucket costs and of the wall costs, and independence from the order of rooms and walls.
- **`written.dfy`** (`WrittenTotals`) models the same loop body as the source writes it, over JavaScript numbers (finite, NaN, ±Infinity), rounding and negative zero aside. It is used for the finding below.

The records are the datatypes `Paint`, `Wall` and `Room` of `PaintModel` (src/components/PaintCalculator.tsx:13-33). Numbers are exact `real`s. An optional field is an `Option<real>`. The random UUID of a new record is an argument `freshId`, and each adding handler requires that no record of its kind already uses it. For a new wall, no wall of any room may use it.

A wall counts towards the totals only when all of these hold:
- its paint id resolves;
- its length and height are set;
- the paint's coverage and price are set;
- the coverage is not zero.

It then adds:
- area = length × height;
- cost = area × price;
- litres = area / coverage.

Any other wall changes no total and creates no bucket.

## Model

| member | source | states |
|---|---|---|
| PaintModel.SetPaintField | src/components/PaintCalculator.tsx:68 | the edited paint keeps its id; the named field takes the new value; every other field is kept |
| PaintModel.SetRoomField | src/components/PaintCalculator.tsx:86 | renaming a room keeps its id and its walls |
| PaintModel.SetWallField | src/components/PaintCalculator.tsx:121 | the edited wall keeps its id; the named field takes the new value; every other field is kept |
| PaintModel.AllWalls | src/components/PaintCalculator.tsx:148-149 | every wall of every room appears among the walls visited |
| PaintModel.AllWallsOne | src/components/PaintCalculator.tsx:149 | one room visits exactly its own walls, in their order; with `AllWallsAppend` this fixes the visiting order: rooms in order, each room's walls in order |
| PaintModel.AllWallsFromRooms | src/components/PaintCalculator.tsx:148-149 | every wall visited belongs to one of the rooms |
| PaintModel.AllWallsAppend | src/components/PaintCalculator.tsx:148-149 | the walls of two lists of rooms, in visiting order, are the walls of the first list followed by those of the second |
| Keyed.RemoveKey | src/components/PaintCalculator.tsx:71-73 | the filter leaves no record with the id; it shrinks the list exactly when the id was present; it returns the list unchanged when the id was absent |
| Keyed.RemoveKeyMember | src/components/PaintCalculator.tsx:71-73 | a record survives the filter exactly when it was in the list and its id differs |
| Keyed.RemoveKeyAppend | src/components/PaintCalculator.tsx:71-73 | filtering a concatenation filters each part; the survivors keep their order |
| Keyed.RemoveKeyAt | src/components/PaintCalculator.tsx:71-73 | with unique ids, filtering out the id of the record at k removes exactly that record |
| Keyed.RemoveKeyAppended | src/components/PaintCalculator.tsx:58-73 | appending a record with a new id and then filtering that id gives back the list |
| Keyed.AppendFreshUnique | src/components/PaintCalculator.tsx:58-65 | appending a record with a new id keeps the ids unique |
| Keyed.RemoveKeyUnique | src/components/PaintCalculator.tsx:71-73 | filtering keeps the ids unique |
| Keyed.UpdateKey | src/components/PaintCalculator.tsx:67-69 | the rewrite keeps the length; it rewrites exactly the records with the id, each in its place; it is the identity when the id is absent |
| Keyed.UpdateKeyKeepsKeys | src/components/PaintCalculator.tsx:67-69 | a rewrite that keeps ids keeps every id in place, and so keeps them unique |
| Handlers.AddPaint | src/components/PaintCalculator.tsx:58-65 | one paint is appended with the fresh id, empty name and code, and no coverage or price; the existing paints are unchanged; unique ids stay unique |
| Handlers.UpdatePaint | src/components/PaintCalculator.tsx:67-69 | length and every id are kept; paints with another id are unchanged; paints with the id get the edited field; an absent id changes nothing; unique ids stay unique |
| Handlers.DeletePaint | src/components/PaintCalculator.tsx:71-73 | no paint with the id remains; the list shrinks exactly when the id was present; an absent id changes nothing; unique ids stay unique |
| Handlers.DeletePaintKeeps | src/components/PaintCalculator.tsx:71-73 | a paint is kept exactly when it was present and has another id |
| Handlers.DeletePaintKeepsOrder | src/components/PaintCalculator.tsx:71-73 | the kept paints keep their relative order |
| Handlers.DeletePaintAt | src/components/PaintCalculator.tsx:71-73 | with unique ids, deleting the id of the paint at k removes exactly that paint |
| Handlers.AddThenDeletePaint | src/components/PaintCalculator.tsx:58-73 | deleting a paint just added gives back the original paints |
| Handlers.AddRoom | src/components/PaintCalculator.tsx:76-83 | one room named "New Room" with no walls and the fresh id is appended; the existing rooms and the set of walls are unchanged |
| Handlers.UpdateRoom | src/components/PaintCalculator.tsx:85-87 | length, ids and walls are kept; rooms with the id are renamed; others are unchanged; an absent id changes nothing |
| Handlers.DeleteRoom | src/components/PaintCalculator.tsx:89-91 | no room with the id remains; the list shrinks exactly when the id was present; an absent id changes nothing |
| Handlers.DeleteRoomKeeps | src/components/PaintCalculator.tsx:89-91 | a room is kept exactly when it was present and has another id |
| Handlers.DeleteRoomDropsItsWalls | src/components/PaintCalculator.tsx:89-91 | with unique room ids, deleting the room at k leaves the walls of the rooms before and after it, in order; the wall count falls by that room's wall count |
| Handlers.AddThenDeleteRoom | src/components/PaintCalculator.tsx:76-91 | deleting a room just added gives back the original rooms |
| Handlers.AddRoomKeepsValid | src/components/PaintCalculator.tsx:76-83 | adding a room keeps room ids unique, and wall ids unique within each room |
| Handlers.UpdateRoomKeepsValid | src/components/PaintCalculator.tsx:85-87 | renaming keeps room ids unique, and wall ids unique within each room |
| Handlers.DeleteRoomKeepsValid | src/components/PaintCalculator.tsx:89-91 | deleting a room keeps room ids unique, and wall ids unique within each room |
| Handlers.NewWall | src/components/PaintCalculator.tsx:102-106 | the new wall has the fresh id, the name "New Wall", no paint, and no length or height |
| Handlers.AddWall | src/components/PaintCalculator.tsx:94-113 | rooms with the room id keep their id and name and get the new wall at the end of their walls; every other room is unchanged; an absent room id changes nothing |
| Handlers.UpdateWall | src/components/PaintCalculator.tsx:115-127 | only rooms with the room id change, keeping id, name and wall count; within them, walls with the wall id get the edited field; other walls and all ids are unchanged; an absent room or wall id changes nothing |
| Handlers.DeleteWall | src/components/PaintCalculator.tsx:129-141 | only rooms with the room id change, keeping id and name; their walls are filtered by the wall id, so none with it remains; an absent room or wall id changes nothing |
| Handlers.AddThenDeleteWall | src/components/PaintCalculator.tsx:94-141 | with unique room ids, deleting a wall just added to a room gives back the original rooms |
| Handlers.AddWallKeepsValid | src/components/PaintCalculator.tsx:94-113 | adding a wall keeps room ids unique, and wall ids unique within each room |
| Handlers.UpdateWallKeepsValid | src/components/PaintCalculator.tsx:115-127 | editing a wall keeps room ids unique, and wall ids unique within each room |
| Handlers.DeleteWallKeepsValid | src/components/PaintCalculator.tsx:129-141 | deleting a wall keeps room ids unique, and wall ids unique within each room |
| TotalsEngine.FindPaint | src/components/PaintCalculator.tsx:150 | a paint is found exactly when some paint has the id; the paint found is in the list and has that id |
| TotalsEngine.FindPaintFirst | src/components/PaintCalculator.tsx:150 | the paint found is the first one with that id |
| TotalsEngine.Contribution | src/components/PaintCalculator.tsx:150-157 | a wall whose paint id matches no paint, or that has no length or no height, adds nothing; a wall that counts adds area = length × height |
| TotalsEngine.ContributionOfPaint | src/components/PaintCalculator.tsx:151-157 | with unique paint ids, a wall counts exactly when its length and height and its paint's coverage and price are set and the coverage is not zero; it then adds area = length × height, cost = area × price, litres = area / coverage |
| TotalsEngine.ContributionFound | src/components/PaintCalculator.tsx:150-157 | for the paint found for a wall: the paint has the wall's paint id; the wall counts exactly when the guard holds; it adds the bucket (area, area × price, area / coverage) |
| TotalsEngine.AddTo | src/components/PaintCalculator.tsx:152-160 | adding into a paint's bucket creates that key if it is new, leaves every other bucket unchanged, and makes the paint's bucket its old value (zero if new) plus the wall's area, cost and litres |
| TotalsEngine.Step | src/components/PaintCalculator.tsx:149-161 | one wall raises the grand total by that wall's own cost (zero if it does not count); a wall that does not count changes nothing |
| TotalsEngine.Accumulate | src/components/PaintCalculator.tsx:148-162 | taking walls in order never drops a bucket, and raises the grand total by the sum of the walls' own costs |
| TotalsEngine.TotalsOf | src/components/PaintCalculator.tsx:145-162 | starting from no buckets and zero, the grand total of a sequence of walls is the sum of their own costs |
| TotalsEngine.ComputeTotals | src/components/PaintCalculator.tsx:144-167 | the grand total for the rooms is the sum of the own costs of all their walls, in visiting order |
| TotalsEngine.CalculateTotals | src/components/PaintCalculator.tsx:144-167 | the nested loops return exactly the specified totals for the paints and rooms, and the grand total is the sum of the bucket costs |
| TotalsEngine.VisitWall | src/components/PaintCalculator.tsx:149-162 | one pass of the inner loop body moves the buckets and the grand total by exactly one step of the specification |
| TotalsEngine.SumCostAddTo | src/components/PaintCalculator.tsx:158-160 | adding a wall's bucket raises the sum of the bucket costs by that wall's cost |
| TotalsEngine.GrandTotalIsSumOfBuckets | src/components/PaintCalculator.tsx:146-161 | the grand total equals the sum of the costs in the buckets |
| TotalsEngine.ContributesSnoc | src/components/PaintCalculator.tsx:149-152 | one more wall makes a paint used by a counted wall exactly when it already was, or the new wall counts with that paint |
| TotalsEngine.PerPaintBucket | src/components/PaintCalculator.tsx:150-159 | a paint has a bucket exactly when some counted wall uses it; the bucket holds the sum of those walls' area, cost and litres |
| TotalsEngine.StepsCommute | src/components/PaintCalculator.tsx:149-161 | two walls give the same totals whichever is visited first |
| TotalsEngine.AddToCommute | src/components/PaintCalculator.tsx:152-159 | adding two buckets into the map in either order gives the same map |
| TotalsEngine.MoveToEnd | src/components/PaintCalculator.tsx:148-149 | moving one wall to the end of the visiting order changes no total |
| TotalsEngine.TotalsIgnoreOrder | src/components/PaintCalculator.tsx:148-149 | two orderings of the same walls give the same totals |
| TotalsEngine.AllWallsMultiset | src/components/PaintCalculator.tsx:148-149 | two orderings of the same rooms hold the same walls |
| TotalsEngine.RoomOrderIrrelevant | src/components/PaintCalculator.tsx:148 | reordering the rooms does not change the totals |
| TotalsEngine.WallOrderIrrelevant | src/components/PaintCalculator.tsx:149 | reordering the walls of one room does not change the totals |
| TotalsEngine.SkippedWall | src/components/PaintCalculator.tsx:151-157 | a wall that does not count changes no total, wherever it stands |
| TotalsEngine.UnresolvedWallSkipped | src/components/PaintCalculator.tsx:150-151 | a wall whose paint id matches no paint, including the empty id of a new wall, changes no total, and no bucket exists for that id |
| TotalsEngine.IncompleteWallSkipped | src/components/PaintCalculator.tsx:151-157 | a wall with no length or no height changes no total and adds no bucket, even when its paint is found |
| TotalsEngine.AddWallKeepsTotals | src/components/PaintCalculator.tsx:94-113 | adding a wall to any room leaves the totals unchanged, because a new wall has no size |
| TotalsEngine.WorkedExample | src/components/PaintCalculator.tsx:148-166 | coverage 10 and price 5, with walls 2 × 3 and 4 × 2, give area 14, cost 70, 1.4 litres and grand total 70 |
| TotalsEngine.MissingCoverageExample | src/components/PaintCalculator.tsx:151-157 | a wall whose paint has a price but no coverage leaves the totals empty |
| WrittenTotals.Read | src/components/PaintCalculator.tsx:155-157 | an unset field read as a number is NaN, and a set field is its value |
| WrittenTotals.JsAdd | src/components/PaintCalculator.tsx:158-161 | JavaScript addition: NaN in, NaN out; exact on finite numbers |
| WrittenTotals.JsMul | src/components/PaintCalculator.tsx:155-156 | JavaScript multiplication: NaN in, NaN out; exact on finite numbers |
| WrittenTotals.JsDiv | src/components/PaintCalculator.tsx:157 | JavaScript division: NaN in, NaN out; exact by a non-zero finite divisor; a finite number divided by zero is NaN exactly when it is zero |
| WrittenTotals.WrittenVisit | src/components/PaintCalculator.tsx:149-161 | as written: an unresolved paint id changes nothing; a resolved one always gets a bucket; a wall whose paint is found but whose length or height is unset makes the grand total NaN |
| WrittenTotals.WrittenAccumulate | src/components/PaintCalculator.tsx:148-162 | as written, taking walls in order never drops a bucket |
| WrittenTotals.FoundPaintHasBucket | src/components/PaintCalculator.tsx:150-154 | as written, every wall whose paint is found leaves a bucket for that paint, whether the wall has a size or not |
| WrittenTotals.NaNSticks | src/components/PaintCalculator.tsx:161 | once the grand total is NaN in a pass over the walls, it stays NaN for every later wall of that pass |
| WrittenTotals.EmbedAddTo | src/components/PaintCalculator.tsx:152-160 | adding a bucket and then reading the buckets as JavaScript numbers is the same as writing the embedded sum at that key |
| WrittenTotals.CountedWallAgrees | src/components/PaintCalculator.tsx:149-161 | on a wall that counts, the loop body as written and the model's step give the same buckets and grand total, so the two differ only on walls the model leaves out |
| WrittenTotals.PaintBeforeSize | src/components/PaintCalculator.tsx:150-161 | as written, a new wall whose paint is chosen before its size is entered gives the paint a bucket and makes the grand total NaN for the rest of that pass; the model's step leaves the totals as they were |

## Left out

- Loading and saving the lists in `localStorage` as JSON (src/components/PaintCalculator.tsx:38-55) is browser I/O. The lists are plain arguments here.
- `crypto.randomUUID()` (lines 60, 78, 103) is a call into the browser. The model takes the new id as the argument `freshId` and requires that it is not in use.
- Handlers.AddWall: one `freshId` stands for the UUIDs that lines 96-106 draw, one per room whose id matches. They differ only when room ids repeat: the model then gives every matching room a wall with the same id. For that reason `Handlers.AddThenDeleteWall` is stated for unique room ids.
- The `parseFloat` parsing of form input (lines 236, 246, 374, 382) is left out, and the edits take an `Option<real>`:
  - wall length and height turn text that is not a number into 0 (`|| 0`), which the model receives as `Some(0.0)`;
  - paint coverage and price pass NaN on, which the model receives as `None`. A NaN coverage or price and an unset one both leave the wall out of the totals.
- TotalsEngine.Contribution: a wall counts only when its paint is found, its length, height, coverage and price are all set, and the coverage is not zero. The code at src/components/PaintCalculator.tsx:151-157 reads the four fields with `!` whatever they hold. An unset field gives NaN, and a zero coverage gives Infinity, or NaN when the area is zero; a `real` can hold neither. The model deliberately takes the guarded behaviour; the code as written is `WrittenTotals.WrittenVisit` (see Findings).
- TotalsEngine.Step: the bucket of a paint appears only when a wall using it counts. The code at lines 152-154 creates it as soon as the paint is found; `WrittenTotals.WrittenVisit` keeps that behaviour.
- The totals are recomputed on every render (line 169). The model computes them once for given lists; the NaN of the finding lasts as long as the offending wall stays as it is.
- Floating-point rounding: the totals are exact sums of reals. The order independence proved here (`TotalsIgnoreOrder`) holds for exact arithmetic; with IEEE doubles the last digits can depend on the order.
- The dynamic `keyof` field argument of the update handlers would also let a caller overwrite `id` or a room's `walls`. The model offers the fields the forms actually edit: paint name, code, coverage and price; room name; wall name, length, height and paint id.
- The rendering (tabs, selects, inputs, cards), the `toFixed` formatting and the lookup of each bucket's paint for display (lines 304-306) are presentation.
- src/App.tsx only mounts the component and is not part of this model.
- WrittenTotals: JavaScript numbers are modelled with exact finite values, NaN and signed infinities. Rounding and negative zero are not modelled.

## Findings

| source | as written | input that shows it | evidently intended | confidence | as-written member | corrected member |
|---|---|---|---|---|---|---|
| src/components/PaintCalculator.tsx:151-161 | once a wall's paint is found, the paint's bucket is created and the wall's length and height are multiplied with `!`, set or not | a paint "p1" with coverage 10 and price 5, and a new wall (no length or height) whose paint is set to "p1" before its size is typed | a wall without a size adds nothing and creates no bucket, and the grand total stays a number (as written it is NaN for every render while such a wall has a found paint and no size) | high (not executed) | WrittenTotals.PaintBeforeSize | TotalsEngine.IncompleteWallSkipped |
