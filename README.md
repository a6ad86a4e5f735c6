# toggle-astar in Dafny

A model of the solver core of toggle-astar. toggle-astar solves a puzzle of toggle buttons on a grid.
Each button has a rule: arrows, crosses, a rotation of the eight neighbours, a row shift, a mirror, or a 3×3 toggle.
Clicking a button changes the on/off lights of the grid as its rule says.
The solver searches, best-first, for a list of clicks that switches every light off.

The project has seven modules, one file each:

- `BitArrays` (bitarray.dfy) is the packed bit array of `src/toggle/utils.rs`.
  - `Bits` is its value: the bytes and the logical length.
  - `Pack` is the canonical packing of a boolean sequence.
  - `Key` is the byte buffer, which stands for the base64 key.
  - The class `BitArray` carries `new`, `from`, `len`, `get`, `set` and `resize`.
- `Buttons` (buttons.dfy) holds the value types of `src/toggle/core.rs` and the subtype table.
  - A level byte is the newtype `byte`.
- `Rules` (rules.dfy) states what a click does, as a function from the lights before it to the lights after it.
  - The lights are a `seq<bool>` in the grid's row-major order: `(x, y)` sits at `y * width + x`.
  - It also states the two projections to and from bit arrays. `get_states` stores `(x, y)` at bit `x * height + y`.
- `RuleProperties` (rule_properties.dfy) proves properties of the rules:
  - which clicks undo themselves;
  - how many cells a cross toggles;
  - which cells each rule may change;
  - the round trips of rotation and symmetry.
- `Grids` (grid.dfy) is the mutable `Grid` class.
  - Its fields are `buttons: seq<Button>`, `width` and `height`.
  - Every method is proved to leave exactly the lights that the matching rule of `Rules` gives.
  - The fixed-size local buffers of `solve_rotate` and `solve_shift` are arrays.
- `Astar` (astar.dfy) covers `calculate_diff`, `calculate_cost`, `is_arrow` and `run_astar`.
  - The search runs on one `Grid` object, exactly as the source does: restore a snapshot, click, read back.
  - The priority queue is a sequence of entries; popping takes an entry of highest priority.
  - The visited map is a set of keys.
- `Reader` (reader.dfy) is `parse_toggle`, a cursor loop over a byte stream.
  - Its specification is the function `Parse`.
  - Every panic of the source is an explicit `Panicked` outcome.

## The main results

- **Grid rules.** Every click method of `Grid` computes its rule exactly (`Grids.Grid.Click` and the `Solve*` methods).
  - The projection to bits and back loses nothing.
- **Search soundness.** `Astar.RunAstar` returns `Success(orders)` only for a sound solution (`Astar.SoundSolution`). Such a solution:
  - clicks only buttons that exist and are not `Nothing`;
  - switches every light of the level off when replayed from the level's lights;
  - never comes back, after its first click, to a snapshot it passed through.
- **Search termination.** The main loop terminates without fuel or an iteration bound.
  - Every pass either adds a fresh key, drawn from the finite set `Astar.Universe` of snapshot keys, or shrinks the queue.
- **When the search fails and when it finishes at once.** A level with no button to click ends in `Fail`. A level that one click solves ends in `Success` with that one click, because its first-click entry has the highest priority any entry can have (`Astar.OneClickPriority`, `Astar.TopIsOneClick`).
- **Parser round trip.** `Reader.EncodeParseRoundTrip` proves that parsing a level written with one record of each kind gives that level back. `Astar.ParsedLevelSearchable` proves that such a level meets everything `run_astar` needs of it.
- **Queue items never repeat.** The queue is a sequence that every push appends to. The crate's `PriorityQueue::push` of an item already present would only update its priority, but pushed items never repeat: first-sweep items have distinct single clicks, and each later item carries a snapshot not yet visited. This argument is not proved (see "## Left out").

## Quirks kept as written

- The source never assigns `SolverItem.coord`, so every item carries `(0, 0)`.
  - The pruning test therefore compares every cell with `(0, 0)`.
  - So whenever the button at `(0, 0)` is an arrow, it is skipped in every expansion. Nothing else is ever pruned.
  - `Astar.CornerRule` states this, and every queued item and every solution satisfies it.
- When the row has at least two cells, a left shift never assigns the first cell of its buffer, so cell 0 of the row becomes `false` (`Rules.ShiftedRow`); a one-cell row keeps its cell. A right shift followed by a left shift is therefore not the identity (`RuleProperties.ShiftLeftNotInverse`).
- A rotation reads a neighbour outside the grid as `false` and writes only to neighbours inside it. At a corner a rotation can therefore lose a light (`RuleProperties.RotateCornerNoRoundTrip`).
- The first sweep of `run_astar` queues every first click without looking at the visited set. Only paths of two or more clicks are free of repeated snapshots (`Astar.NoRepeat`).

## Model

| member | source | states |
|---|---|---|
| BitArrays.BitArray.constructor | src/toggle/utils.rs:8-20 | `new(x)` has length `x` and `ceil(x / 8)` bytes, all zero, so every bit that can be read is clear |
| BitArrays.BitArray.From | src/toggle/utils.rs:26-28 | `from(r)` holds exactly the bytes `r`, with a length of eight bits per byte |
| BitArrays.BitArray.Len | src/toggle/utils.rs:22-24 | `len()` is the length `new`, `from` or `resize` last set, not the byte count |
| BitArrays.BitArray.Get | src/toggle/utils.rs:42-47 | `get(pos)` is binary digit `pos % 8` of byte `pos / 8`, least significant first; it requires that byte to exist and never checks `pos` against `len` |
| BitArrays.BitOfByteIsDigit | src/toggle/utils.rs:46 | the mask `1 << k` tests binary digit `k` of a byte |
| BitArrays.BitArray.Set | src/toggle/utils.rs:49-58 | after `set(pos, b)`, bit `pos` reads `b`; every other bit, the byte count and the length are unchanged |
| BitArrays.UpdateBit | src/toggle/utils.rs:53-57 | or-ing in the mask sets bit `k` and and-ing with its complement clears it; no other bit of the byte changes |
| BitArrays.WriteBit | src/toggle/utils.rs:49-58 | writing one bit into a buffer changes that bit to the value written and no other bit of any byte |
| BitArrays.BitArray.Resize | src/toggle/utils.rs:30-40 | `resize(n)` sets the length to `n` and leaves the bytes as they were |
| BitArrays.ResizeGuardNeverHolds | src/toggle/utils.rs:31-33 | `ceil(n / 8) <= n` for every `n`, so the zero-padding loop of `resize` never runs |
| BitArrays.PackBitAt | src/toggle/utils.rs:42-47 | reading bit `pos` of the packed form gives element `pos` of the sequence, and every padding bit reads as clear |
| BitArrays.UnpackPack | src/toggle/utils.rs:42-47 | reading back the first `n` bits of a packed sequence of length `n` gives the sequence |
| BitArrays.PackCanonical | src/toggle/utils.rs:8-20 | a buffer of `ceil(len / 8)` bytes whose padding bits are clear is the packed form of its first `len` bits |
| BitArrays.PackedAs | src/toggle/utils.rs:42-58 | a bit array of the right size that reads as `bits` everywhere, with clear padding, equals `Pack(bits)` |
| BitArrays.KeyDeterminedByBits | src/toggle/utils.rs:79-81 | two buffers of the same size that agree on every bit have the same key |
| BitArrays.KeySeparatesBits | src/toggle/utils.rs:79-81 | two buffers that differ in a readable bit have different keys |
| Buttons.ConvertSubtypeToFunc | src/toggle/core.rs:87-130 | the table gives `Nothing` exactly for the bytes outside 1 to 20 |
| Buttons.SubtypeTableBijective | src/toggle/core.rs:87-130 | the table is a bijection between the bytes 1 to 20 and the rules other than `Nothing` |
| Rules.CellIndex | src/toggle/core.rs:178-181 | every in-range cell has a position `y * width + x` inside the button vector, from which column and row recover the cell |
| Rules.DirectionIndex | src/toggle/core.rs:364-373 | finds the place of an offset among the eight neighbour offsets, or reports that it is not a neighbour |
| Rules.RayStep | src/toggle/core.rs:328-339 | a ray is its start cell followed by the ray that starts one step further |
| Rules.SetStatesOfSnapshot | src/toggle/core.rs:208-232 | `set_states(get_states())` leaves every light as it was |
| Rules.SnapshotOfSetStates | src/toggle/core.rs:208-232 | after `set_states(b)`, the bits `get_states` stores agree with `b` on every index below `width * height` |
| Rules.SnapshotStable | src/toggle/core.rs:208-232 | taking the snapshot of the lights that a snapshot sets gives the same snapshot |
| Rules.SnapshotBitsInjective | src/toggle/core.rs:208-221 | two grids have the same snapshot bits exactly when they have the same lights |
| RuleProperties.ArrowClickSelfInverse | src/toggle/core.rs:270-361 | clicking a one-, two- or four-way arrow or an AroundEight button twice restores the lights |
| RuleProperties.NothingClickIsNoOp | src/toggle/core.rs:244-245 | clicking a `Nothing` button changes no light |
| RuleProperties.OneArrowRayFromClicked | src/toggle/core.rs:270-298 | a single arrow's ray includes the clicked cell and every cell beyond it in its direction, but not the cell behind it |
| RuleProperties.TwoArrowPartsDisjoint | src/toggle/core.rs:321-325 | the centre, the forward ray and the backward ray of a double arrow are pairwise disjoint, so each cell is toggled once |
| RuleProperties.FlipChangesHits | src/toggle/core.rs:270-361 | the number of lights a fixed-set click changes is the number of in-range cells the rule hits |
| RuleProperties.FourArrowTogglesCross | src/toggle/core.rs:341-361 | a four-way arrow changes exactly `width + height - 1` lights |
| RuleProperties.RotateStaysInBlock | src/toggle/core.rs:363-414 | a rotation changes no light outside the 3 by 3 block around the click |
| RuleProperties.RotatedNeighbours | src/toggle/core.rs:391-413 | around an interior cell, the neighbour states after a rotation are the old ones shifted one place |
| RuleProperties.RotateRoundTrip | src/toggle/core.rs:363-414 | at an interior cell, a clockwise rotation followed by a counter-clockwise one restores the lights |
| RuleProperties.RotateCornerClearsEast | src/toggle/core.rs:381-413 | a counter-clockwise rotation at `(0, 0)` writes the out-of-range neighbour's `false` into `(1, 0)` |
| RuleProperties.RotateCornerNoRoundTrip | src/toggle/core.rs:363-414 | at the corner the round trip fails whenever `(1, 0)` is lit, so the interior condition is needed |
| RuleProperties.ShiftRightRotatesRow | src/toggle/core.rs:425-429 | a right shift is a cyclic rotation of the row, so it keeps the row's multiset of lights |
| RuleProperties.ShiftLeftDropsSecond | src/toggle/core.rs:430-434 | on a row of at least two cells, a left shift gives `false`, then cells 2 to `w - 1`, then cell 0: cell 1 is lost |
| RuleProperties.ShiftLeftNotInverse | src/toggle/core.rs:416-441 | a right shift followed by a left shift does not restore the row `[true, false]` |
| RuleProperties.ShiftOnlyRow | src/toggle/core.rs:437-440 | a shift changes only row `y`, which becomes its shifted form |
| RuleProperties.HorizontalSwapAt | src/toggle/core.rs:447-468 | with both neighbouring columns present, horizontal symmetry swaps them in every row and toggles the centre |
| RuleProperties.VerticalSwapAt | src/toggle/core.rs:469-490 | with both neighbouring rows present, vertical symmetry swaps them in every column and toggles the centre |
| RuleProperties.HorizontalTwiceAt | src/toggle/core.rs:447-468 | two horizontal symmetries at a button with both neighbouring columns restore each cell |
| RuleProperties.VerticalTwiceAt | src/toggle/core.rs:469-490 | two vertical symmetries at a button with both neighbouring rows restore each cell |
| RuleProperties.SymmetryTwiceRestores | src/toggle/core.rs:443-491 | when both neighbouring columns (rows) exist, clicking a symmetry button twice restores the lights |
| RuleProperties.SymmetryStaysNear | src/toggle/core.rs:443-491 | symmetry changes no cell other than the clicked one and the two neighbouring columns (rows) |
| Grids.Grid.New | src/toggle/core.rs:133-148 | `Grid::new(w, h)` has `w * h` buttons; the one at `y * w + x` has coordinate `(x, y)`, is off and has rule `Nothing` |
| Grids.Grid.At | src/toggle/core.rs:178-181 | `at(x, y)` finds a button exactly when `y * width + x` indexes the button list, and only ever a button of the grid |
| Grids.Grid.AtCell | src/toggle/core.rs:178-186 | at an in-range cell, `at` finds the button of that very cell, with that cell's light and rule |
| Grids.Grid.CheckRange | src/toggle/core.rs:192-194 | a cell is in range exactly when `at` finds the button of that cell |
| Grids.Grid.Toggle | src/toggle/core.rs:72-74 | toggling the button of a cell flips that cell's light and nothing else |
| Grids.Grid.GetStates | src/toggle/core.rs:208-221 | returns a fresh bit array whose bit `x * height + y` is the light of `(x, y)`, packed with clear padding, of length `width * height` |
| Grids.Grid.SetStates | src/toggle/core.rs:223-232 | the light of `(x, y)` becomes bit `x * height + y` of `b`; rules, coordinates and size are unchanged |
| Grids.Grid.SetAllState | src/toggle/core.rs:234-238 | every light becomes `state`; nothing else changes |
| Grids.FromLevel | src/toggle/core.rs:150-168 | the grid of a level: the light of `(x, y)` is state bit `x * height + y` and the rule is the table entry of subtype `y * width + x` |
| Grids.Grid.Click | src/toggle/core.rs:241-268 | a click leaves the lights its rule gives and never changes rules, coordinates, size or button count |
| Grids.Grid.SolveOneArrow | src/toggle/core.rs:270-298 | toggles exactly the clicked cell and the cells after it in the arrow's direction, up to the edge |
| Grids.Grid.SolveTwoArrow | src/toggle/core.rs:300-326 | toggles exactly the clicked cell and the two rays that start one step away on either side |
| Grids.TwoArrowParts | src/toggle/core.rs:321-325 | the centre toggle followed by the two walks is the double arrow's fixed-set rule |
| Grids.Grid.ToggleFollowDirection | src/toggle/core.rs:328-339 | toggles exactly the in-range cells of the ray from the start cell, and stops |
| Grids.RayLeaves | src/toggle/core.rs:332-338 | once the walk has left the grid along its direction, no later cell of the ray is in range |
| Grids.Grid.SolveFourArrow | src/toggle/core.rs:341-361 | toggles exactly the clicked cell's row and column, the clicked cell once |
| Grids.Grid.SolveRotate | src/toggle/core.rs:363-414 | toggles the centre and writes the neighbour states, read with out-of-range as `false` and rotated one place, back to the neighbours in range |
| Grids.Grid.ReadNeighbours | src/toggle/core.rs:381-389 | the buffer receives the eight neighbour states in the order N, NE, E, SE, S, SW, W, NW, out-of-range ones `false` |
| Grids.RotateBuffer | src/toggle/core.rs:391-403 | the new buffer is the old one rotated one place (clockwise: `new[i] = old[i - 1]`), and the old buffer is untouched |
| Grids.Grid.WriteNeighbours | src/toggle/core.rs:405-413 | each in-range neighbour receives its place of the buffer; the out-of-range places are dropped |
| Grids.Grid.SolveShift | src/toggle/core.rs:416-441 | replaces row `y` by its shifted form and changes no other light; the clicked cell is not toggled |
| Grids.Grid.ReadRow | src/toggle/core.rs:420-423 | the first `width` places of the buffer receive row `y` from left to right |
| Grids.ShiftBuffer | src/toggle/core.rs:425-435 | the first `width` places of the new buffer are the shifted row; when the row has at least two cells, cell 0 of a left shift stays `false` |
| Grids.Grid.SolveSymmetry | src/toggle/core.rs:443-491 | toggles the centre, then swaps the two neighbouring columns (rows) in every row (column), or clears the one that exists |
| Grids.Grid.MirrorColumns | src/toggle/core.rs:447-468 | the horizontal branch gives the horizontal symmetry rule |
| Grids.Grid.MirrorRows | src/toggle/core.rs:469-490 | the vertical branch gives the vertical symmetry rule |
| Grids.Grid.SwapOrClear | src/toggle/core.rs:455-467 | two existing cells exchange their lights; when only one exists it is cleared; no other light changes |
| Grids.Grid.SolveAroundEight | src/toggle/core.rs:493-517 | toggles exactly the clicked cell and its in-range neighbours |
| Astar.CalculateDiff | src/toggle/astar.rs:30-41 | the number of bit positions below the length where the two arrays differ; it lies between 0 and the length and is 0 exactly when they agree on every position |
| Astar.CountDiffZero | src/toggle/astar.rs:30-41 | the count of differing positions below `n` is 0 exactly when the two prefixes of length `n` are equal |
| Astar.CalculateCost | src/toggle/astar.rs:43-48 | the cost is never below twice the click count, and equals it exactly when the snapshot matches the target |
| Astar.IsArrow | src/toggle/astar.rs:50-57 | every arrow toggles a fixed set of cells, and the only fixed-set rule that is not an arrow is AroundEight |
| Astar.FlipTwiceRestores | src/toggle/astar.rs:143-153 | restoring a snapshot and clicking an arrow twice brings the same snapshot back |
| Astar.NoFlipTwice | src/toggle/astar.rs:158-169 | along a path the search builds, no fixed-set button is clicked twice in a row, the first two clicks included |
| Astar.ReplayIsPlay | src/toggle/astar.rs:155-163 | replaying clicks on snapshots equals playing them on the lights and taking one snapshot at the end |
| Astar.SnapshotInUniverse | src/toggle/astar.rs:158-169 | every key the search can store lies in one finite set of keys of `width * height`-bit arrays |
| Astar.ReachedFirst | src/toggle/astar.rs:87-97 | an item of the first sweep is a reached item: its state is its one click replayed from the start |
| Astar.PrefixesExtend | src/toggle/astar.rs:158-169 | after a push, the snapshot of every prefix of the new item's clicks has been visited |
| Astar.NoRepeatExtends | src/toggle/astar.rs:158-169 | pushing only an unvisited snapshot keeps every path free of repeated snapshots after the first click |
| Astar.ReachedExtends | src/toggle/astar.rs:155-169 | a child pushed during expansion is a reached item whose state is its clicks replayed from the start |
| Astar.DiffZeroSolves | src/toggle/astar.rs:120-128 | a reached item's diff against the target is 0 exactly when its clicks switch every light of the level off |
| Astar.DiffZeroMeansDark | src/toggle/astar.rs:65-67 | a snapshot differs from the all-off target in no bit exactly when every light is off |
| Astar.PopBest | src/toggle/astar.rs:106 | pop returns an entry of highest priority, that is of lowest cost; among several it takes the first |
| Astar.ClickFrom | src/toggle/astar.rs:155-163 | set_states, click and get_states give the snapshot one click away from the restored one |
| Astar.SeedCell | src/toggle/astar.rs:74-98 | one cell of the first sweep: a button that is not `Nothing` has exactly its first-click entry (snapshot after one click, cost as priority) appended to the queue and its snapshot added to the visited set; any other cell changes neither |
| Astar.SeedQueue | src/toggle/astar.rs:73-99 | after the first sweep, every clickable button's first-click entry is in the queue and its snapshot visited, and the queue holds nothing but such entries |
| Astar.SeededAppend | src/toggle/astar.rs:94 | pushing onto the queue keeps every first-click entry it already held |
| Astar.SeedStep | src/toggle/astar.rs:74-98 | one cell of the first sweep keeps every entry queued so far, queues this button's first click if it is clickable, and queues nothing else |
| Astar.QueuePush | src/toggle/astar.rs:159-169 | pushing a child with its negated cost keeps the queue invariant |
| Astar.ExpandCell | src/toggle/astar.rs:134-169 | one cell of an expansion: a clickable, unpruned button whose snapshot was not visited has exactly its child entry (the item's clicks plus this one, cost as priority) appended to the queue and its snapshot visited; otherwise queue and visited set are unchanged |
| Astar.ExpandRow | src/toggle/astar.rs:133-170 | one row of an expansion tries every cell of the row; everything it appends is a child of the item, and every snapshot it newly visits is queued |
| Astar.Expand | src/toggle/astar.rs:132-171 | after an expansion, every click from the item has been skipped, pruned or visited; every new child snapshot is in the queue behind the old entries, and nothing but children was appended |
| Astar.ExpandStep | src/toggle/astar.rs:133-170 | one pass of the row loop keeps the old queue as a prefix, keeps the visited set growing, and moves the tried clicks and the queued children on by one row |
| Astar.NewQueuedNone | src/toggle/astar.rs:132-171 | an expansion that has not begun has queued nothing and visited nothing new |
| Astar.NewQueuedCell | src/toggle/astar.rs:155-168 | one cell of an expansion appends at most its own child and visits only that child's snapshot |
| Astar.NewQueuedTrans | src/toggle/astar.rs:132-171 | two consecutive stretches of an expansion that each queue only children and each queue every snapshot they visit make one such stretch |
| Astar.ChildrenQueued | src/toggle/astar.rs:155-168 | at the end of an expansion, every child whose snapshot was new when it began has a queued entry with that snapshot |
| Astar.LeftToVisitShrinks | src/toggle/astar.rs:158-169 | each fresh visited key shrinks the finite set of keys still to visit, which bounds the search |
| Astar.PoppedSolution | src/toggle/astar.rs:120-128 | a popped item whose diff is 0 is a sound solution |
| Astar.RunAstar | src/toggle/astar.rs:59-175 | `Success(orders)` is always a sound solution and the search terminates; a level with no button to click ends in `Fail` (the first sweep queues nothing, astar.rs:73-99, 103, 174); a level one click solves ends in a one-click `Success`, so `Fail` means no single click solves it |
| Astar.SeededSomething | src/toggle/astar.rs:73-99 | a first sweep that queued anything found a clickable button |
| Astar.OneClickPriority | src/toggle/astar.rs:90-94 | the first-click entry of a one-click solution has priority -2, the highest any entry can have |
| Astar.TopIsOneClick | src/toggle/astar.rs:103-111 | when some entry has priority -2, the entry popped has one click and a snapshot equal to the target |
| Astar.ParsedLevelSearchable | src/toggle/reader.rs:19-115 | a level parsed back from its encoding has a subtype and a state bit for every cell, and a `Shift` only in rows of at most 16 cells, so `run_astar` can take it |
| Reader.I32FromLe | src/toggle/reader.rs:90-93 | the two's-complement value of four little-endian bytes; it is non-negative exactly when the top byte is below `0x80` |
| Reader.LeBytesRoundTrip | src/toggle/reader.rs:90-92 | reading back the four little-endian bytes of a non-negative `i32` gives it back |
| Reader.Record | src/toggle/reader.rs:42-111 | each record that does not stop parsing moves the cursor forward |
| Reader.ReadRecord | src/toggle/reader.rs:42-111 | one turn of the loop computes exactly what `Record` specifies for the tag under the cursor |
| Reader.ParseToggle | src/toggle/reader.rs:19-118 | the loop computes exactly `Parse`: the version byte is skipped, then records are read until the stream ends or a creator record stops it |
| Reader.WidthStep | src/toggle/reader.rs:43-47 | a width record that fits the stream sets the width to the next byte and moves two bytes on |
| Reader.HeightStep | src/toggle/reader.rs:48-52 | a height record that fits the stream sets the height to the next byte and moves two bytes on |
| Reader.SubtypesStep | src/toggle/reader.rs:53-68 | a subtypes record appends `width * height` bytes and moves past them |
| Reader.StatesStep | src/toggle/reader.rs:69-85 | a states record reads `(total_buttons - 1) / 8 + 1` bytes into a bit array of eight bits per byte and moves past them |
| Reader.MinimumClickStep | src/toggle/reader.rs:86-98 | a minimum-click record with a non-negative count stores it and moves five bytes on |
| Reader.CreatorStep | src/toggle/reader.rs:100-111 | a creator record ends parsing with the fields read so far |
| Reader.EncodeParseRoundTrip | src/toggle/reader.rs:19-118 | parsing a level written with one record of each kind gives that level back, whatever follows the creator record |
| Reader.NoRecordsGiveDefaults | src/toggle/reader.rs:20-37 | a stream without records gives `ToggleLevel::new()` with the 1 by 1 default size: no subtypes, an empty state array and no minimum click count |
| Reader.LastWidthWins | src/toggle/reader.rs:43-47 | when two width records occur, the last one wins |
| Reader.StatesBeforeSubtypes | src/toggle/reader.rs:69-85 | a states record before any subtypes record reads one byte, because the button count starts at 1 |
| Reader.ZeroButtonsPanic | src/toggle/reader.rs:71 | a zero width makes the button count 0, and a later states record then panics on the `u8` underflow |
| Reader.MalformedPanics | src/toggle/reader.rs:43-59 | a width record cut off by the end of the stream panics, and so does a `width * height` above 255 |

## Left out

- Console output, the stopwatch and the iteration counter of `run_astar`, `Grid::print`, `BitArray::print` and the `println!` calls of `parse_toggle` are not modelled. They do not affect any result.
- `reader::parse` (base64 and deflate decoding through foreign libraries) is not part of this model. Neither is the command-line program in `src/main.rs`.
- The base64 string of `to_base64` is modelled as the byte buffer itself (`BitArrays.Key`), because base64 is injective. The `HashMap` of visited strings is a set of such keys.
- The `f64` `ceil(n / 8.0)` of `new` and `resize` is modelled as the exact integer `(n + 7) / 8` (`BitArrays.ByteCount`).
- Level bytes are the newtype `Buttons.byte`, and bit-array bytes are `bv8`. `Reader.ToBv` converts between them.
- `i32` and `usize` arithmetic is unbounded in the model. Coordinates, costs and indices never overflow here, and the model says nothing about grids large enough to overflow them.
- The `u8` product `width * height` and the `u8` subtraction `total_buttons - 1` in `parse_toggle` are modelled as the panics of a debug build (`ProductOverflow`, `NoButtons`). A release build would wrap instead.
- Astar.PopBest: the tie order of the `priority_queue` crate is not modelled. The model takes the first entry of highest priority, and the search's guarantees do not depend on the choice.
- Astar.QueueOk: does not state that queued items are pairwise distinct. The model's queue is a sequence that every push appends to, while the crate's `PriorityQueue::push` of an item already present only updates its priority. The two agree because pushed items never repeat: first-sweep items have distinct single clicks, and each later item carries a snapshot that was not yet visited while every queued item's snapshot is visited; this argument is not proved.
- Astar.RunAstar: `Fail` is not proved to mean that the level has no solution, only that no single click solves it. The pruning quirk at `(0, 0)` and the non-commuting rules mean the source does not promise this.
- Grids.FromLevel: requires a subtype and a state bit for every cell. The source indexes `level.subtypes[y * width + x]` and reads `states.get(x * height + y)`, and panics on a level that has too few; `parse_toggle` can return such a level (one with no subtypes record keeps the default 1 × 1 size with no subtypes).
- Astar.LevelOk: demands of `run_astar`'s level the same subtype and state-bit counts as `Grids.FromLevel`, so the model says nothing about the panic the source hits on a short level.
- Grids.Grid.SetStates: requires the bit array to have a byte for every cell. The source's `b.get(i)` panics past the last byte; `run_astar` only passes snapshots of the right size.
- Grids.Grid.New: requires non-negative dimensions. `from_level` only passes `u32` values, so a negative size cannot occur.
- Grids.Grid.ToggleFollowDirection: requires the start cell to be in the grid, or past an edge the walk moves away from. Both of its callers always meet this.
- Grids.Grid.Click: requires a width of at most 16 when the button is a `Shift`. A wider row overruns the 16-entry buffers of `solve_shift`, which panics in the source. `Astar.LevelOk` makes `run_astar` demand the same of its level.
