# Image puzzle controller, modelled in Dafny

The page shows an image cut into a 3×3 grid of tiles. The tiles are shuffled into nine
drop zones, and the player moves them with mouse drags or touch gestures until every tile
sits in its own zone. The page then reports the level as solved. A continue control moves
to the next image, and after the last image it shows a final reward picture. This
project models the controller behind that page (`src/main.js`) without the DOM:

- `levels.dfy`, module `Levels`: the level list. The discovered asset paths are filtered
  to those ending in `photo_<digits>.jpg` and sorted by that number with a stable sort.
  They are then mapped to their URLs. When no path qualifies, the list falls back to
  `photo.jpg`, or else to a placeholder URL.
- `board.dfy`, module `Board`: the board as a value. A zone holds one tile index, or
  `EMPTY` (-1) when it is empty. A tile is identified by its correctIndex. The module holds
  the placement rule (swap onto an occupied zone, relocation onto an empty one), the
  count of correct zones and the solved predicate.
- `controller.dfy`, module `Controller`: the session state as a class `Puzzle`. It holds
  the board array, the current level, the phase (Playing, Solved or Reward) and the tiles
  held by a mouse drag or by a touch. Its methods are the board builder, the win check,
  the placement, the drag and touch handlers and the continue action. Each method is
  specified against the pure functions of `Board` and against `ContinueStep`. A run of
  wins and continue actions (`Run`) carries the session-level properties.

The class invariant `Valid()` says that the board is a shuffle of the nine tiles (each
exactly once), so every zone is occupied. It also says that `0 <= currentLevel <
|levels|` and that each held tile is either none or a real tile. Every handler preserves
the invariant.

## Model

| member | source | states |
|---|---|---|
| `Levels.ParseNumberedPath` | src/main.js:14-18 | every path `<prefix>photo_<digits>.jpg` is kept, and its level number is the decimal value of its digits |
| `Levels.ParsedPathShape` | src/main.js:14 | conversely, a path is kept only if it has exactly that form; together the two lemmas make the filter an if-and-only-if with the regular expression `photo_\d+\.jpg$` |
| `Levels.NamedLevel` | src/main.js:16-18 | the file `photo_<n>.jpg` is level number n, with no leading zeros |
| `Levels.LeadingZero` | src/main.js:17-18 | a leading zero does not change the number, so `photo_01.jpg` and `photo_1.jpg` tie |
| `Levels.ParseLevelNumber` | src/main.js:13-17 | a level number is found only for a path that ends in `.jpg` and is longer than `photo_` plus `.jpg`; `ParsedPathShape` adds that such a path ends in `photo_<digits>.jpg` and the number is the value of those digits, and `ParseNumberedPath` gives the converse |
| `Levels.KeyOfPath` | src/main.js:16-17 | the sort key of a numbered photo `<prefix>photo_<digits>.jpg` is the decimal value of its digits; the `\|\| 0` default never applies to a path that passed the filter |
| `Levels.TrailingDigits` | src/main.js:17 | the capture `(\d+)` is the longest run of digits in front of `.jpg` |
| `Levels.NumberedOnly` | src/main.js:13-14 | the filter keeps exactly the discovered assets whose path is a numbered photo, each as often as it was discovered, and drops every other asset |
| `Levels.NumberedOnlyConcat` | src/main.js:13-14 | the filter keeps discovery order: filtering a concatenation filters each part and concatenates the results |
| `Levels.NumberedOnlyWithKey` | src/main.js:12-17 | for every level number above 0, the filter keeps all discovered assets with that number, in discovery order |
| `Levels.Insert` | src/main.js:15-20 | inserting into a sorted list keeps it sorted and adds exactly the one entry |
| `Levels.SortBy` | src/main.js:15-20 | the sort result is in ascending order of the number and is a permutation of its input |
| `Levels.SortStable` | src/main.js:15-20 | entries with equal numbers keep their discovery order, as in the stable `Array.prototype.sort` |
| `Levels.StableSortUnique` | src/main.js:15-20 | two sorted lists that keep the order within every number are equal, so any stable sort yields the modelled order |
| `Levels.SelectLevels` | src/main.js:12-19 | the selected levels are exactly the numbered photos, each as often as discovered, in ascending stable order; for every number above 0 they list the discovered assets with that number in discovery order |
| `Levels.LevelImages` | src/main.js:13-34 | the level list is never empty; it is the URLs of the selected levels in order, and otherwise `photo.jpg` or the placeholder |
| `Board.AllTilesOnce` | src/main.js:77-82 | each correctIndex from 0 to 8 is given to exactly one of the created tiles |
| `Board.ShuffleIsFull` | src/main.js:102-107 | a board built from any shuffle of the tiles has every zone occupied, every tile present and no tile in two zones |
| `Board.ZoneOf` | src/main.js:141 | a tile's origin is the zone that holds it |
| `Board.Placement` | src/main.js:137-147 | a placement keeps the board well formed (at most one tile per zone, no tile twice) and conserves the multiset of zone contents |
| `Board.PlacementMissing` | src/main.js:138 | a placement with a missing tile or zone changes nothing |
| `Board.PlacementSwaps` | src/main.js:140-147 | on an occupied zone the moved tile ends in the target, the displaced tile ends in the moved tile's former zone, and every other zone is unchanged |
| `Board.PlacementRelocates` | src/main.js:143-147 | on an empty zone the tile ends in the target, its former zone becomes empty, and every other zone is unchanged |
| `Board.PlacementKeepsShuffle` | src/main.js:137-147 | a placement on a complete board leaves it complete: still a shuffle of the nine tiles |
| `Board.CorrectCount` | src/main.js:186-203 | the count of zones holding their own tile never exceeds the number of zones scanned |
| `Board.CorrectCountIsSize` | src/main.js:191-206 | the count equals the number of scanned zones whose tile has the zone's own index; empty and mismatched zones add nothing |
| `Board.CorrectCountFull` | src/main.js:186-209 | the count of correct zones is at most the zones scanned, and equals it exactly when every scanned zone holds its own tile; empty and mismatched zones do not count |
| `Board.WinIffSolved` | src/main.js:211 | `correctCount === 9` holds exactly when every zone holds the tile with its own index |
| `Board.SwapLastPairWins` | src/main.js:137-211 | a board that is solved except for two swapped tiles is not won, and dropping either of them on its own zone wins it |
| `Controller.ContinueStep` | src/main.js:248-266 | continue raises the level by one exactly when the level is solved and below the last; on the solved last level it leads to Reward; Reward stays Reward; the level stays below the level count |
| `Controller.RunMonotone` | src/main.js:211-266 | over any sequence of wins and continue actions the level never decreases, rises by at most one per event, stays in bounds, and the reward screen is never left |
| `Controller.RoundsAdvance` | src/main.js:211-262 | after j rounds of solving and continuing from a level being played, the player is playing the level j further on, while that level exists |
| `Controller.WinAndContinueReachesReward` | src/main.js:211-266 | from any level being played, solving and continuing round after round plays each later level in turn and ends on the reward screen at the last level |
| `Controller.Puzzle.constructor` | src/main.js:13-48 | start-up state: the level list, level 0, phase Playing, nothing held, and the board built from the shuffle |
| `Controller.Puzzle.Init` | src/main.js:50-107 | zone i receives the i-th tile of the shuffle; the board is complete; the phase is Playing |
| `Controller.Puzzle.CheckWin` | src/main.js:186-211 | the loop's count is the number of correct zones, and the win flag holds exactly when the board is solved |
| `Controller.Puzzle.Place` | src/main.js:137-149 | the new board is `Placement` of the old one and the invariant is kept; a placement that solves the board moves the phase to Solved, any other leaves the phase as it was; a missing tile or zone changes nothing, not even the phase |
| `Controller.Puzzle.DragStart` | src/main.js:112-116 | the dragged tile is recorded |
| `Controller.Puzzle.DragEnd` | src/main.js:118-121 | the dragged reference is cleared |
| `Controller.Puzzle.Drop` | src/main.js:127-135 | with a dragged tile and a resolved zone the drop is a placement, a placement that solves the board sets the phase to Solved and any other leaves it as it was; otherwise it is a no-op |
| `Controller.Puzzle.TouchStart` | src/main.js:151-156 | only a single-finger touch picks up the tile |
| `Controller.Puzzle.TouchEnd` | src/main.js:163-178 | with a held tile and a resolved zone the release is a placement, a placement that solves the board sets the phase to Solved and any other leaves it as it was; the held reference is cleared either way; without a held tile nothing happens |
| `Controller.Puzzle.TouchCancel` | src/main.js:180-184 | the held reference is cleared and nothing else changes |
| `Controller.Puzzle.Continue` | src/main.js:248-266 | the level and phase move as `ContinueStep` says, and the board is rebuilt from the new shuffle exactly when the level advances |

## Left out

- The shuffle `[...tiles].sort(() => Math.random() - 0.5)` is not modelled. The
  resulting order is a parameter (`perm`), and the only requirement is that it is a
  permutation of the nine tiles. The random comparator does not give a uniform shuffle;
  the model says nothing about the distribution.
- `import.meta.glob` asset discovery is an input. The numbered photos come in as a
  sequence of (path, URL) pairs in discovery order, and the `photo.jpg` lookup comes in as
  an optional URL. The final image `photo_final.jpg` and its placeholder are only shown
  on the reward screen, which the model reduces to the phase Reward.
- `parseInt` is modelled on unbounded naturals. The source's loss of precision for
  numbers above 2^53 is not modelled.
- DOM construction and clearing, CSS classes (`dragging`, `solved`, `hidden`), inline
  styles, the background-crop offsets of the tiles, the level indicator and modal texts,
  and console logging are rendering only.
- The `dragover` and `touchmove` handlers only call `preventDefault`; they change no
  state. The Alt+D debug toggle and the close control of the modal (which only hides the
  modal) are not modelled.
- The 200 ms delay before the win modal is not modelled: a win moves to Solved at once.
  A move made inside that delay is therefore not modelled either.
- Hit-testing (`closest('.drop-zone')`, `document.elementFromPoint`) is an input. The
  handlers receive the resolved zone, or `EMPTY` when none was found. Once the reward
  screen has cleared the board, no zone can resolve, so `Drop` and `TouchEnd` do not
  place anything in phase Reward.
- Controller.Puzzle.Place: requires phase Playing or Solved. Its only callers, `Drop` and
  `TouchEnd`, never reach it in Reward, where the source has no zones left.
- The missing-origin guard in `placeTileInZone` (`existingTile && origin`) is not
  modelled. Every tile always has a parent zone, so `Board.Placement` requires the tile
  to be on the board. On the complete boards the controller keeps, the relocation onto
  an empty zone never happens. `Board.PlacementRelocates` states it for boards in
  progress.
- The aborted modal flow when the modal element is missing is not modelled. Neither is a
  held reference that survives a rebuild: in the model it names the new tile with the
  same index, while in the source it would name a discarded element.
- After the board is cleared for the reward, the model keeps the last board array
  unchanged. Phase Reward stands for the cleared screen.
- `vite.config.js` is build configuration and is not part of this model.
