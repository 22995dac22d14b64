# Hama bead editor: grid editing and history engine, in Dafny

This project models the heart of the Hama bead pattern editor. A project
is a rectangular board (1 to 200 cells each way) and a stack of named
layers, each with a grid of cells. A cell is empty or holds a bead colour
as a hex string.

The model covers the following parts:

- **The reducer** (`project.dfy`, module `Project`). It handles all eleven
  actions: INIT_GRID, LOAD_PROJECT, ADD_LAYER, DELETE_LAYER, SELECT_LAYER,
  TOGGLE_LAYER_VISIBILITY, REORDER_LAYERS, RENAME_LAYER, UPDATE_GRID,
  UNDO and REDO.
  - Only UPDATE_GRID commits to the undo history.
  - The history is linear and keeps at most 50 entries.
  - `project_props.dfy` (module `ProjectProps`) proves what the reducer
    guarantees, including a state invariant kept by every admissible
    action.
- **The cell action** (`paint.dfy`, module `Paint`). This is what a click
  or drag on a cell does with each tool:
  - the eyedropper picks the colour of the first visible layer that has a
    bead there;
  - pencil and eraser set one cell;
  - fill runs a breadth-first flood fill over a mutable working copy of
    the grid (an `array2`) with an explicit queue.

  The fill is proved to recolour exactly the 4-connected region of the
  clicked cell's value. It is also proved to terminate.
- **The read-only views** (`queries.dfy`, module `Queries`):
  - the extent of the drawing;
  - the per-colour bead count;
  - the number of beads inside a dragged selection.

  Each view is a scan with the source's nested loops. It is proved equal
  to a function over the list of beads of visible layers, and the meaning
  of that function is proved separately.
- **Colours** (`colors.dfy`, module `Colors`):
  - the built-in palettes;
  - the case-insensitive de-duplication of custom colours;
  - the choice of dark or light text over the background colour of the
    exported sheet.
- **A worked session** (`scenario.dfy`, module `Scenario`). It runs two
  pencil clicks, an undo and a redo through the paint engine and the
  reducer together.

Shared shapes live in `types.dfy` (module `Types`): cells, grids, layers,
tools, empty grids and clock-derived layer ids.

The clock (`Date.now()`) is a parameter `now` of the reducer. A cell
counts as a bead when it is truthy, so neither `null` nor the empty
string is a bead (`Types.Occupied`). A cell action does not call React
setters. It returns an `Effect`:
- `Commit(grid, layerId)` stands for dispatching UPDATE_GRID;
- `PickColor(c)` stands for setting the current colour and switching to
  the pencil.

## Where the model follows the code

- **Undo then redo.** One would expect undo then redo to be the
  identity. In the code (App.tsx:130-141), both actions restore the
  history entry the index lands on. Layer edits made since the last commit
  (add, delete, rename, reorder, visibility) are not in that entry, so
  they are lost. The model follows the code:
  - `ProjectProps.UndoThenRedo` and `ProjectProps.RedoThenUndo` prove the
    identity only for a state that is in step with its history entry;
  - `ProjectProps.UndoRedoLosesAddedLayer` shows a layer that disappears.
- **Before the first INIT_GRID.** The history is empty and the index is
  -1. UNDO is then a no-op. UPDATE_GRID slices with `slice(0, 0)` and
  starts a one-entry history, which `Project.SliceTo` models with
  JavaScript's reading of the end index.

## Model

| member | source | states |
|---|---|---|
| Types.CreateEmptyGrid | App.tsx:37-38 | the grid has `height` rows of `width` cells, all empty |
| Types.Decimal | App.tsx:52 | the rendering is a non-empty string of decimal digits, one digit exactly for numbers below 10 |
| Types.DecimalInjective | App.tsx:52 | different numbers render differently |
| Types.LayerId | App.tsx:52 | the id is `layer-` followed by the decimal clock reading |
| Types.LayerIdInjective | App.tsx:81 | layers created at different instants get different ids |
| Project.Without | App.tsx:93 | the filter keeps exactly the layers whose id differs, never more than before |
| Project.Move | App.tsx:104-110 | the two splices put the dragged layer at the hover index and keep the others in order |
| Project.CanUndo | App.tsx:420 | the undo button's enabling condition, `historyIndex > 0`; its meaning is stated by `ProjectProps.CanUndoExact` |
| Project.CanRedo | App.tsx:420 | the redo button's enabling condition, `historyIndex < history.length - 1`; its meaning is stated by `ProjectProps.CanRedoExact` |
| Project.ToggleVisibility | App.tsx:99-103 | only the visibility of layers with the id flips; ids, names, grids and order stay |
| Project.Rename | App.tsx:111-116 | only the names of layers with the id change; ids, visibility, grids and order stay |
| Project.ReplaceGrid | App.tsx:118-120 | only the grids of layers with the id change; ids, names, visibility and order stay |
| Project.SliceTo | App.tsx:121 | an in-range end gives the prefix of that length, and the slice is never longer than the log |
| Project.Commit | App.tsx:121-127 | the new entry is last; from a valid index the log keeps the entries up to the index (dropping the oldest at 50) and never exceeds 50 |
| Project.Reduce | App.tsx:49-145 | layer edits never touch history, index or board size; undo/redo keep history and size; UPDATE_GRID leaves the index on its own new entry; INIT/LOAD start a one-entry history |
| ProjectProps.InitGridCreatesOneLayer | App.tsx:51-67 | INIT_GRID gives one visible, empty, active layer of the board's size, a one-entry history, and a valid state |
| ProjectProps.LoadProjectDiscardsHistory | App.tsx:68-78 | LOAD_PROJECT installs the payload and leaves a single history entry, with nothing to undo or redo |
| ProjectProps.AddLayerBeforeInitIsNoOp | App.tsx:80 | ADD_LAYER before any board exists changes nothing |
| ProjectProps.AddLayerPrepends | App.tsx:79-90 | ADD_LAYER puts a fresh, visible, empty layer first, makes it active and leaves the history alone |
| ProjectProps.DeleteLastLayerIsNoOp | App.tsx:92 | the last remaining layer cannot be deleted |
| ProjectProps.WithoutRemovesOne | App.tsx:93 | with distinct ids, filtering one id removes exactly that layer and keeps the rest in order |
| ProjectProps.WithoutAbsent | App.tsx:93 | filtering an id nobody has keeps the list |
| ProjectProps.UniqueIdsRemove | App.tsx:93 | removing a layer keeps the ids distinct |
| ProjectProps.DeleteLayerRemoves | App.tsx:91-96 | DELETE_LAYER removes exactly that layer; deleting the active one activates the new first layer; history untouched; state stays valid |
| ProjectProps.SelectLayerOnlyChangesActive | App.tsx:97-98 | SELECT_LAYER changes the active id and nothing else |
| ProjectProps.ToggleTwiceIsIdentity | App.tsx:99-103 | toggling visibility twice restores the state |
| ProjectProps.RenameOnlyTouchesNames | App.tsx:111-116 | RENAME_LAYER renames the matching layers and changes nothing else |
| ProjectProps.ReorderIsPermutation | App.tsx:104-110 | REORDER_LAYERS moves the dragged layer to the hover index and permutes the layers |
| ProjectProps.ReorderPastEndAppends | App.tsx:107-108 | a hover index past the last layer puts the dragged layer at the end, since `splice` clamps its start |
| ProjectProps.ReorderBackRestores | App.tsx:104-110 | dragging back from the hover index to the drag index restores the state |
| ProjectProps.UpdateGridCommits | App.tsx:117-129 | UPDATE_GRID replaces the layer's grid, appends an entry equal to the new state, prunes the redo branch, evicts the oldest past 50 and leaves nothing to redo |
| ProjectProps.CommitAfterUndoPrunesRedo | App.tsx:121-127 | after an undo, a commit keeps only entries at or before the index |
| ProjectProps.CanUndoExact | App.tsx:420 | the undo button is enabled exactly when UNDO changes the state |
| ProjectProps.CanRedoExact | App.tsx:420 | the redo button is enabled exactly when REDO changes the state |
| ProjectProps.UndoRestoresPrevious | App.tsx:130-135 | UNDO moves back one entry and restores its layers and active id, keeping the board size |
| ProjectProps.RedoRestoresNext | App.tsx:136-141 | REDO moves forward one entry and restores its layers and active id, keeping the board size |
| ProjectProps.UndoThenRedo | App.tsx:130-141 | undo then redo restores the entry at the index, and is the identity on a state in step with it |
| ProjectProps.RedoThenUndo | App.tsx:130-141 | redo then undo restores the entry at the index, and is the identity on a state in step with it |
| ProjectProps.UndoRedoLosesAddedLayer | App.tsx:79-90 | a layer added after the last commit is gone after undo then redo |
| ProjectProps.HistoryInvPreserved | App.tsx:49-145 | every action keeps 0 <= index < length <= 50 once a board exists |
| ProjectProps.ValidPreserved | App.tsx:49-145 | every admissible action keeps layers non-empty, ids distinct, the active id present and every grid (current and in history) of the board's size |
| ProjectProps.UniqueIdsPrepend | App.tsx:88 | prepending a layer with a fresh id keeps ids distinct |
| ProjectProps.UniqueIdsMove | App.tsx:106-108 | moving a layer keeps ids distinct |
| ProjectProps.ValidAfterAdd | App.tsx:79-90 | adding a layer with a fresh id keeps the state valid |
| ProjectProps.ValidAfterDelete | App.tsx:91-96 | deleting a layer keeps the state valid |
| ProjectProps.ValidAfterReorder | App.tsx:104-110 | reordering with an in-range drag index, and any hover index, keeps the state valid |
| ProjectProps.ValidAfterCommit | App.tsx:117-129 | a commit of a grid of the board's size keeps the state valid, history included |
| Paint.FindLayer | App.tsx:238-239 | finds nothing exactly when no layer has the id, and otherwise the first layer that has it |
| Paint.Eyedrop | App.tsx:241-244 | picks nothing exactly when no visible layer has a bead at the cell, otherwise the colour of the first one that does |
| Paint.ScanForColor | App.tsx:241-244 | the `for ... of` scan returns the eyedropper's colour |
| Paint.EyedropFirst | App.tsx:242 | the first visible layer with a bead decides the pick |
| Paint.SetCell | App.tsx:261-262 | the grid keeps its shape, the cell gets the colour, and no other cell changes |
| Paint.RegionStep | App.tsx:253-255 | a same-coloured neighbour of a region cell is in the region |
| Paint.ReachPainted | App.tsx:249-256 | once the queue has drained, every cell reachable from the seed has been painted |
| Paint.FillChangesRegion | App.tsx:246-258 | the fill recolours the seed and changes exactly the cells of its 4-connected region |
| Paint.FillIdempotent | App.tsx:246-258 | filling the result again from the same seed with the same colour changes nothing |
| Paint.FillInvInit | App.tsx:249-250 | the working copy and the one-cell queue start out satisfying the loop invariant |
| Paint.FillInvSkip | App.tsx:253 | dropping a queued cell that is off the board or already recoloured keeps the loop invariant |
| Paint.FillInvPaint | App.tsx:254-255 | painting the front cell and enqueueing its four neighbours keeps the loop invariant |
| Paint.PendingPaint | App.tsx:254 | painting a target-coloured cell removes one cell from the finite set of cells still to paint, which bounds the loop |
| Paint.Paint | App.tsx:254 | the in-place write `newGrid[cy][cx] = color` leaves the working copy mirroring the grid with that one cell set |
| Paint.FillInvDone | App.tsx:251-257 | with the queue empty the working copy is the filled grid |
| Paint.FloodFill | App.tsx:246-258 | the breadth-first fill over the mutable copy returns exactly the region-filled grid |
| Paint.CellActionSpec | App.tsx:237-265 | only the eyedropper picks, a picked colour is a bead, and a commit is for the active layer, keeps the board's shape, really changes the grid and leaves the clicked cell with the tool's colour |
| Paint.HandleCellAction | App.tsx:237-265 | the handler's effect is the one the cell action prescribes for every tool |
| Paint.FindAfterReplace | App.tsx:238 | after the commit, the active layer is found again with the committed grid |
| Paint.RepeatIsNoOp | App.tsx:246-263 | repeating a committed pencil, eraser or fill action on the updated layers has no effect |
| Paint.PencilTouchesOneCell | App.tsx:261-263 | pencil and eraser commits differ from the active grid in exactly the clicked cell |
| Queries.RowBeadsExact | App.tsx:208 | a row's bead list holds exactly its truthy cells |
| Queries.GridBeadsExact | App.tsx:208 | a grid's bead list holds exactly its truthy cells |
| Queries.LayersBeadsExact | App.tsx:206-210 | the bead list holds exactly the beads shown by visible layers |
| Queries.AllBeadsExact | App.tsx:206-210 | the board's bead list holds exactly the beads shown by visible layers |
| Queries.FoldAppend | App.tsx:206-210 | scanning two parts in turn is scanning their concatenation |
| Queries.Grow | App.tsx:209 | the four `Math.min`/`Math.max` updates give a box that holds the old box and the bead, each edge taken from one of them |
| Queries.BoundsTight | App.tsx:209 | the running box contains every bead and each edge touches one; it is empty only without beads |
| Queries.DimensionsMeaning | App.tsx:204-215 | the extent is 0x0 exactly when no visible layer has a bead, otherwise the size of the tight bounding box of all beads |
| Queries.BoundRow | App.tsx:208-209 | the row scan widens the box around every bead of the row |
| Queries.BoundGrid | App.tsx:208 | the grid scan widens the box around every bead of the grid |
| Queries.DrawingDimensions | App.tsx:204-215 | the scan returns the extent of the beads of visible layers |
| Queries.AddBeadCounts | App.tsx:219 | counting one bead adds the colour as a key if new, raises its count by one from zero or its old value, and leaves the other colours alone |
| Queries.TallyCounts | App.tsx:219 | the tally has exactly the colours present as keys, each with its number of beads |
| Queries.TotalAt | App.tsx:217-221 | a map's sum is any key's value plus the sum of the rest |
| Queries.TallyTotal | App.tsx:217-221 | the tally's values add up to the number of beads |
| Queries.ColoursPresent | App.tsx:219 | a colour is in the bead multiset exactly when some bead has it |
| Queries.BeadCountMeaning | App.tsx:217-221 | over visible layers, each colour present maps to its bead count and the counts sum to the number of beads |
| Queries.CountRowColours | App.tsx:219 | the row scan counts every bead of the row under its colour |
| Queries.CountGridColours | App.tsx:219 | the grid scan counts every bead of the grid under its colour |
| Queries.BeadCount | App.tsx:217-221 | the scan returns the per-colour tally of the beads of visible layers |
| Queries.Normalize | App.tsx:268-269 | the rectangle's corners are ordered and are the dragged corners' coordinates |
| Queries.CountIn | App.tsx:272 | a rectangle never holds more beads than there are |
| Queries.CountInAppend | App.tsx:270 | counting over two parts adds up |
| Queries.CountInPositive | App.tsx:272-273 | the count is positive exactly when some bead lies inside |
| Queries.CellAt | App.tsx:271 | `l.grid[y]?.[x]` is a bead exactly when (x, y) is a cell of the grid holding a bead |
| Queries.RowCountClip | App.tsx:270 | `grid[y]?.[x]` outside the grid counts nothing |
| Queries.RectCountClip | App.tsx:270 | rows outside the grid count nothing |
| Queries.RowBeadsInRect | App.tsx:270 | the inner loop over a row counts the row's beads inside the rectangle |
| Queries.GridBeadsInRect | App.tsx:270 | the two inner loops over a grid count the grid's beads inside the rectangle |
| Queries.LayersCountIsBeads | App.tsx:270 | the three loops count the beads of visible layers inside the rectangle |
| Queries.SelectArea | App.tsx:267-274 | the tooltip shows the number of beads of visible layers inside the rectangle when it is positive and is cleared otherwise |
| Queries.SelectionCornerSwap | App.tsx:268-269 | dragging between the same corners in either direction selects the same beads |
| Queries.WholeBoardSelection | App.tsx:267-274 | selecting the whole board counts every bead |
| Queries.CountAll | App.tsx:272 | a rectangle holding every bead counts them all |
| Colors.Lower | App.tsx:197 | lower-casing keeps the length, leaves no capital letter, turns each capital into its small letter and keeps every other character |
| Colors.Upper | App.tsx:200 | upper-casing keeps the length, leaves no small letter, turns each small letter into its capital and keeps every other character |
| Colors.LowerTwice | App.tsx:197-198 | lower-casing is idempotent, so a lower-cased hex compares equal to itself lower-cased again |
| Colors.LowerOfUpper | App.tsx:197-200 | lower-casing after upper-casing is plain lower-casing |
| Colors.StripHash | App.tsx:349 | exactly one leading `#` is dropped when there is one, and the code is otherwise kept |
| Colors.AddCustomColor | App.tsx:195-202 | the list grows by one exactly when the hex is new to palettes and custom colours ignoring case; the new entry is named by the upper-cased hex with code `C<n>`; the hex is listed afterwards |
| Colors.AddKeepsDistinct | App.tsx:198-199 | custom colours stay free of case-insensitive duplicates, among themselves and against the palettes |
| Colors.AddIdempotent | App.tsx:198-199 | adding the same colour twice is adding it once |
| Colors.AddIgnoresCase | App.tsx:197-198 | whether a colour is added does not depend on its case |
| Colors.AddKeepsNumbering | App.tsx:200 | the custom colours stay numbered C1, C2, ... in order |
| Colors.Channel | App.tsx:352 | two hex digits give a channel value below 256 |
| Colors.Luminance | App.tsx:353 | the weighted brightness is at most 255000 |
| Colors.Expand | App.tsx:350 | the expanded code has six digits exactly when the code had three or six |
| Colors.ContrastColor | App.tsx:348-354 | the text over the export background is dark or light, light exactly for a six-digit (or three-digit) background with brightness below 128 |
| Colors.ShortFormAgrees | App.tsx:350 | `#abc` gets the same text colour as `#aabbcc` |
| Colors.HashOptional | App.tsx:349 | the leading `#` does not change the answer |
| Colors.ContrastMonotone | App.tsx:352-353 | a background at least as bright in every channel as one with dark text has dark text too |
| Colors.ContrastExtremes | App.tsx:353 | a white background gets dark text and a black one light text |
| Scenario.Click | App.tsx:261-263 | a pencil click on a board cell (components/Pegboard.tsx:85-86) keeps the board size and the active layer, and when it changes the state it leaves the index on a new history entry equal to the new layers |
| Scenario.ClickOnOneLayer | App.tsx:235-263 | a pencil click on a one-layer board paints the cell and appends one history entry |
| Scenario.UndoRedoScenario | App.tsx:117-141 | on a 3x3 board: red at (1,1), blue at (0,0), then undo leaves only red and redo restores blue |

## Left out

- The board's pointer handling is not part of this model. That covers
  mapping screen points to cells under pan and zoom, pinch gestures, drag
  painting and the selection rectangle's drawing
  (components/Pegboard.tsx). It is floating-point DOM event code. The
  model starts from the cell coordinates and the selection corners it
  reports.
- Persistence, export and presentation are outside the core and are not
  modelled:
  - local storage and Firestore;
  - PNG export and thumbnails (`html2canvas`, canvas drawing, `prompt`,
    `alert`, `confirm`, `FileReader`);
  - the reference-image viewer;
  - toolbar, sidebar, modal and tooltip rendering.

  Only `getContrastColor` is taken from the export code. It is applied
  to an opaque export background (App.tsx:362). With a transparent
  background the export picks the text colour from the page's dark-mode
  class instead, which is not modelled.
- The clock (`Date.now()`) is a parameter `now` of the reducer.
- React state is not modelled. The setters called by a cell action and
  by the selection handler are returned as values. The tooltip position
  (`eventCoords`) is dropped.
- JavaScript numbers are modelled as unbounded integers. Counts and
  coordinates stay far below 2^53.
- Project.Reduce: requires `Dispatchable`, so it does not model what
  happens when the code throws or builds a malformed list:
  - DELETE_LAYER of the active layer, where the filter empties the list
    and `newLayers[0].id` throws;
  - REORDER_LAYERS with a drag index past the end of the list, where the
    first `splice` removes nothing and the second inserts `undefined`.
    The sidebar (components/Sidebar.tsx:80) passes only list indices.
    A hover index past the end is modelled: `splice` clamps it and the
    layer moves to the end (`ProjectProps.ReorderPastEndAppends`).
    Negative indices cannot be expressed, because `ReorderLayers` has
    `nat` fields; `splice` would count them from the end of the list.
- ProjectProps.ValidPreserved: assumes `Admissible` for the following,
  which the code itself does not check:
  - the ConfigModal bounds on a new board (components/ConfigModal.tsx:14);
  - a well-formed loaded project;
  - a clock reading that gives a fresh layer id;
  - selecting an existing layer;
  - committing a grid of the board's shape.
- Paint.HandleCellAction: requires the clicked cell to be on the board and
  every layer's grid to have the board's shape. The code indexes
  `grid[y][x]` without checking.
- Paint.FloodFill: the working copy is an `array2` of the board's size.
  The code copies rows of whatever length they have (`grid.map(row =>
  [...row])`), which is the same when the grid has the board's shape.
- Colors.ContrastColor: requires hex digits after an optional leading
  `#`. `parseInt`'s partial parsing and `NaN` arithmetic on other input
  are not modelled.
- Colors.Lower: maps only the ASCII letters, while `toLowerCase` and
  `toUpperCase` apply full Unicode case mapping. Hex codes are ASCII.
- `getColorInfo`, `handleConfigConfirm` and the other App-level React
  state (current tool, current colour, open project, project name) are
  not modelled. They are UI glue around the reducer.
- The built-in palettes are the constant `Colors.Palettes`, copied from
  constants.tsx.
