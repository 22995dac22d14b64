/** The project state machine: the reducer that owns the layers, the grid
    dimensions, the active layer and the bounded linear undo history. */
module Project {
  import opened Types

  /** Most history entries kept; the oldest is dropped beyond this. */
  const HistoryLimit: nat := 50

  /** What one history entry remembers. */
  datatype Snapshot = Snapshot(layers: seq<Layer>, activeLayerId: string)

  datatype State = State(
    gridWidth: nat,
    gridHeight: nat,
    layers: seq<Layer>,
    activeLayerId: string,
    history: seq<Snapshot>,
    historyIndex: int)

  /** The state before any project is created or opened. */
  const InitialState: State := State(0, 0, [], "", [], -1)

  datatype Action =
    | InitGrid(width: nat, height: nat)
    | LoadProject(layers: seq<Layer>, activeLayerId: string, gridWidth: nat, gridHeight: nat)
    | AddLayer
    | DeleteLayer(id: string)
    | SelectLayer(id: string)
    | ToggleLayerVisibility(id: string)
    | ReorderLayers(dragIndex: nat, hoverIndex: nat)
    | RenameLayer(id: string, newName: string)
    | UpdateGrid(grid: Grid, layerId: string)
    | Undo
    | Redo

  /** The layer edits that never touch the history. */
  predicate StructuralEdit(a: Action)
  {
    a.AddLayer? || a.DeleteLayer? || a.SelectLayer? || a.ToggleLayerVisibility? ||
    a.ReorderLayers? || a.RenameLayer?
  }

  // ---------------------------------------------------------------------
  // Layer collections

  predicate HasId(layers: seq<Layer>, id: string)
  {
    exists l :: l in layers && l.id == id
  }

  predicate UniqueIds(layers: seq<Layer>)
  {
    forall i, j :: 0 <= i < j < |layers| ==> layers[i].id != layers[j].id
  }

  /** `layers.filter(l => l.id !== id)`. */
  function Without(layers: seq<Layer>, id: string): (r: seq<Layer>)
    ensures |r| <= |layers|
    ensures forall l :: l in r <==> l in layers && l.id != id
  {
    if layers == [] then []
    else if layers[0].id == id then Without(layers[1..], id)
    else [layers[0]] + Without(layers[1..], id)
  }

  /** Both `splice` calls of the drag-and-drop reorder: take the layer at
      `from` out and put it back in at `to`. */
  function Move(layers: seq<Layer>, from: nat, to: nat): (r: seq<Layer>)
    requires from < |layers| && to < |layers|
    ensures |r| == |layers|
    ensures r[to] == layers[from]
    ensures r[..to] + r[to + 1..] == layers[..from] + layers[from + 1..]
  {
    var rest := layers[..from] + layers[from + 1..];
    var r := rest[..to] + [layers[from]] + rest[to..];
    assert r[..to] == rest[..to] && r[to + 1..] == rest[to..];
    r
  }

  /** `layers.map(l => l.id === id ? { ...l, isVisible: !l.isVisible } : l)`. */
  function ToggleVisibility(layers: seq<Layer>, id: string): (r: seq<Layer>)
    ensures |r| == |layers|
    ensures forall i :: 0 <= i < |r| ==>
      r[i].id == layers[i].id && r[i].name == layers[i].name && r[i].grid == layers[i].grid &&
      r[i].isVisible == (if layers[i].id == id then !layers[i].isVisible else layers[i].isVisible)
  {
    seq(|layers|, i requires 0 <= i < |layers| =>
      if layers[i].id == id then layers[i].(isVisible := !layers[i].isVisible) else layers[i])
  }

  /** `layers.map(l => l.id === id ? { ...l, name } : l)`. */
  function Rename(layers: seq<Layer>, id: string, name: string): (r: seq<Layer>)
    ensures |r| == |layers|
    ensures forall i :: 0 <= i < |r| ==>
      r[i].id == layers[i].id && r[i].isVisible == layers[i].isVisible && r[i].grid == layers[i].grid &&
      r[i].name == (if layers[i].id == id then name else layers[i].name)
  {
    seq(|layers|, i requires 0 <= i < |layers| =>
      if layers[i].id == id then layers[i].(name := name) else layers[i])
  }

  /** `layers.map(l => l.id === id ? { ...l, grid } : l)`. */
  function ReplaceGrid(layers: seq<Layer>, id: string, grid: Grid): (r: seq<Layer>)
    ensures |r| == |layers|
    ensures forall i :: 0 <= i < |r| ==>
      r[i].id == layers[i].id && r[i].isVisible == layers[i].isVisible && r[i].name == layers[i].name &&
      r[i].grid == (if layers[i].id == id then grid else layers[i].grid)
  {
    seq(|layers|, i requires 0 <= i < |layers| =>
      if layers[i].id == id then layers[i].(grid := grid) else layers[i])
  }

  // ---------------------------------------------------------------------
  // History

  /** `history.slice(0, end)` with JavaScript's reading of a negative end
      (counted from the back, never below zero). */
  function SliceTo<T>(history: seq<T>, end: int): (r: seq<T>)
    ensures |r| <= |history|
    ensures 0 <= end <= |history| ==> r == history[..end]
  {
    if end < 0 then (if |history| + end <= 0 then [] else history[..|history| + end])
    else if end >= |history| then history
    else history[..end]
  }

  /** The commit of UPDATE_GRID: drop the redo branch, append the entry and
      drop the oldest one if the log grew past its limit. */
  function Commit(history: seq<Snapshot>, index: int, entry: Snapshot): (r: seq<Snapshot>)
    ensures |r| > 0 && r[|r| - 1] == entry
    ensures |r| <= |history| + 1
    ensures |history| < HistoryLimit ==> |r| <= HistoryLimit
    ensures 0 <= index < |history| <= HistoryLimit ==>
      |r| <= HistoryLimit &&
      r[..|r| - 1] == history[(if index + 1 == HistoryLimit then 1 else 0)..index + 1]
  {
    var next := SliceTo(history, index + 1) + [entry];
    if |next| > HistoryLimit then next[1..] else next
  }

  // ---------------------------------------------------------------------
  // The reducer

  /** What the reducer needs of its caller so that it does not throw:
      deleting the active layer must leave some layer to make active, and
      the dragged index names a row of the layer list (a hover index past
      the end is clamped by `splice`). */
  predicate Dispatchable(s: State, a: Action)
  {
    match a
    case DeleteLayer(id) =>
      !(|s.layers| > 1 && id == s.activeLayerId && Without(s.layers, id) == [])
    case ReorderLayers(from, _) => from < |s.layers|
    case _ => true
  }

  function Reduce(s: State, a: Action, now: nat): (r: State)
    requires Dispatchable(s, a)
    ensures StructuralEdit(a) ==>
      r.history == s.history && r.historyIndex == s.historyIndex &&
      r.gridWidth == s.gridWidth && r.gridHeight == s.gridHeight
    ensures a.Undo? || a.Redo? ==>
      r.history == s.history && r.gridWidth == s.gridWidth && r.gridHeight == s.gridHeight
    ensures a.UpdateGrid? ==>
      r.gridWidth == s.gridWidth && r.gridHeight == s.gridHeight &&
      r.activeLayerId == s.activeLayerId &&
      |r.history| > 0 && r.historyIndex == |r.history| - 1 &&
      r.history[r.historyIndex] == Snapshot(r.layers, r.activeLayerId)
    ensures a.InitGrid? || a.LoadProject? ==>
      r.history == [Snapshot(r.layers, r.activeLayerId)] && r.historyIndex == 0
  {
    match a
    case InitGrid(width, height) =>
      var layer := Layer(LayerId(now), "Camada 1", true, CreateEmptyGrid(width, height));
      s.(gridWidth := width, gridHeight := height, layers := [layer], activeLayerId := layer.id,
         history := [Snapshot([layer], layer.id)], historyIndex := 0)
    case LoadProject(layers, activeLayerId, gridWidth, gridHeight) =>
      s.(layers := layers, activeLayerId := activeLayerId, gridWidth := gridWidth,
         gridHeight := gridHeight, history := [Snapshot(layers, activeLayerId)], historyIndex := 0)
    case AddLayer =>
      if s.gridWidth == 0 then s
      else
        var layer := Layer(LayerId(now), "Camada " + Decimal(|s.layers| + 1), true,
                           CreateEmptyGrid(s.gridWidth, s.gridHeight));
        s.(layers := [layer] + s.layers, activeLayerId := layer.id)
    case DeleteLayer(id) =>
      if |s.layers| <= 1 then s
      else
        var rest := Without(s.layers, id);
        s.(layers := rest, activeLayerId := if id == s.activeLayerId then rest[0].id else s.activeLayerId)
    case SelectLayer(id) =>
      s.(activeLayerId := id)
    case ToggleLayerVisibility(id) =>
      s.(layers := ToggleVisibility(s.layers, id))
    case ReorderLayers(from, to) =>
      // the second splice inserts at the end when `to` is past it
      s.(layers := Move(s.layers, from, if to < |s.layers| then to else |s.layers| - 1))
    case RenameLayer(id, newName) =>
      s.(layers := Rename(s.layers, id, newName))
    case UpdateGrid(grid, layerId) =>
      var layers := ReplaceGrid(s.layers, layerId, grid);
      var history := Commit(s.history, s.historyIndex, Snapshot(layers, s.activeLayerId));
      s.(layers := layers, history := history, historyIndex := |history| - 1)
    case Undo =>
      if s.historyIndex <= 0 then s
      else
        var i := s.historyIndex - 1;
        if i < |s.history| then
          s.(layers := s.history[i].layers, activeLayerId := s.history[i].activeLayerId, historyIndex := i)
        else s.(historyIndex := i)
    case Redo =>
      if s.historyIndex >= |s.history| - 1 then s
      else
        var i := s.historyIndex + 1;
        if 0 <= i then
          s.(layers := s.history[i].layers, activeLayerId := s.history[i].activeLayerId, historyIndex := i)
        else s.(historyIndex := i)
  }

  /** The toolbar's enabling conditions. */
  predicate CanUndo(s: State) { s.historyIndex > 0 }
  predicate CanRedo(s: State) { s.historyIndex < |s.history| - 1 }
}
