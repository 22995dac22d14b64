/** A worked editing session through the paint engine and the reducer
    together: two pencil clicks, an undo and a redo. */
module Scenario {
  import opened Types
  import opened Project
  import opened Paint

  /** One pencil click at (x, y) on the active layer, committed through
      UPDATE_GRID when it changes something; the board only reports
      clicks on its cells. */
  ghost function Click(s: State, x: nat, y: nat, color: GridColor, now: nat): (r: State)
    ensures r.gridWidth == s.gridWidth && r.gridHeight == s.gridHeight && r.activeLayerId == s.activeLayerId
    ensures r != s ==>
      |r.history| > 0 && r.historyIndex == |r.history| - 1 &&
      r.history[r.historyIndex] == Snapshot(r.layers, r.activeLayerId)
  {
    if x < s.gridWidth && y < s.gridHeight && forall l :: l in s.layers ==> GridWf(l.grid, s.gridWidth, s.gridHeight) then
      match CellActionSpec(s.layers, s.activeLayerId, s.gridWidth, s.gridHeight, x, y, color, Pencil)
      case Commit(g, id) => Reduce(s, UpdateGrid(g, id), now)
      case _ => s
    else s
  }

  /** Layer l holds c at (x, y). */
  predicate CellIs(l: Layer, x: int, y: int, c: GridColor)
  {
    InGrid(l.grid, x, y) && l.grid[y][x] == c
  }

  /** On a one-layer board the pencil paints the only layer. */
  lemma PencilOnOnlyLayer(layers: seq<Layer>, width: nat, height: nat, x: nat, y: nat, color: GridColor)
    requires x < width && y < height
    requires |layers| == 1 && GridWf(layers[0].grid, width, height) && layers[0].grid[y][x] != color
    ensures forall l :: l in layers ==> GridWf(l.grid, width, height)
    ensures CellActionSpec(layers, layers[0].id, width, height, x, y, color, Pencil) ==
      Commit(SetCell(layers[0].grid, x, y, color), layers[0].id)
  {
    assert forall l :: l in layers ==> l == layers[0];
    assert FirstWithId(layers, layers[0].id, 0);
    assert FindLayer(layers, layers[0].id) == Some(layers[0]);
  }

  /** Committing to the only layer at the head of a short history
      replaces its grid and appends one entry. */
  lemma CommitOnOnlyLayer(s: State, g: Grid, now: nat)
    requires |s.layers| == 1 && s.activeLayerId == s.layers[0].id
    requires 0 <= s.historyIndex == |s.history| - 1 < HistoryLimit - 1
    ensures var layers := [s.layers[0].(grid := g)];
      Reduce(s, UpdateGrid(g, s.activeLayerId), now) ==
        s.(layers := layers, history := s.history + [Snapshot(layers, s.activeLayerId)], historyIndex := |s.history|)
  {
    var layers := ReplaceGrid(s.layers, s.activeLayerId, g);
    assert layers == [s.layers[0].(grid := g)];
    assert SliceTo(s.history, s.historyIndex + 1) == s.history;
  }

  /** A pencil click that changes a cell of a one-layer board at the head
      of its history paints that cell and appends one history entry. */
  lemma ClickOnOneLayer(s: State, x: nat, y: nat, color: GridColor, now: nat)
    requires x < s.gridWidth && y < s.gridHeight
    requires |s.layers| == 1 && s.activeLayerId == s.layers[0].id
    requires GridWf(s.layers[0].grid, s.gridWidth, s.gridHeight) && s.layers[0].grid[y][x] != color
    requires 0 <= s.historyIndex == |s.history| - 1 < HistoryLimit - 1
    ensures var r := Click(s, x, y, color, now);
      r.layers == [s.layers[0].(grid := SetCell(s.layers[0].grid, x, y, color))] &&
      r.activeLayerId == s.activeLayerId &&
      r.gridWidth == s.gridWidth && r.gridHeight == s.gridHeight &&
      r.history == s.history + [Snapshot(r.layers, r.activeLayerId)] && r.historyIndex == |s.history|
  {
    PencilOnOnlyLayer(s.layers, s.gridWidth, s.gridHeight, x, y, color);
    CommitOnOnlyLayer(s, SetCell(s.layers[0].grid, x, y, color), now);
  }

  /** A 3x3 board; red at (1,1); blue at (0,0); undo leaves only the red
      bead; redo brings the blue one back. */
  lemma UndoRedoScenario(now: nat, red: string, blue: string)
    requires red != [] && blue != []
    ensures var s0 := Reduce(InitialState, InitGrid(3, 3), now);
      var s1 := Click(s0, 1, 1, Some(red), now);
      var s2 := Click(s1, 0, 0, Some(blue), now);
      var s3 := Reduce(s2, Undo, now);
      var s4 := Reduce(s3, Redo, now);
      |s3.layers| == 1 && |s4.layers| == 1 &&
      CellIs(s3.layers[0], 1, 1, Some(red)) && CellIs(s3.layers[0], 0, 0, None) &&
      CellIs(s4.layers[0], 1, 1, Some(red)) && CellIs(s4.layers[0], 0, 0, Some(blue)) &&
      s4 == s2
  {
    var s0 := Reduce(InitialState, InitGrid(3, 3), now);
    var g0 := s0.layers[0].grid;
    ClickOnOneLayer(s0, 1, 1, Some(red), now);
    var s1 := Click(s0, 1, 1, Some(red), now);
    var g1 := SetCell(g0, 1, 1, Some(red));
    assert s1.layers[0].grid == g1 && g1[0][0] == None;
    ClickOnOneLayer(s1, 0, 0, Some(blue), now);
    var s2 := Click(s1, 0, 0, Some(blue), now);
    assert s2.layers[0].grid == SetCell(g1, 0, 0, Some(blue));
    assert s2.historyIndex == 2 && |s2.history| == 3;
    var s3 := Reduce(s2, Undo, now);
    assert s3 == s2.(layers := s1.layers, activeLayerId := s1.activeLayerId, historyIndex := 1);
    var s4 := Reduce(s3, Redo, now);
    assert s4 == s3.(layers := s2.layers, activeLayerId := s2.activeLayerId, historyIndex := 2);
  }
}
