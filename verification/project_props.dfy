/** What the reducer guarantees: the history bounds, the no-op guards,
    undo/redo, and the well-formedness of the layer collection. */
module ProjectProps {
  import opened Types
  import opened Project

  /** The undo log's bounds, which hold from the first INIT_GRID or
      LOAD_PROJECT on. */
  predicate HistoryInv(s: State)
  {
    0 <= s.historyIndex < |s.history| <= HistoryLimit
  }

  /** A layer list the editor can work on: never empty, ids distinct, the
      active id names one of them, every grid of the project's shape. */
  predicate LayersOk(layers: seq<Layer>, active: string, width: nat, height: nat)
  {
    |layers| >= 1 && UniqueIds(layers) && HasId(layers, active) &&
    forall l :: l in layers ==> GridWf(l.grid, width, height)
  }

  predicate Valid(s: State)
  {
    LayersOk(s.layers, s.activeLayerId, s.gridWidth, s.gridHeight) &&
    HistoryInv(s) &&
    forall e :: e in s.history ==> LayersOk(e.layers, e.activeLayerId, s.gridWidth, s.gridHeight)
  }

  /** The current layers are the ones the history index points at; only
      structural layer edits break this. */
  predicate Synced(s: State)
  {
    0 <= s.historyIndex < |s.history| &&
    s.history[s.historyIndex] == Snapshot(s.layers, s.activeLayerId)
  }

  /** What the editor's callers guarantee beyond `Dispatchable`: the
      dialog bounds of a new board, a well-formed loaded project, a clock
      reading that gives a fresh id, an existing layer to select and a
      painted grid of the board's shape. */
  predicate Admissible(s: State, a: Action, now: nat)
  {
    Dispatchable(s, a) &&
    match a
    case InitGrid(width, height) => 0 < width <= 200 && 0 < height <= 200
    case LoadProject(layers, active, width, height) => LayersOk(layers, active, width, height)
    case AddLayer => !HasId(s.layers, LayerId(now))
    case SelectLayer(id) => HasId(s.layers, id)
    case UpdateGrid(grid, _) => GridWf(grid, s.gridWidth, s.gridHeight)
    case _ => true
  }

  // ---------------------------------------------------------------------
  // Starting a project

  lemma InitGridCreatesOneLayer(s: State, width: nat, height: nat, now: nat)
    requires 0 < width <= 200 && 0 < height <= 200
    ensures var r := Reduce(s, InitGrid(width, height), now);
      r.gridWidth == width && r.gridHeight == height &&
      |r.layers| == 1 && r.layers[0].isVisible && r.activeLayerId == r.layers[0].id &&
      GridWf(r.layers[0].grid, width, height) &&
      (forall y, x :: 0 <= y < height && 0 <= x < width ==> r.layers[0].grid[y][x] == None) &&
      r.history == [Snapshot(r.layers, r.activeLayerId)] && r.historyIndex == 0 &&
      Valid(r)
  {
    var r := Reduce(s, InitGrid(width, height), now);
    assert r.layers[0] in r.layers;
  }

  lemma LoadProjectDiscardsHistory(s: State, layers: seq<Layer>, active: string, width: nat, height: nat, now: nat)
    ensures var r := Reduce(s, LoadProject(layers, active, width, height), now);
      r.layers == layers && r.activeLayerId == active &&
      r.gridWidth == width && r.gridHeight == height &&
      r.history == [Snapshot(layers, active)] && r.historyIndex == 0 &&
      !CanUndo(r) && !CanRedo(r)
  {
  }

  // ---------------------------------------------------------------------
  // Adding and deleting layers

  lemma AddLayerBeforeInitIsNoOp(s: State, now: nat)
    requires s.gridWidth == 0
    ensures Reduce(s, AddLayer, now) == s
  {
  }

  lemma AddLayerPrepends(s: State, now: nat)
    requires s.gridWidth > 0
    ensures var r := Reduce(s, AddLayer, now);
      |r.layers| == |s.layers| + 1 && r.layers[1..] == s.layers &&
      r.layers[0].id == LayerId(now) && r.layers[0].isVisible &&
      GridWf(r.layers[0].grid, s.gridWidth, s.gridHeight) &&
      (forall y, x :: 0 <= y < s.gridHeight && 0 <= x < s.gridWidth ==> r.layers[0].grid[y][x] == None) &&
      r.activeLayerId == r.layers[0].id &&
      r.history == s.history && r.historyIndex == s.historyIndex
  {
  }

  lemma DeleteLastLayerIsNoOp(s: State, id: string, now: nat)
    requires |s.layers| <= 1
    ensures Reduce(s, DeleteLayer(id), now) == s
  {
  }

  /** With distinct ids, removing the layer at position k keeps all the
      others, in their order. */
  lemma {:induction false} WithoutRemovesOne(layers: seq<Layer>, k: nat)
    requires UniqueIds(layers) && k < |layers|
    ensures Without(layers, layers[k].id) == layers[..k] + layers[k + 1..]
  {
    var id := layers[k].id;
    var tail := layers[1..];
    if k == 0 {
      assert forall i :: 0 <= i < |tail| ==> tail[i] == layers[i + 1];
      WithoutAbsent(tail, id);
      assert layers[..0] + layers[1..] == tail;
    } else {
      assert layers[0].id != id;
      assert UniqueIds(tail) by {
        forall i, j | 0 <= i < j < |tail| ensures tail[i].id != tail[j].id {
          assert tail[i] == layers[i + 1] && tail[j] == layers[j + 1];
        }
      }
      assert tail[k - 1] == layers[k];
      WithoutRemovesOne(tail, k - 1);
      assert Without(layers, id) == [layers[0]] + (tail[..k - 1] + tail[k..]);
      ConsSplice(layers, k);
    }
  }

  /** Dropping element k of a sequence is keeping its head and dropping
      element k - 1 of its tail. */
  lemma ConsSplice<T>(s: seq<T>, k: nat)
    requires 0 < k < |s|
    ensures [s[0]] + (s[1..][..k - 1] + s[1..][k..]) == s[..k] + s[k + 1..]
  {
    assert s[1..][..k - 1] == s[1..k] && s[1..][k..] == s[k + 1..];
    assert [s[0]] + s[1..k] == s[..k];
  }

  /** Filtering an id that no layer has changes nothing. */
  lemma {:induction false} WithoutAbsent(layers: seq<Layer>, id: string)
    requires forall i :: 0 <= i < |layers| ==> layers[i].id != id
    ensures Without(layers, id) == layers
  {
    if layers != [] {
      WithoutAbsent(layers[1..], id);
    }
  }

  lemma UniqueIdsRemove(layers: seq<Layer>, k: nat)
    requires UniqueIds(layers) && k < |layers|
    ensures UniqueIds(layers[..k] + layers[k + 1..])
  {
    var r := layers[..k] + layers[k + 1..];
    forall i, j | 0 <= i < j < |r| ensures r[i].id != r[j].id {
      var i' := if i < k then i else i + 1;
      var j' := if j < k then j else j + 1;
      assert r[i] == layers[i'] && r[j] == layers[j'];
    }
  }

  lemma DeleteLayerRemoves(s: State, k: nat, now: nat)
    requires Valid(s) && |s.layers| >= 2 && k < |s.layers|
    ensures var id := s.layers[k].id;
      Dispatchable(s, DeleteLayer(id)) &&
      var r := Reduce(s, DeleteLayer(id), now);
      r.layers == s.layers[..k] + s.layers[k + 1..] &&
      !HasId(r.layers, id) &&
      r.activeLayerId == (if id == s.activeLayerId then r.layers[0].id else s.activeLayerId) &&
      r.history == s.history && r.historyIndex == s.historyIndex &&
      Valid(r)
  {
    var id := s.layers[k].id;
    WithoutRemovesOne(s.layers, k);
    var rest := s.layers[..k] + s.layers[k + 1..];
    assert |rest| >= 1;
    assert Dispatchable(s, DeleteLayer(id)) by {
      assert rest[0] in rest;
    }
    var r := Reduce(s, DeleteLayer(id), now);
    UniqueIdsRemove(s.layers, k);
    if id == s.activeLayerId {
      assert r.layers[0] in r.layers;
    } else {
      var l :| l in s.layers && l.id == s.activeLayerId;
      assert l in r.layers;
    }
  }

  // ---------------------------------------------------------------------
  // Structural edits

  lemma SelectLayerOnlyChangesActive(s: State, id: string, now: nat)
    ensures Reduce(s, SelectLayer(id), now) == s.(activeLayerId := id)
  {
  }

  lemma ToggleTwiceIsIdentity(s: State, id: string, now: nat)
    ensures Reduce(Reduce(s, ToggleLayerVisibility(id), now), ToggleLayerVisibility(id), now) == s
  {
    var r := Reduce(Reduce(s, ToggleLayerVisibility(id), now), ToggleLayerVisibility(id), now);
    assert r.layers == s.layers;
  }

  lemma RenameOnlyTouchesNames(s: State, id: string, name: string, now: nat)
    ensures var r := Reduce(s, RenameLayer(id, name), now);
      |r.layers| == |s.layers| &&
      (forall i :: 0 <= i < |s.layers| ==>
        r.layers[i] == (if s.layers[i].id == id then s.layers[i].(name := name) else s.layers[i])) &&
      r.activeLayerId == s.activeLayerId && r.history == s.history && r.historyIndex == s.historyIndex
  {
  }

  /** Taking a layer out and putting it back elsewhere keeps every layer. */
  lemma MovePermutes(L: seq<Layer>, from: nat, to: nat)
    requires from < |L| && to < |L|
    ensures multiset(Move(L, from, to)) == multiset(L)
  {
    var R := Move(L, from, to);
    assert R == R[..to] + [R[to]] + R[to + 1..];
    assert L == L[..from] + [L[from]] + L[from + 1..];
    calc {
      multiset(R);
      multiset(R[..to] + R[to + 1..]) + multiset{R[to]};
      multiset(L[..from] + L[from + 1..]) + multiset{L[from]};
      multiset(L);
    }
  }

  lemma ReorderIsPermutation(s: State, from: nat, to: nat, now: nat)
    requires from < |s.layers| && to < |s.layers|
    ensures var r := Reduce(s, ReorderLayers(from, to), now);
      |r.layers| == |s.layers| && r.layers[to] == s.layers[from] &&
      r.layers[..to] + r.layers[to + 1..] == s.layers[..from] + s.layers[from + 1..] &&
      multiset(r.layers) == multiset(s.layers) &&
      r.activeLayerId == s.activeLayerId && r.history == s.history && r.historyIndex == s.historyIndex
  {
    var r := Reduce(s, ReorderLayers(from, to), now);
    assert r == s.(layers := Move(s.layers, from, to));
    MovePermutes(s.layers, from, to);
  }

  /** Hovering past the last layer drops the dragged layer at the end,
      since `splice` clamps its start index. */
  lemma ReorderPastEndAppends(s: State, from: nat, to: nat, now: nat)
    requires from < |s.layers| <= to
    ensures Reduce(s, ReorderLayers(from, to), now).layers == s.layers[..from] + s.layers[from + 1..] + [s.layers[from]]
  {
    var n := |s.layers|;
    var R := Move(s.layers, from, n - 1);
    assert Reduce(s, ReorderLayers(from, to), now).layers == R;
    assert R[n..] == [];
    assert R == R[..n - 1] + [R[n - 1]];
  }

  /** Dragging a layer back to where it came from undoes the drag. */
  lemma ReorderBackRestores(s: State, from: nat, to: nat, now: nat)
    requires from < |s.layers| && to < |s.layers|
    ensures var r := Reduce(s, ReorderLayers(from, to), now);
      Reduce(r, ReorderLayers(to, from), now) == s
  {
    var L := s.layers;
    var M := Move(L, from, to);
    var B := Move(M, to, from);
    assert B[..from] + B[from + 1..] == L[..from] + L[from + 1..];
    assert B[from] == L[from];
    assert B == B[..from] + [B[from]] + B[from + 1..];
    assert L == L[..from] + [L[from]] + L[from + 1..];
    assert B[..from] == L[..from] by {
      assert (B[..from] + B[from + 1..])[..from] == B[..from];
      assert (L[..from] + L[from + 1..])[..from] == L[..from];
    }
    assert B[from + 1..] == L[from + 1..] by {
      assert (B[..from] + B[from + 1..])[from..] == B[from + 1..];
      assert (L[..from] + L[from + 1..])[from..] == L[from + 1..];
    }
  }

  // ---------------------------------------------------------------------
  // Committing a grid

  lemma UpdateGridCommits(s: State, grid: Grid, layerId: string, now: nat)
    requires HistoryInv(s)
    ensures var r := Reduce(s, UpdateGrid(grid, layerId), now);
      |r.layers| == |s.layers| &&
      (forall i :: 0 <= i < |s.layers| ==>
        r.layers[i] == (if s.layers[i].id == layerId then s.layers[i].(grid := grid) else s.layers[i])) &&
      HistoryInv(r) && Synced(r) && !CanRedo(r) &&
      r.historyIndex == |r.history| - 1 &&
      r.history[..r.historyIndex] ==
        s.history[(if s.historyIndex + 1 == HistoryLimit then 1 else 0)..s.historyIndex + 1]
  {
  }

  /** Editing from a past point of the history throws the redo branch
      away: only what was at or before the index survives. */
  lemma CommitAfterUndoPrunesRedo(s: State, grid: Grid, layerId: string, now: nat)
    requires HistoryInv(s) && CanRedo(s)
    ensures var r := Reduce(s, UpdateGrid(grid, layerId), now);
      |r.history| <= s.historyIndex + 2 &&
      forall i :: 0 <= i < |r.history| - 1 ==> r.history[i] in s.history[..s.historyIndex + 1]
  {
  }

  // ---------------------------------------------------------------------
  // Undo and redo

  /** The toolbar enables undo exactly when undo does something. */
  lemma CanUndoExact(s: State, now: nat)
    ensures Reduce(s, Undo, now) != s <==> CanUndo(s)
  {
  }

  /** The toolbar enables redo exactly when redo does something. */
  lemma CanRedoExact(s: State, now: nat)
    ensures Reduce(s, Redo, now) != s <==> CanRedo(s)
  {
  }

  lemma UndoRestoresPrevious(s: State, now: nat)
    requires HistoryInv(s) && CanUndo(s)
    ensures var r := Reduce(s, Undo, now);
      r.historyIndex == s.historyIndex - 1 && Synced(r) && HistoryInv(r) &&
      r.layers == s.history[s.historyIndex - 1].layers &&
      r.activeLayerId == s.history[s.historyIndex - 1].activeLayerId &&
      r.gridWidth == s.gridWidth && r.gridHeight == s.gridHeight
  {
  }

  lemma RedoRestoresNext(s: State, now: nat)
    requires HistoryInv(s) && CanRedo(s)
    ensures var r := Reduce(s, Redo, now);
      r.historyIndex == s.historyIndex + 1 && Synced(r) && HistoryInv(r) &&
      r.layers == s.history[s.historyIndex + 1].layers &&
      r.activeLayerId == s.history[s.historyIndex + 1].activeLayerId &&
      r.gridWidth == s.gridWidth && r.gridHeight == s.gridHeight
  {
  }

  /** Undo then redo lands on the entry the index pointed at; it is the
      identity when the state was in step with that entry. */
  lemma UndoThenRedo(s: State, now: nat)
    requires HistoryInv(s) && CanUndo(s)
    ensures var r := Reduce(Reduce(s, Undo, now), Redo, now);
      r.historyIndex == s.historyIndex && r.history == s.history &&
      r.layers == s.history[s.historyIndex].layers &&
      r.activeLayerId == s.history[s.historyIndex].activeLayerId &&
      (Synced(s) ==> r == s)
  {
  }

  lemma RedoThenUndo(s: State, now: nat)
    requires HistoryInv(s) && CanRedo(s)
    ensures var r := Reduce(Reduce(s, Redo, now), Undo, now);
      r.historyIndex == s.historyIndex && r.history == s.history &&
      r.layers == s.history[s.historyIndex].layers &&
      r.activeLayerId == s.history[s.historyIndex].activeLayerId &&
      (Synced(s) ==> r == s)
  {
  }

  /** A layer added after the last commit is not in the history, so an
      undo followed by a redo drops it again. */
  lemma UndoRedoLosesAddedLayer(s: State, now: nat)
    requires HistoryInv(s) && Synced(s) && CanUndo(s) && s.gridWidth > 0
    ensures var added := Reduce(s, AddLayer, now);
      var r := Reduce(Reduce(added, Undo, now), Redo, now);
      r.layers == s.layers && r.layers != added.layers
  {
    var added := Reduce(s, AddLayer, now);
    assert |added.layers| == |s.layers| + 1;
  }

  // ---------------------------------------------------------------------
  // Invariants kept by every action

  lemma {:induction false} HistoryInvPreserved(s: State, a: Action, now: nat)
    requires Dispatchable(s, a)
    requires HistoryInv(s) || a.InitGrid? || a.LoadProject?
    ensures HistoryInv(Reduce(s, a, now))
  {
  }

  lemma UniqueIdsPrepend(l: Layer, layers: seq<Layer>)
    requires UniqueIds(layers) && !HasId(layers, l.id)
    ensures UniqueIds([l] + layers)
  {
    var r := [l] + layers;
    forall i, j | 0 <= i < j < |r| ensures r[i].id != r[j].id {
      assert r[j] == layers[j - 1];
      if i == 0 {
        assert r[j] in layers;
      }
    }
  }

  lemma UniqueIdsMove(layers: seq<Layer>, from: nat, to: nat)
    requires UniqueIds(layers) && from < |layers| && to < |layers|
    ensures UniqueIds(Move(layers, from, to))
  {
    var rest := layers[..from] + layers[from + 1..];
    UniqueIdsRemove(layers, from);
    var x := layers[from];
    var m := Move(layers, from, to);
    assert m == rest[..to] + [x] + rest[to..];
    forall k | 0 <= k < |rest| ensures rest[k].id != x.id {
      var k' := if k < from then k else k + 1;
      assert rest[k] == layers[k'];
    }
    forall i, j | 0 <= i < j < |m| ensures m[i].id != m[j].id {
      if i != to && j != to {
        var i' := if i < to then i else i - 1;
        var j' := if j < to then j else j - 1;
        assert m[i] == rest[i'] && m[j] == rest[j'];
      } else if i == to {
        assert m[j] == rest[j - 1];
      } else {
        assert m[i] == rest[i];
      }
    }
  }

  lemma {:induction false} ValidPreserved(s: State, a: Action, now: nat)
    requires Valid(s) && Admissible(s, a, now)
    ensures Valid(Reduce(s, a, now))
  {
    match a
    case InitGrid(w, h) =>
      InitGridCreatesOneLayer(s, w, h, now);
    case LoadProject(_, _, _, _) =>
    case AddLayer =>
      ValidAfterAdd(s, now);
    case DeleteLayer(id) =>
      ValidAfterDelete(s, id, now);
    case SelectLayer(id) =>
    case ToggleLayerVisibility(id) =>
      var r := Reduce(s, a, now);
      MapPreservesIds(s.layers, r.layers, s.activeLayerId);
      MapPreservesShape(s.layers, r.layers, s.gridWidth, s.gridHeight);
    case ReorderLayers(from, to) =>
      ValidAfterReorder(s, from, to, now);
    case RenameLayer(id, name) =>
      var r := Reduce(s, a, now);
      MapPreservesIds(s.layers, r.layers, s.activeLayerId);
      MapPreservesShape(s.layers, r.layers, s.gridWidth, s.gridHeight);
    case UpdateGrid(grid, layerId) =>
      ValidAfterCommit(s, grid, layerId, now);
    case Undo =>
      if CanUndo(s) {
        assert s.history[s.historyIndex - 1] in s.history;
      }
    case Redo =>
      if CanRedo(s) {
        assert s.history[s.historyIndex + 1] in s.history;
      }
  }

  lemma ValidAfterAdd(s: State, now: nat)
    requires Valid(s) && !HasId(s.layers, LayerId(now))
    ensures Valid(Reduce(s, AddLayer, now))
  {
    var r := Reduce(s, AddLayer, now);
    if s.gridWidth > 0 {
      UniqueIdsPrepend(r.layers[0], s.layers);
      var l :| l in s.layers && l.id == s.activeLayerId;
      assert r.layers[0] in r.layers;
    }
  }

  lemma ValidAfterDelete(s: State, id: string, now: nat)
    requires Valid(s) && Dispatchable(s, DeleteLayer(id))
    ensures Valid(Reduce(s, DeleteLayer(id), now))
  {
    if |s.layers| > 1 {
      if HasId(s.layers, id) {
        var l :| l in s.layers && l.id == id;
        var k :| 0 <= k < |s.layers| && s.layers[k] == l;
        DeleteLayerRemoves(s, k, now);
      } else {
        WithoutAbsent(s.layers, id);
      }
    }
  }

  lemma ValidAfterReorder(s: State, from: nat, to: nat, now: nat)
    requires Valid(s) && from < |s.layers|
    ensures Valid(Reduce(s, ReorderLayers(from, to), now))
  {
    var t := if to < |s.layers| then to else |s.layers| - 1;
    var r := Reduce(s, ReorderLayers(from, to), now);
    assert r == Reduce(s, ReorderLayers(from, t), now);
    UniqueIdsMove(s.layers, from, t);
    ReorderIsPermutation(s, from, t, now);
    var l :| l in s.layers && l.id == s.activeLayerId;
    assert l in multiset(r.layers);
    forall l | l in r.layers ensures GridWf(l.grid, s.gridWidth, s.gridHeight) {
      assert l in multiset(s.layers);
    }
  }

  lemma ValidAfterCommit(s: State, grid: Grid, layerId: string, now: nat)
    requires Valid(s) && GridWf(grid, s.gridWidth, s.gridHeight)
    ensures Valid(Reduce(s, UpdateGrid(grid, layerId), now))
  {
    var r := Reduce(s, UpdateGrid(grid, layerId), now);
    MapPreservesIds(s.layers, r.layers, s.activeLayerId);
    MapPreservesShape(s.layers, r.layers, s.gridWidth, s.gridHeight);
    var n := |r.history|;
    forall e | e in r.history ensures LayersOk(e.layers, e.activeLayerId, r.gridWidth, r.gridHeight) {
      var k :| 0 <= k < n && r.history[k] == e;
      if k < n - 1 {
        assert e in r.history[..n - 1];
      }
    }
  }

  /** A layer map that keeps every grid either as it was or replaced by
      one of the board's shape keeps every grid of that shape. */
  lemma MapPreservesShape(before: seq<Layer>, after: seq<Layer>, width: nat, height: nat)
    requires |before| == |after|
    requires forall l :: l in before ==> GridWf(l.grid, width, height)
    requires forall i :: 0 <= i < |after| ==> after[i].grid == before[i].grid || GridWf(after[i].grid, width, height)
    ensures forall l :: l in after ==> GridWf(l.grid, width, height)
  {
    forall l | l in after ensures GridWf(l.grid, width, height) {
      var i :| 0 <= i < |after| && after[i] == l;
      assert before[i] in before;
    }
  }

  /** A layer map that keeps every id in place keeps the ids distinct and
      the active id resolvable. */
  lemma MapPreservesIds(before: seq<Layer>, after: seq<Layer>, active: string)
    requires |before| == |after|
    requires forall i :: 0 <= i < |before| ==> after[i].id == before[i].id
    requires UniqueIds(before) && HasId(before, active)
    ensures UniqueIds(after) && HasId(after, active)
  {
    var l :| l in before && l.id == active;
    var i :| 0 <= i < |before| && before[i] == l;
    assert after[i] in after;
  }
}
