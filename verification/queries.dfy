/** The read-only views the editor computes from the layers: the extent of
    the drawing, the per-colour bead count and the count inside a selection
    rectangle. All three look only at visible layers and count a cell as a
    bead when it is truthy. */
module Queries {
  import opened Types

  /** One bead of one visible layer: its cell and its colour. */
  datatype Bead = Bead(x: int, y: int, color: string)

  /** Layer l shows bead b: it is visible and holds b's colour at b's cell. */
  predicate Shows(l: Layer, b: Bead)
  {
    l.isVisible && InGrid(l.grid, b.x, b.y) && l.grid[b.y][b.x] == Some(b.color) && b.color != []
  }

  function Min(a: int, b: int): int { if a <= b then a else b }
  function Max(a: int, b: int): int { if a >= b then a else b }

  // ---------------------------------------------------------------------
  // The beads, in the order the `forEach` loops visit them

  /** The beads among the first n cells of row y. */
  function RowBeads(row: seq<GridColor>, y: int, n: nat): seq<Bead>
    requires n <= |row|
  {
    if n == 0 then []
    else RowBeads(row, y, n - 1) + (if Occupied(row[n - 1]) then [Bead(n - 1, y, row[n - 1].value)] else [])
  }

  /** The beads of the first m rows of a grid. */
  function GridBeads(g: Grid, m: nat): seq<Bead>
    requires m <= |g|
  {
    if m == 0 then [] else GridBeads(g, m - 1) + RowBeads(g[m - 1], m - 1, |g[m - 1]|)
  }

  /** The beads of the first n layers, hidden layers contributing none. */
  function LayersBeads(layers: seq<Layer>, n: nat): seq<Bead>
    requires n <= |layers|
  {
    if n == 0 then []
    else
      LayersBeads(layers, n - 1) +
        (if layers[n - 1].isVisible then GridBeads(layers[n - 1].grid, |layers[n - 1].grid|) else [])
  }

  /** Every bead on the board, once per visible layer that holds it. */
  function AllBeads(layers: seq<Layer>): seq<Bead>
  {
    LayersBeads(layers, |layers|)
  }

  /** A row's bead list holds exactly its truthy cells. */
  lemma {:induction false} RowBeadsExact(row: seq<GridColor>, y: int, n: nat)
    requires n <= |row|
    ensures forall b :: b in RowBeads(row, y, n) <==>
      b.y == y && 0 <= b.x < n && row[b.x] == Some(b.color) && b.color != []
  {
    if n > 0 {
      RowBeadsExact(row, y, n - 1);
    }
  }

  /** A grid's bead list holds exactly its truthy cells. */
  lemma {:induction false} GridBeadsExact(g: Grid, m: nat)
    requires m <= |g|
    ensures forall b :: b in GridBeads(g, m) <==>
      0 <= b.y < m && InGrid(g, b.x, b.y) && g[b.y][b.x] == Some(b.color) && b.color != []
  {
    if m > 0 {
      GridBeadsExact(g, m - 1);
      RowBeadsExact(g[m - 1], m - 1, |g[m - 1]|);
    }
  }

  /** The board's bead list holds exactly what the visible layers show. */
  lemma {:induction false} LayersBeadsExact(layers: seq<Layer>, n: nat)
    requires n <= |layers|
    ensures forall b :: b in LayersBeads(layers, n) <==> exists k :: 0 <= k < n && Shows(layers[k], b)
  {
    if n > 0 {
      LayersBeadsExact(layers, n - 1);
      var l := layers[n - 1];
      GridBeadsExact(l.grid, |l.grid|);
      forall b | Shows(l, b) ensures b in LayersBeads(layers, n) { }
    }
  }

  lemma AllBeadsExact(layers: seq<Layer>)
    ensures forall b :: b in AllBeads(layers) <==> exists k :: 0 <= k < |layers| && Shows(layers[k], b)
  {
    LayersBeadsExact(layers, |layers|);
  }

  // ---------------------------------------------------------------------
  // Folding over beads

  /** Left fold of a step over a sequence of beads. */
  function Fold<S>(f: (S, Bead) -> S, s: S, bs: seq<Bead>): S
  {
    if bs == [] then s else f(Fold(f, s, bs[..|bs| - 1]), bs[|bs| - 1])
  }

  lemma FoldSnoc<S>(f: (S, Bead) -> S, s: S, bs: seq<Bead>, b: Bead)
    ensures Fold(f, s, bs + [b]) == f(Fold(f, s, bs), b)
  {
    assert (bs + [b])[..|bs|] == bs;
  }

  /** Folding over a concatenation folds over the second part from where
      the first left off, which is what nested loops do. */
  lemma {:induction false} FoldAppend<S>(f: (S, Bead) -> S, s: S, a: seq<Bead>, b: seq<Bead>)
    ensures Fold(f, s, a + b) == Fold(f, Fold(f, s, a), b)
    decreases |b|
  {
    if b == [] {
      assert a + b == a;
    } else {
      var b' := b[..|b| - 1];
      assert a + b == (a + b') + [b[|b| - 1]];
      assert b == b' + [b[|b| - 1]];
      FoldSnoc(f, s, a + b', b[|b| - 1]);
      FoldAppend(f, s, a, b');
      FoldSnoc(f, Fold(f, s, a), b', b[|b| - 1]);
    }
  }

  // ---------------------------------------------------------------------
  // drawingDimensions

  /** The running bounding box: none before the first bead. */
  datatype Box = NoBox | Box(minX: int, maxX: int, minY: int, maxY: int)

  /** `Math.min`/`Math.max` on the four running bounds: the smallest box
      holding both the old box and the bead. */
  function Grow(box: Box, b: Bead): (r: Box)
    ensures r.Box? && r.minX <= b.x <= r.maxX && r.minY <= b.y <= r.maxY
    ensures box.Box? ==> r.minX <= box.minX && box.maxX <= r.maxX && r.minY <= box.minY && box.maxY <= r.maxY
    ensures (r.minX == b.x || (box.Box? && r.minX == box.minX)) && (r.maxX == b.x || (box.Box? && r.maxX == box.maxX))
    ensures (r.minY == b.y || (box.Box? && r.minY == box.minY)) && (r.maxY == b.y || (box.Box? && r.maxY == box.maxY))
  {
    match box
    case NoBox => Box(b.x, b.x, b.y, b.y)
    case Box(x0, x1, y0, y1) => Box(Min(x0, b.x), Max(x1, b.x), Min(y0, b.y), Max(y1, b.y))
  }

  function Bounds(bs: seq<Bead>): Box
  {
    Fold(Grow, NoBox, bs)
  }

  /** Width and height of a box, 0 by 0 for no box. */
  function Extent(box: Box): (int, int)
  {
    match box
    case NoBox => (0, 0)
    case Box(x0, x1, y0, y1) => (x1 - x0 + 1, y1 - y0 + 1)
  }

  /** The box of some beads is the smallest box holding them all: every
      bead lies inside it and each edge touches a bead. */
  lemma {:induction false} BoundsTight(bs: seq<Bead>)
    ensures Bounds(bs).NoBox? <==> bs == []
    ensures Bounds(bs).Box? ==>
      var box := Bounds(bs);
      (forall b :: b in bs ==> box.minX <= b.x <= box.maxX && box.minY <= b.y <= box.maxY) &&
      (exists b :: b in bs && b.x == box.minX) && (exists b :: b in bs && b.x == box.maxX) &&
      (exists b :: b in bs && b.y == box.minY) && (exists b :: b in bs && b.y == box.maxY)
  {
    if bs != [] {
      var init, last := bs[..|bs| - 1], bs[|bs| - 1];
      assert bs == init + [last];
      BoundsTight(init);
      var box := Bounds(bs);
      assert box == Grow(Bounds(init), last);
      forall b | b in bs ensures box.minX <= b.x <= box.maxX && box.minY <= b.y <= box.maxY {
        if b != last {
          assert b in init;
        }
      }
      if init != [] {
        var inner := Bounds(init);
        var b0 :| b0 in init && b0.x == inner.minX;
        var b1 :| b1 in init && b1.x == inner.maxX;
        var b2 :| b2 in init && b2.y == inner.minY;
        var b3 :| b3 in init && b3.y == inner.maxY;
        assert box.minX == b0.x || box.minX == last.x;
        assert box.maxX == b1.x || box.maxX == last.x;
        assert box.minY == b2.y || box.minY == last.y;
        assert box.maxY == b3.y || box.maxY == last.y;
      }
    }
  }

  /** The extent of the drawing: `0x0` exactly when no visible layer holds
      a bead, otherwise the width and height of the smallest box holding
      every bead. */
  lemma DimensionsMeaning(layers: seq<Layer>)
    ensures Extent(Bounds(AllBeads(layers))) == (0, 0) <==> forall k, b :: 0 <= k < |layers| ==> !Shows(layers[k], b)
    ensures Bounds(AllBeads(layers)).Box? ==>
      var box := Bounds(AllBeads(layers));
      Extent(box) == (box.maxX - box.minX + 1, box.maxY - box.minY + 1) &&
      (forall k, b :: 0 <= k < |layers| && Shows(layers[k], b) ==>
        box.minX <= b.x <= box.maxX && box.minY <= b.y <= box.maxY) &&
      (exists b :: b in AllBeads(layers) && b.x == box.minX) && (exists b :: b in AllBeads(layers) && b.x == box.maxX) &&
      (exists b :: b in AllBeads(layers) && b.y == box.minY) && (exists b :: b in AllBeads(layers) && b.y == box.maxY)
  {
    var bs := AllBeads(layers);
    BoundsTight(bs);
    AllBeadsExact(layers);
    if bs != [] {
      assert bs[0] in bs;
      var k :| 0 <= k < |layers| && Shows(layers[k], bs[0]);
    } else {
      forall k, b | 0 <= k < |layers| ensures !Shows(layers[k], b) {
        assert b !in bs;
      }
    }
  }

  /** The running state of the `drawingDimensions` loop, as a box. */
  function Summary(hasBeads: bool, minX: int, maxX: int, minY: int, maxY: int): Box
  {
    if hasBeads then Box(minX, maxX, minY, maxY) else NoBox
  }

  /** One more cell of the row: a bead widens the box, an empty cell
      leaves it. */
  lemma BoundRowStep(row: seq<GridColor>, y: int, x: nat, start: Box)
    requires x < |row|
    ensures Occupied(row[x]) ==>
      Fold(Grow, start, RowBeads(row, y, x + 1)) == Grow(Fold(Grow, start, RowBeads(row, y, x)), Bead(x, y, row[x].value))
    ensures !Occupied(row[x]) ==> RowBeads(row, y, x + 1) == RowBeads(row, y, x)
  {
    if Occupied(row[x]) {
      var b := Bead(x, y, row[x].value);
      assert RowBeads(row, y, x + 1) == RowBeads(row, y, x) + [b];
      FoldSnoc(Grow, start, RowBeads(row, y, x), b);
    }
  }

  /** The innermost `row.forEach` of drawingDimensions: widen the box
      around each bead of row y. */
  method BoundRow(row: seq<GridColor>, y: int, hasBeads: bool, minX: int, maxX: int, minY: int, maxY: int)
    returns (has: bool, x0: int, x1: int, y0: int, y1: int)
    ensures Summary(has, x0, x1, y0, y1) == Fold(Grow, Summary(hasBeads, minX, maxX, minY, maxY), RowBeads(row, y, |row|))
  {
    ghost var start := Summary(hasBeads, minX, maxX, minY, maxY);
    has, x0, x1, y0, y1 := hasBeads, minX, maxX, minY, maxY;
    var x := 0;
    while x < |row|
      invariant 0 <= x <= |row|
      invariant Summary(has, x0, x1, y0, y1) == Fold(Grow, start, RowBeads(row, y, x))
    {
      if Occupied(row[x]) {
        ghost var b := Bead(x, y, row[x].value);
        ghost var before := Summary(has, x0, x1, y0, y1);
        BoundRowStep(row, y, x, start);
        if has {
          x0, x1, y0, y1 := Min(x0, x), Max(x1, x), Min(y0, y), Max(y1, y);
        } else {
          // Math.min(Infinity, x) is x, and so on for the other three
          x0, x1, y0, y1 := x, x, y, y;
        }
        has := true;
        assert Summary(has, x0, x1, y0, y1) == Grow(before, b);
      } else {
        BoundRowStep(row, y, x, start);
      }
      x := x + 1;
    }
  }

  /** The `layer.grid.forEach` of drawingDimensions: every row in turn. */
  method BoundGrid(g: Grid, hasBeads: bool, minX: int, maxX: int, minY: int, maxY: int)
    returns (has: bool, x0: int, x1: int, y0: int, y1: int)
    ensures Summary(has, x0, x1, y0, y1) == Fold(Grow, Summary(hasBeads, minX, maxX, minY, maxY), GridBeads(g, |g|))
  {
    ghost var start := Summary(hasBeads, minX, maxX, minY, maxY);
    has, x0, x1, y0, y1 := hasBeads, minX, maxX, minY, maxY;
    var y := 0;
    while y < |g|
      invariant 0 <= y <= |g|
      invariant Summary(has, x0, x1, y0, y1) == Fold(Grow, start, GridBeads(g, y))
    {
      has, x0, x1, y0, y1 := BoundRow(g[y], y, has, x0, x1, y0, y1);
      FoldAppend(Grow, start, GridBeads(g, y), RowBeads(g[y], y, |g[y]|));
      y := y + 1;
    }
  }

  /** One more layer: a visible one widens the box around its beads, a
      hidden one leaves it. */
  lemma BoundLayerStep(layers: seq<Layer>, k: nat)
    requires k < |layers|
    ensures Bounds(LayersBeads(layers, k + 1)) ==
      if layers[k].isVisible then Fold(Grow, Bounds(LayersBeads(layers, k)), GridBeads(layers[k].grid, |layers[k].grid|))
      else Bounds(LayersBeads(layers, k))
  {
    if layers[k].isVisible {
      FoldAppend(Grow, NoBox, LayersBeads(layers, k), GridBeads(layers[k].grid, |layers[k].grid|));
    } else {
      assert LayersBeads(layers, k + 1) == LayersBeads(layers, k);
    }
  }

  /** drawingDimensions: a scan of every cell of every visible layer that
      widens the box around each bead. */
  method DrawingDimensions(layers: seq<Layer>) returns (width: int, height: int)
    ensures (width, height) == Extent(Bounds(AllBeads(layers)))
  {
    // minX..maxY start at the infinities: with hasBeads false they are unused
    var minX, minY, maxX, maxY := 0, 0, 0, 0;
    var hasBeads := false;
    var k := 0;
    while k < |layers|
      invariant 0 <= k <= |layers|
      invariant Summary(hasBeads, minX, maxX, minY, maxY) == Bounds(LayersBeads(layers, k))
    {
      var layer := layers[k];
      if layer.isVisible {
        hasBeads, minX, maxX, minY, maxY := BoundGrid(layer.grid, hasBeads, minX, maxX, minY, maxY);
      }
      BoundLayerStep(layers, k);
      k := k + 1;
    }
    if !hasBeads {
      return 0, 0;
    }
    return maxX - minX + 1, maxY - minY + 1;
  }

  // ---------------------------------------------------------------------
  // beadCount

  /** One more bead of b's colour: `counts[c] = (counts[c] || 0) + 1`. */
  function AddBead(counts: map<string, nat>, b: Bead): map<string, nat>
  {
    counts[b.color := (if b.color in counts then counts[b.color] else 0) + 1]
  }

  /** Counting a bead adds its colour as a key if it is new, raises that
      colour's count by one from zero or its old value, and leaves every
      other colour's count alone. */
  lemma AddBeadCounts(counts: map<string, nat>, b: Bead)
    ensures AddBead(counts, b).Keys == counts.Keys + {b.color}
    ensures AddBead(counts, b)[b.color] == if b.color in counts then counts[b.color] + 1 else 1
    ensures forall c :: c in counts && c != b.color ==> AddBead(counts, b)[c] == counts[c]
  {
  }

  function Tally(bs: seq<Bead>): map<string, nat>
  {
    Fold(AddBead, map[], bs)
  }

  /** The colours of some beads, with multiplicity. */
  function Colours(bs: seq<Bead>): (m: multiset<string>)
    ensures |m| == |bs|
  {
    if bs == [] then multiset{} else Colours(bs[..|bs| - 1]) + multiset{bs[|bs| - 1].color}
  }

  /** The tally has a key for exactly the colours present, and each key
      maps to the number of beads of that colour. */
  lemma {:induction false} TallyCounts(bs: seq<Bead>)
    ensures forall c :: c in Tally(bs) <==> c in Colours(bs)
    ensures forall c :: c in Tally(bs) ==> Tally(bs)[c] == Colours(bs)[c]
  {
    if bs != [] {
      var init := bs[..|bs| - 1];
      assert bs == init + [bs[|bs| - 1]];
      TallyCounts(init);
    }
  }

  /** The sum of a map's values. */
  ghost function Total(m: map<string, nat>): nat
    decreases |m.Keys|
  {
    if m == map[] then 0
    else
      var k :| k in m;
      assert (m - {k}).Keys < m.Keys;
      m[k] + Total(m - {k})
  }

  /** The sum does not depend on the key it starts from. */
  lemma {:induction false} TotalAt(m: map<string, nat>, k: string)
    requires k in m
    ensures Total(m) == m[k] + Total(m - {k})
    decreases |m.Keys|
  {
    var j :| j in m && Total(m) == m[j] + Total(m - {j});
    if j != k {
      assert (m - {k}).Keys < m.Keys && (m - {j}).Keys < m.Keys;
      TotalAt(m - {j}, k);
      TotalAt(m - {k}, j);
      assert m - {j} - {k} == m - {k} - {j};
    }
  }

  /** The values of the tally add up to the number of beads. */
  lemma {:induction false} TallyTotal(bs: seq<Bead>)
    ensures Total(Tally(bs)) == |bs|
  {
    if bs != [] {
      var init, b := bs[..|bs| - 1], bs[|bs| - 1];
      assert bs == init + [b];
      TallyTotal(init);
      var m := Tally(init);
      var m' := AddBead(m, b);
      assert Tally(bs) == m';
      TotalAt(m', b.color);
      assert m' - {b.color} == m - {b.color};
      if b.color in m {
        TotalAt(m, b.color);
      } else {
        assert m - {b.color} == m;
      }
    }
  }

  /** The per-colour count over all visible layers: each colour present
      maps to its number of beads, and the counts add up to the number of
      beads on the board. */
  lemma BeadCountMeaning(layers: seq<Layer>)
    ensures forall c :: c in Tally(AllBeads(layers)) <==> exists k, b :: 0 <= k < |layers| && Shows(layers[k], b) && b.color == c
    ensures forall c :: c in Tally(AllBeads(layers)) ==> Tally(AllBeads(layers))[c] == Colours(AllBeads(layers))[c]
    ensures Total(Tally(AllBeads(layers))) == |AllBeads(layers)|
  {
    var bs := AllBeads(layers);
    AllBeadsExact(layers);
    TallyCounts(bs);
    TallyTotal(bs);
    ColoursPresent(bs);
  }

  lemma {:induction false} ColoursPresent(bs: seq<Bead>)
    ensures forall c :: c in Colours(bs) <==> exists b :: b in bs && b.color == c
  {
    if bs != [] {
      var init := bs[..|bs| - 1];
      assert bs == init + [bs[|bs| - 1]];
      ColoursPresent(init);
    }
  }

  /** One more cell of the row: a bead is counted, an empty cell is not. */
  lemma TallyRowStep(row: seq<GridColor>, y: int, x: nat, start: map<string, nat>)
    requires x < |row|
    ensures Occupied(row[x]) ==>
      Fold(AddBead, start, RowBeads(row, y, x + 1)) == AddBead(Fold(AddBead, start, RowBeads(row, y, x)), Bead(x, y, row[x].value))
    ensures !Occupied(row[x]) ==> RowBeads(row, y, x + 1) == RowBeads(row, y, x)
  {
    if Occupied(row[x]) {
      var b := Bead(x, y, row[x].value);
      assert RowBeads(row, y, x + 1) == RowBeads(row, y, x) + [b];
      FoldSnoc(AddBead, start, RowBeads(row, y, x), b);
    }
  }

  /** The innermost `r.forEach` of beadCount: count each bead of row y
      under its colour. */
  method CountRowColours(row: seq<GridColor>, y: int, start: map<string, nat>) returns (counts: map<string, nat>)
    ensures counts == Fold(AddBead, start, RowBeads(row, y, |row|))
  {
    counts := start;
    var x := 0;
    while x < |row|
      invariant 0 <= x <= |row|
      invariant counts == Fold(AddBead, start, RowBeads(row, y, x))
    {
      var c := row[x];
      if Occupied(c) {
        TallyRowStep(row, y, x, start);
        counts := counts[c.value := (if c.value in counts then counts[c.value] else 0) + 1];
      } else {
        TallyRowStep(row, y, x, start);
      }
      x := x + 1;
    }
  }

  /** The `l.grid.forEach` of beadCount: every row in turn. */
  method CountGridColours(g: Grid, start: map<string, nat>) returns (counts: map<string, nat>)
    ensures counts == Fold(AddBead, start, GridBeads(g, |g|))
  {
    counts := start;
    var y := 0;
    while y < |g|
      invariant 0 <= y <= |g|
      invariant counts == Fold(AddBead, start, GridBeads(g, y))
    {
      counts := CountRowColours(g[y], y, counts);
      FoldAppend(AddBead, start, GridBeads(g, y), RowBeads(g[y], y, |g[y]|));
      y := y + 1;
    }
  }

  /** One more layer: a visible one has its beads counted, a hidden one
      none. */
  lemma TallyLayerStep(layers: seq<Layer>, k: nat)
    requires k < |layers|
    ensures Tally(LayersBeads(layers, k + 1)) ==
      if layers[k].isVisible then Fold(AddBead, Tally(LayersBeads(layers, k)), GridBeads(layers[k].grid, |layers[k].grid|))
      else Tally(LayersBeads(layers, k))
  {
    if layers[k].isVisible {
      FoldAppend(AddBead, map[], LayersBeads(layers, k), GridBeads(layers[k].grid, |layers[k].grid|));
    } else {
      assert LayersBeads(layers, k + 1) == LayersBeads(layers, k);
    }
  }

  /** beadCount: the same scan, counting each bead under its colour. */
  method BeadCount(layers: seq<Layer>) returns (counts: map<string, nat>)
    ensures counts == Tally(AllBeads(layers))
  {
    counts := map[];
    var k := 0;
    while k < |layers|
      invariant 0 <= k <= |layers|
      invariant counts == Tally(LayersBeads(layers, k))
    {
      var layer := layers[k];
      if layer.isVisible {
        counts := CountGridColours(layer.grid, counts);
      }
      TallyLayerStep(layers, k);
      k := k + 1;
    }
  }

  // ---------------------------------------------------------------------
  // The selection count

  /** A dragged selection: the corner where it started and where it ended. */
  datatype Area = Area(startX: int, startY: int, endX: int, endY: int)

  /** A rectangle with its corners in order, bounds included. */
  datatype Rect = Rect(minX: int, maxX: int, minY: int, maxY: int)

  function Normalize(a: Area): (r: Rect)
    ensures r.minX <= r.maxX && r.minY <= r.maxY
    ensures {r.minX, r.maxX} == {a.startX, a.endX} && {r.minY, r.maxY} == {a.startY, a.endY}
  {
    Rect(Min(a.startX, a.endX), Max(a.startX, a.endX), Min(a.startY, a.endY), Max(a.startY, a.endY))
  }

  predicate InRect(r: Rect, b: Bead)
  {
    r.minX <= b.x <= r.maxX && r.minY <= b.y <= r.maxY
  }

  /** The number of beads inside a rectangle. */
  function CountIn(bs: seq<Bead>, r: Rect): (n: nat)
    ensures n <= |bs|
  {
    if bs == [] then 0
    else CountIn(bs[..|bs| - 1], r) + (if InRect(r, bs[|bs| - 1]) then 1 else 0)
  }

  lemma {:induction false} CountInAppend(a: seq<Bead>, b: seq<Bead>, r: Rect)
    ensures CountIn(a + b, r) == CountIn(a, r) + CountIn(b, r)
    decreases |b|
  {
    if b == [] {
      assert a + b == a;
    } else {
      var b' := b[..|b| - 1];
      assert (a + b)[..|a + b| - 1] == a + b';
      CountInAppend(a, b', r);
    }
  }

  /** A rectangle holds some bead exactly when its count is positive. */
  lemma {:induction false} CountInPositive(bs: seq<Bead>, r: Rect)
    ensures CountIn(bs, r) > 0 <==> exists b :: b in bs && InRect(r, b)
  {
    if bs != [] {
      var init := bs[..|bs| - 1];
      assert bs == init + [bs[|bs| - 1]];
      CountInPositive(init, r);
    }
  }

  /** `grid[y]?.[x]`: the cell, or nothing off the grid. */
  function CellAt(g: Grid, x: int, y: int): (c: GridColor)
    ensures Occupied(c) <==> InGrid(g, x, y) && Occupied(g[y][x])
  {
    if InGrid(g, x, y) then g[y][x] else None
  }

  /** Truthy cells of row y with lo <= x <= hi. */
  function RowCount(g: Grid, y: int, lo: int, hi: int): nat
    decreases hi - lo
  {
    if hi < lo then 0 else RowCount(g, y, lo, hi - 1) + (if Occupied(CellAt(g, hi, y)) then 1 else 0)
  }

  /** Truthy cells of the rectangle's columns in rows r.minY through hi. */
  function RectCount(g: Grid, r: Rect, hi: int): nat
    decreases hi - r.minY
  {
    if hi < r.minY then 0 else RectCount(g, r, hi - 1) + RowCount(g, hi, r.minX, r.maxX)
  }

  /** What the selection loops add up over the first n layers. */
  function LayersCount(layers: seq<Layer>, r: Rect, n: nat): nat
    requires n <= |layers|
  {
    if n == 0 then 0
    else LayersCount(layers, r, n - 1) + (if layers[n - 1].isVisible then RectCount(layers[n - 1].grid, r, r.maxY) else 0)
  }

  /** Cells left of the grid, past its end, or in a row off the grid hold
      no bead. */
  lemma {:induction false} RowCountClip(g: Grid, y: int, lo: int, hi: int)
    ensures RowCount(g, y, lo, hi) == (if 0 <= y < |g| then RowCount(g, y, lo, Min(hi, |g[y]| - 1)) else 0)
    ensures hi < 0 ==> RowCount(g, y, lo, hi) == 0
    decreases hi - lo
  {
    if hi >= lo {
      RowCountClip(g, y, lo, hi - 1);
    }
  }

  /** Rows above the grid or below it hold no bead. */
  lemma {:induction false} RectCountClip(g: Grid, r: Rect, hi: int)
    ensures RectCount(g, r, hi) == RectCount(g, r, Min(hi, |g| - 1))
    ensures hi < 0 ==> RectCount(g, r, hi) == 0
    decreases hi - r.minY
  {
    if hi >= r.minY {
      RectCountClip(g, r, hi - 1);
      RowCountClip(g, hi, r.minX, r.maxX);
    }
  }

  lemma CountInSnoc(bs: seq<Bead>, b: Bead, r: Rect)
    ensures CountIn(bs + [b], r) == CountIn(bs, r) + (if InRect(r, b) then 1 else 0)
  {
    assert (bs + [b])[..|bs|] == bs;
  }

  /** The beads of a row prefix inside the rectangle are the truthy cells
      the selection's inner loop visits. */
  lemma {:induction false} RowBeadsInRect(g: Grid, y: nat, r: Rect, n: nat)
    requires y < |g| && n <= |g[y]|
    ensures CountIn(RowBeads(g[y], y, n), r) ==
      (if r.minY <= y <= r.maxY then RowCount(g, y, r.minX, Min(r.maxX, n - 1)) else 0)
  {
    if n == 0 {
      RowCountClip(g, y, r.minX, Min(r.maxX, -1));
    } else {
      var row := g[y];
      var x := n - 1;
      RowBeadsInRect(g, y, r, x);
      var counted := if r.minY <= y <= r.maxY && r.minX <= x <= r.maxX && Occupied(row[x]) then 1 else 0;
      assert CountIn(RowBeads(row, y, n), r) == CountIn(RowBeads(row, y, x), r) + counted by {
        if Occupied(row[x]) {
          CountInSnoc(RowBeads(row, y, x), Bead(x, y, row[x].value), r);
        } else {
          assert RowBeads(row, y, n) == RowBeads(row, y, x);
        }
      }
      if r.minY <= y <= r.maxY {
        if x <= r.maxX {
          assert Min(r.maxX, n - 1) == x && Min(r.maxX, x - 1) == x - 1;
          assert CellAt(g, x, y) == row[x];
        } else {
          assert Min(r.maxX, n - 1) == Min(r.maxX, x - 1);
        }
      }
    }
  }

  /** The same for the first m rows and the selection's middle loop. */
  lemma {:induction false} GridBeadsInRect(g: Grid, r: Rect, m: nat)
    requires m <= |g|
    ensures CountIn(GridBeads(g, m), r) == RectCount(g, r, Min(r.maxY, m - 1))
  {
    if m == 0 {
      RectCountClip(g, r, Min(r.maxY, -1));
    } else {
      GridBeadsInRect(g, r, m - 1);
      var row := RowBeads(g[m - 1], m - 1, |g[m - 1]|);
      CountInAppend(GridBeads(g, m - 1), row, r);
      RowBeadsInRect(g, m - 1, r, |g[m - 1]|);
      RowCountClip(g, m - 1, r.minX, r.maxX);
      if m - 1 < r.minY {
        assert RectCount(g, r, m - 1) == 0;
      }
    }
  }

  /** What the selection loops count is the number of beads of visible
      layers inside the rectangle. */
  lemma {:induction false} LayersCountIsBeads(layers: seq<Layer>, r: Rect, n: nat)
    requires n <= |layers|
    ensures LayersCount(layers, r, n) == CountIn(LayersBeads(layers, n), r)
  {
    if n > 0 {
      LayersCountIsBeads(layers, r, n - 1);
      var l := layers[n - 1];
      if l.isVisible {
        CountInAppend(LayersBeads(layers, n - 1), GridBeads(l.grid, |l.grid|), r);
        GridBeadsInRect(l.grid, r, |l.grid|);
        RectCountClip(l.grid, r, r.maxY);
      } else {
        assert LayersBeads(layers, n) == LayersBeads(layers, n - 1);
      }
    }
  }

  /** handleSelectArea: count the truthy cells of every visible layer
      inside the dragged rectangle; the tooltip shows the count when there
      is at least one bead and is cleared otherwise. */
  method SelectArea(layers: seq<Layer>, area: Area) returns (info: Option<nat>)
    ensures var n := CountIn(AllBeads(layers), Normalize(area));
      info == if n > 0 then Some(n) else None
  {
    var r := Normalize(area);
    var count := 0;
    var k := 0;
    while k < |layers|
      invariant 0 <= k <= |layers|
      invariant count == LayersCount(layers, r, k)
    {
      var l := layers[k];
      if l.isVisible {
        var y := r.minY;
        while y <= r.maxY
          invariant r.minY <= y <= r.maxY + 1
          invariant count == LayersCount(layers, r, k) + RectCount(l.grid, r, y - 1)
        {
          var x := r.minX;
          while x <= r.maxX
            invariant r.minX <= x <= r.maxX + 1
            invariant count == LayersCount(layers, r, k) + RectCount(l.grid, r, y - 1) + RowCount(l.grid, y, r.minX, x - 1)
          {
            if Occupied(CellAt(l.grid, x, y)) {
              count := count + 1;
            }
            x := x + 1;
          }
          y := y + 1;
        }
      }
      k := k + 1;
    }
    LayersCountIsBeads(layers, r, |layers|);
    if count > 0 {
      info := Some(count);
    } else {
      info := None;
    }
  }

  /** Dragging from either corner to the other selects the same beads. */
  lemma SelectionCornerSwap(layers: seq<Layer>, a: Area)
    ensures var b := Area(a.endX, a.endY, a.startX, a.startY);
      Normalize(b) == Normalize(a) &&
      CountIn(AllBeads(layers), Normalize(b)) == CountIn(AllBeads(layers), Normalize(a))
  {
  }

  /** A selection covering the whole board counts every bead. */
  lemma {:induction false} WholeBoardSelection(layers: seq<Layer>, width: nat, height: nat)
    requires forall l :: l in layers ==> GridWf(l.grid, width, height)
    requires width > 0 && height > 0
    ensures CountIn(AllBeads(layers), Normalize(Area(0, 0, width - 1, height - 1))) == |AllBeads(layers)|
  {
    var r := Normalize(Area(0, 0, width - 1, height - 1));
    var bs := AllBeads(layers);
    AllBeadsExact(layers);
    forall b | b in bs ensures InRect(r, b) {
      var k :| 0 <= k < |layers| && Shows(layers[k], b);
      assert layers[k] in layers;
    }
    CountAll(bs, r);
  }

  lemma {:induction false} CountAll(bs: seq<Bead>, r: Rect)
    requires forall b :: b in bs ==> InRect(r, b)
    ensures CountIn(bs, r) == |bs|
  {
    if bs != [] {
      var init := bs[..|bs| - 1];
      assert forall b :: b in init ==> b in bs;
      CountAll(init, r);
    }
  }
}
