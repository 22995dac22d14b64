/** Shapes shared by the whole editor: cells, grids, layers and tools,
    plus the two helpers that build fresh values of them (empty grids and
    clock-derived layer ids). */
module Types {

  datatype Option<+T> = None | Some(value: T)

  /** A cell holds a colour (a hex string) or nothing. */
  type GridColor = Option<string>

  /** Rows of cells; `g[y][x]` is the cell in column x of row y. */
  type Grid = seq<seq<GridColor>>

  datatype Layer = Layer(id: string, name: string, isVisible: bool, grid: Grid)

  datatype Tool = Pencil | Eraser | Fill | Eyedropper | Selection

  /** JavaScript truthiness of a cell: both `null` and the empty string
      count as "no bead". */
  predicate Occupied(c: GridColor)
  {
    c.Some? && c.value != []
  }

  /** `height` rows, each of `width` cells. */
  predicate GridWf(g: Grid, width: nat, height: nat)
  {
    |g| == height && forall y :: 0 <= y < |g| ==> |g[y]| == width
  }

  /** The cell at (x, y) if both coordinates are inside the grid. */
  predicate InGrid(g: Grid, x: int, y: int)
  {
    0 <= y < |g| && 0 <= x < |g[y]|
  }

  /** createEmptyGrid: `height` rows of `width` nulls. */
  function CreateEmptyGrid(width: nat, height: nat): (g: Grid)
    ensures GridWf(g, width, height)
    ensures forall y, x :: 0 <= y < height && 0 <= x < width ==> g[y][x] == None
  {
    seq(height, _ => seq(width, _ => None))
  }

  /** Decimal rendering of a natural number, as JavaScript's template
      strings print it. */
  function Decimal(n: nat): (s: string)
    ensures |s| > 0
    ensures forall i :: 0 <= i < |s| ==> '0' <= s[i] <= '9'
    ensures n < 10 <==> |s| == 1
  {
    if n < 10 then [Digit(n)] else Decimal(n / 10) + [Digit(n % 10)]
  }

  function Digit(d: nat): (c: char)
    requires d < 10
    ensures '0' <= c <= '9'
    ensures c as int - '0' as int == d
  {
    ('0' as int + d) as char
  }

  /** Two different clock readings never print the same way. */
  lemma {:induction false} DecimalInjective(a: nat, b: nat)
    requires Decimal(a) == Decimal(b)
    ensures a == b
  {
    if a >= 10 && b >= 10 {
      var da, db := Decimal(a), Decimal(b);
      assert da[..|da| - 1] == Decimal(a / 10);
      assert db[..|db| - 1] == Decimal(b / 10);
      DecimalInjective(a / 10, b / 10);
      assert Digit(a % 10) == da[|da| - 1] == db[|db| - 1] == Digit(b % 10);
    } else if a < 10 && b < 10 {
      assert Digit(a) == Decimal(a)[0] == Decimal(b)[0] == Digit(b);
    }
  }

  /** The id a new layer gets: `layer-${Date.now()}`. */
  function LayerId(now: nat): (id: string)
    ensures |id| > 6 && id[..6] == "layer-" && id[6..] == Decimal(now)
  {
    "layer-" + Decimal(now)
  }

  /** Layers created at different instants have different ids. */
  lemma LayerIdInjective(t1: nat, t2: nat)
    requires t1 != t2
    ensures LayerId(t1) != LayerId(t2)
  {
    if LayerId(t1) == LayerId(t2) {
      assert Decimal(t1) == LayerId(t1)[6..] == LayerId(t2)[6..] == Decimal(t2);
      DecimalInjective(t1, t2);
    }
  }
}
