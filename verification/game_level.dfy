/**
 A level: the ordered list of bricks built from a grid of tile numbers.
 Tile 0 is empty, tile 1 is a solid brick, any larger tile is a breakable
 brick whose tint depends on its value. Bricks are cut from the level
 region in equal cells, one column per tile of the first row and one row
 per grid row, and are appended row by row, left to right.
 */
module GameLevels {
  import opened GameObjects

  /** The offset of the n-th cell of a strip of cells each u wide. */
  function Offset(u: real, n: nat): real {
    u * n as real
  }

  /** A grid cell, by row and column. */
  datatype Cell = Cell(row: nat, col: nat)

  /** Row-major order of cells: earlier rows first, then earlier columns. */
  predicate Before(a: Cell, b: Cell) {
    a.row < b.row || (a.row == b.row && a.col < b.col)
  }

  /** What the source requires of a grid: a first row, and no row shorter than it. */
  predicate WellFormed(tiles: seq<seq<nat>>) {
    |tiles| > 0 && forall y :: 0 <= y < |tiles| ==> |tiles[y]| >= |tiles[0]|
  }

  /** The number of columns: the length of the first row. Extra tiles in longer rows are ignored. */
  function Cols(tiles: seq<seq<nat>>): nat
    requires |tiles| > 0
  {
    |tiles[0]|
  }

  /** The width of one brick. With no columns no brick is built, so its value does not matter. */
  function UnitWidth(tiles: seq<seq<nat>>, levelWidth: nat): real
    requires |tiles| > 0
  {
    if Cols(tiles) == 0 then 0.0 else levelWidth as real / Cols(tiles) as real
  }

  function UnitHeight(tiles: seq<seq<nat>>, levelHeight: nat): real
    requires |tiles| > 0
  {
    levelHeight as real / |tiles| as real
  }

  /** The tint of a breakable brick, chosen by its tile value; other values stay white. */
  function BlockColor(tile: nat): (c: Color)
    ensures (tile < 2 || tile >= 6) <==> c == White
  {
    match tile
    case 2 => Color(0.2, 0.6, 1.0)
    case 3 => Color(0.0, 0.7, 0.0)
    case 4 => Color(0.8, 0.8, 0.4)
    case 5 => Color(1.0, 0.5, 0.0)
    case _ => White
  }

  /**
   The brick a nonzero tile at `cell` becomes: placed at its cell, one unit
   wide and high, at rest; tile 1 is solid, larger tiles are breakable blocks.
   */
  function Brick(tile: nat, cell: Cell, unitWidth: real, unitHeight: real): (b: GameObject)
    ensures b.position == Vec2(Offset(unitWidth, cell.col), Offset(unitHeight, cell.row))
    ensures b.size == Vec2(unitWidth, unitHeight)
    ensures b.velocity == Vec2(0.0, 0.0)
    ensures tile == 1 <==> b.texture == "block_solid"
    ensures tile == 1 ==> b.color == Color(0.8, 0.8, 0.7)
    ensures tile > 1 ==> b.texture == "block" && b.color == BlockColor(tile)
  {
    var pos := Vec2(Offset(unitWidth, cell.col), Offset(unitHeight, cell.row));
    var size := Vec2(unitWidth, unitHeight);
    if tile == 1 then
      GameObject(pos, size, Vec2(0.0, 0.0), "block_solid", Color(0.8, 0.8, 0.7))
    else
      GameObject(pos, size, Vec2(0.0, 0.0), "block", BlockColor(tile))
  }

  /** The bricks a single tile contributes: none for an empty tile, else its brick. */
  function TileBricks(tile: nat, cell: Cell, uw: real, uh: real): seq<GameObject> {
    if tile >= 1 then [Brick(tile, cell, uw, uh)] else []
  }

  /** The tile at column x of a row, 0 past its end. */
  function At(row: seq<nat>, x: nat): nat {
    if x < |row| then row[x] else 0
  }

  /** The bricks of row `y`, columns 0 .. n-1, in the order they are appended. */
  function RowBricks(row: seq<nat>, y: nat, n: nat, uw: real, uh: real): seq<GameObject> {
    if n == 0 then [] else RowBricks(row, y, n - 1, uw, uh) + TileBricks(At(row, n - 1), Cell(y, n - 1), uw, uh)
  }

  /** The bricks of rows 0 .. m-1, each over the first `cols` columns. */
  function GridBricks(tiles: seq<seq<nat>>, cols: nat, m: nat, uw: real, uh: real): seq<GameObject>
    requires m <= |tiles|
  {
    if m == 0 then []
    else GridBricks(tiles, cols, m - 1, uw, uh) + RowBricks(tiles[m - 1], m - 1, cols, uw, uh)
  }

  /** The bricks a well-formed grid becomes inside a `levelWidth` by `levelHeight` region. */
  function Layout(tiles: seq<seq<nat>>, levelWidth: nat, levelHeight: nat): seq<GameObject>
    requires WellFormed(tiles)
  {
    GridBricks(tiles, Cols(tiles), |tiles|, UnitWidth(tiles, levelWidth), UnitHeight(tiles, levelHeight))
  }

  // ---------------------------------------------------------------------------
  // An independent description: the nonzero cells, listed in row-major order.

  function TileCells(tile: nat, cell: Cell): seq<Cell> {
    if tile >= 1 then [cell] else []
  }

  function RowCells(row: seq<nat>, y: nat, n: nat): seq<Cell> {
    if n == 0 then [] else RowCells(row, y, n - 1) + TileCells(At(row, n - 1), Cell(y, n - 1))
  }

  function GridCells(tiles: seq<seq<nat>>, cols: nat, m: nat): seq<Cell>
    requires m <= |tiles|
  {
    if m == 0 then [] else GridCells(tiles, cols, m - 1) + RowCells(tiles[m - 1], m - 1, cols)
  }

  /** The cells of a well-formed grid that hold a brick. */
  function Occupied(tiles: seq<seq<nat>>): seq<Cell>
    requires WellFormed(tiles)
  {
    GridCells(tiles, Cols(tiles), |tiles|)
  }

  /** The set of nonzero cells among the first `m` rows and `cols` columns. */
  function OccupiedSet(tiles: seq<seq<nat>>, cols: nat, m: nat): set<Cell>
    requires m <= |tiles|
  {
    set y: nat, x: nat | y < m && x < cols && At(tiles[y], x) >= 1 :: Cell(y, x)
  }

  lemma {:induction false} RowCellsFacts(row: seq<nat>, y: nat, n: nat)
    ensures forall i :: 0 <= i < |RowCells(row, y, n)| ==>
      var c := RowCells(row, y, n)[i]; c.row == y && c.col < n && At(row, c.col) >= 1
    ensures forall i, j :: 0 <= i < j < |RowCells(row, y, n)| ==>
      RowCells(row, y, n)[i].col < RowCells(row, y, n)[j].col
    ensures forall x :: 0 <= x < n && At(row, x) >= 1 ==> Cell(y, x) in RowCells(row, y, n)
  {
    if n > 0 {
      RowCellsFacts(row, y, n - 1);
      var prev := RowCells(row, y, n - 1);
      var last := TileCells(At(row, n - 1), Cell(y, n - 1));
      var cur := RowCells(row, y, n);
      assert cur == prev + last;
      forall i | 0 <= i < |cur|
        ensures cur[i].row == y && cur[i].col < n && At(row, cur[i].col) >= 1
      {
        if i < |prev| {
          assert cur[i] == prev[i];
        } else {
          assert cur[i] == Cell(y, n - 1);
        }
      }
      forall i, j | 0 <= i < j < |cur|
        ensures cur[i].col < cur[j].col
      {
        assert cur[i] == prev[i];
        if j >= |prev| {
          assert cur[j] == Cell(y, n - 1);
        }
      }
      forall x | 0 <= x < n && At(row, x) >= 1
        ensures Cell(y, x) in RowCells(row, y, n)
      {
        if x < n - 1 {
          assert Cell(y, x) in prev;
        } else {
          assert Cell(y, x) in last;
        }
      }
    }
  }

  /**
   The cells of the first m rows are exactly the nonzero cells there, each
   listed once, in strictly increasing row-major order.
   */
  lemma {:induction false} GridCellsFacts(tiles: seq<seq<nat>>, cols: nat, m: nat)
    requires m <= |tiles|
    ensures forall i :: 0 <= i < |GridCells(tiles, cols, m)| ==>
      var c := GridCells(tiles, cols, m)[i]; c.row < m && c.col < cols && TileAt(tiles, c) >= 1
    ensures forall i, j :: 0 <= i < j < |GridCells(tiles, cols, m)| ==>
      Before(GridCells(tiles, cols, m)[i], GridCells(tiles, cols, m)[j])
    ensures forall c :: c in GridCells(tiles, cols, m) <==> c in OccupiedSet(tiles, cols, m)
  {
    if m > 0 {
      GridCellsFacts(tiles, cols, m - 1);
      RowCellsFacts(tiles[m - 1], m - 1, cols);
      var prev := GridCells(tiles, cols, m - 1);
      var row := RowCells(tiles[m - 1], m - 1, cols);
      assert GridCells(tiles, cols, m) == prev + row;
      forall c | c in OccupiedSet(tiles, cols, m)
        ensures c in GridCells(tiles, cols, m)
      {
        if c.row < m - 1 {
          assert c in OccupiedSet(tiles, cols, m - 1);
        } else {
          assert c in row;
        }
      }
    }
  }

  /** The number of nonzero cells in the first m rows equals the number of cells listed. */
  lemma {:induction false} GridCellsCount(tiles: seq<seq<nat>>, cols: nat, m: nat)
    requires m <= |tiles|
    ensures |GridCells(tiles, cols, m)| == |OccupiedSet(tiles, cols, m)|
  {
    if m > 0 {
      GridCellsCount(tiles, cols, m - 1);
      RowCellsCount(tiles[m - 1], m - 1, cols);
      OccupiedSplit(tiles, cols, m);
      assert |GridCells(tiles, cols, m)| == |GridCells(tiles, cols, m - 1)| + |RowCells(tiles[m - 1], m - 1, cols)|;
    }
  }

  /** The nonzero cells of the first m rows: those of the first m-1 rows, and apart from them, row m-1's. */
  lemma OccupiedSplit(tiles: seq<seq<nat>>, cols: nat, m: nat)
    requires 0 < m <= |tiles|
    ensures var prev := OccupiedSet(tiles, cols, m - 1); var last := RowSet(tiles[m - 1], m - 1, cols);
      |OccupiedSet(tiles, cols, m)| == |prev| + |last|
  {
    var prev := OccupiedSet(tiles, cols, m - 1);
    var last := RowSet(tiles[m - 1], m - 1, cols);
    var all := OccupiedSet(tiles, cols, m);
    forall c | c in all
      ensures c in prev + last
    {
      if c.row < m - 1 {
        assert c in prev;
      } else {
        assert c in last;
      }
    }
    assert all == prev + last;
    forall c | c in prev
      ensures c !in last
    {
    }
    assert prev * last == {};
  }

  function RowSet(row: seq<nat>, y: nat, n: nat): set<Cell> {
    set x: nat | x < n && At(row, x) >= 1 :: Cell(y, x)
  }

  lemma {:induction false} RowCellsCount(row: seq<nat>, y: nat, n: nat)
    ensures |RowCells(row, y, n)| == |RowSet(row, y, n)|
  {
    if n > 0 {
      RowCellsCount(row, y, n - 1);
      if At(row, n - 1) >= 1 {
        assert RowSet(row, y, n) == RowSet(row, y, n - 1) + {Cell(y, n - 1)};
        assert Cell(y, n - 1) !in RowSet(row, y, n - 1);
      } else {
        assert RowSet(row, y, n) == RowSet(row, y, n - 1);
      }
    }
  }

  /** The tile at a cell, 0 outside the grid. */
  function TileAt(tiles: seq<seq<nat>>, c: Cell): nat {
    if c.row < |tiles| then At(tiles[c.row], c.col) else 0
  }

  /** Brick i is the brick of cell i, for every i: the two lists correspond one to one. */
  predicate Matches(tiles: seq<seq<nat>>, bricks: seq<GameObject>, cells: seq<Cell>, uw: real, uh: real) {
    && |bricks| == |cells|
    && forall i :: 0 <= i < |cells| ==> bricks[i] == Brick(TileAt(tiles, cells[i]), cells[i], uw, uh)
  }

  lemma MatchesAppend(tiles: seq<seq<nat>>, a: seq<GameObject>, b: seq<GameObject>, c: seq<Cell>, d: seq<Cell>,
                      uw: real, uh: real)
    requires Matches(tiles, a, c, uw, uh) && Matches(tiles, b, d, uw, uh)
    ensures Matches(tiles, a + b, c + d, uw, uh)
  {
    forall i | 0 <= i < |c + d|
      ensures (a + b)[i] == Brick(TileAt(tiles, (c + d)[i]), (c + d)[i], uw, uh)
    {
      if i >= |c| {
        assert (a + b)[i] == b[i - |c|] && (c + d)[i] == d[i - |c|];
      }
    }
  }

  /** Row y's bricks, columns 0 .. n-1, are the bricks of row y's nonzero cells there, in order. */
  lemma {:induction false} RowMatches(tiles: seq<seq<nat>>, y: nat, n: nat, uw: real, uh: real)
    requires y < |tiles|
    ensures Matches(tiles, RowBricks(tiles[y], y, n, uw, uh), RowCells(tiles[y], y, n), uw, uh)
  {
    if n > 0 {
      var row := tiles[y];
      var c := Cell(y, n - 1);
      RowMatches(tiles, y, n - 1, uw, uh);
      assert TileAt(tiles, c) == At(row, n - 1);
      MatchesAppend(tiles, RowBricks(row, y, n - 1, uw, uh), TileBricks(At(row, n - 1), c, uw, uh),
                    RowCells(row, y, n - 1), TileCells(At(row, n - 1), c), uw, uh);
    }
  }

  /** Building the grid row by row yields exactly the bricks of its nonzero cells, in row-major order. */
  lemma {:induction false} GridMatches(tiles: seq<seq<nat>>, cols: nat, m: nat, uw: real, uh: real)
    requires m <= |tiles|
    ensures Matches(tiles, GridBricks(tiles, cols, m, uw, uh), GridCells(tiles, cols, m), uw, uh)
  {
    if m > 0 {
      GridMatches(tiles, cols, m - 1, uw, uh);
      RowMatches(tiles, m - 1, cols, uw, uh);
      MatchesAppend(tiles, GridBricks(tiles, cols, m - 1, uw, uh), RowBricks(tiles[m - 1], m - 1, cols, uw, uh),
                    GridCells(tiles, cols, m - 1), RowCells(tiles[m - 1], m - 1, cols), uw, uh);
    }
  }

  // ---------------------------------------------------------------------------
  // Properties of a level layout.

  /** The cells that hold a brick, listed once each, in strictly increasing row-major order. */
  lemma OccupiedInOrder(tiles: seq<seq<nat>>)
    requires WellFormed(tiles)
    ensures forall i :: 0 <= i < |Occupied(tiles)| ==>
      var c := Occupied(tiles)[i]; c.row < |tiles| && c.col < Cols(tiles) && tiles[c.row][c.col] >= 1
    ensures forall i, j :: 0 <= i < j < |Occupied(tiles)| ==> Before(Occupied(tiles)[i], Occupied(tiles)[j])
    ensures forall y, x :: 0 <= y < |tiles| && 0 <= x < Cols(tiles) && tiles[y][x] >= 1 ==>
      Cell(y, x) in Occupied(tiles)
  {
    GridCellsFacts(tiles, Cols(tiles), |tiles|);
    forall y, x | 0 <= y < |tiles| && 0 <= x < Cols(tiles) && tiles[y][x] >= 1
      ensures Cell(y, x) in Occupied(tiles)
    {
      assert Cell(y, x) in OccupiedSet(tiles, Cols(tiles), |tiles|);
    }
  }

  /**
   Brick i of the layout is the brick of the i-th occupied cell: placed at
   (unit width * column, unit height * row), one unit wide and high, with the
   texture and tint its tile selects. There are no other bricks.
   */
  lemma LayoutMatchesCells(tiles: seq<seq<nat>>, levelWidth: nat, levelHeight: nat)
    requires WellFormed(tiles)
    ensures |Layout(tiles, levelWidth, levelHeight)| == |Occupied(tiles)|
    ensures forall i :: 0 <= i < |Occupied(tiles)| ==>
      Layout(tiles, levelWidth, levelHeight)[i] == Brick(TileAt(tiles, Occupied(tiles)[i]), Occupied(tiles)[i],
                                                         UnitWidth(tiles, levelWidth), UnitHeight(tiles, levelHeight))
  {
    GridMatches(tiles, Cols(tiles), |tiles|, UnitWidth(tiles, levelWidth), UnitHeight(tiles, levelHeight));
  }

  /** The layout holds one brick per nonzero tile among the first row's columns. */
  lemma LayoutCount(tiles: seq<seq<nat>>, levelWidth: nat, levelHeight: nat)
    requires WellFormed(tiles)
    ensures |Layout(tiles, levelWidth, levelHeight)|
         == |set y: nat, x: nat | y < |tiles| && x < Cols(tiles) && tiles[y][x] >= 1 :: Cell(y, x)|
  {
    var nonzero := set y: nat, x: nat | y < |tiles| && x < Cols(tiles) && tiles[y][x] >= 1 :: Cell(y, x);
    var occupied := OccupiedSet(tiles, Cols(tiles), |tiles|);
    forall c | c in occupied
      ensures c in nonzero
    {
      assert At(tiles[c.row], c.col) == tiles[c.row][c.col];
    }
    forall c | c in nonzero
      ensures c in occupied
    {
      assert At(tiles[c.row], c.col) == tiles[c.row][c.col];
    }
    assert occupied == nonzero;
    LayoutMatchesCells(tiles, levelWidth, levelHeight);
    GridCellsCount(tiles, Cols(tiles), |tiles|);
  }

  /** A grid with no empty tile fills every one of its rows * cols cells with a brick. */
  lemma FullGridCount(tiles: seq<seq<nat>>, levelWidth: nat, levelHeight: nat)
    requires WellFormed(tiles)
    requires forall y, x :: 0 <= y < |tiles| && 0 <= x < Cols(tiles) ==> tiles[y][x] >= 1
    ensures |Layout(tiles, levelWidth, levelHeight)| == |tiles| * Cols(tiles)
  {
    FullRowsCount(tiles, Cols(tiles), |tiles|, UnitWidth(tiles, levelWidth), UnitHeight(tiles, levelHeight));
  }

  lemma {:induction false} FullRowsCount(tiles: seq<seq<nat>>, cols: nat, m: nat, uw: real, uh: real)
    requires m <= |tiles|
    requires forall y, x :: 0 <= y < m && 0 <= x < cols ==> At(tiles[y], x) >= 1
    ensures |GridBricks(tiles, cols, m, uw, uh)| == m * cols
  {
    if m > 0 {
      FullRowsCount(tiles, cols, m - 1, uw, uh);
      FullRowCount(tiles[m - 1], m - 1, cols, uw, uh);
      assert (m - 1) * cols + cols == m * cols;
    }
  }

  lemma {:induction false} FullRowCount(row: seq<nat>, y: nat, n: nat, uw: real, uh: real)
    requires forall x :: 0 <= x < n ==> At(row, x) >= 1
    ensures |RowBricks(row, y, n, uw, uh)| == n
  {
    if n > 0 {
      FullRowCount(row, y, n - 1, uw, uh);
    }
  }

  /** Two rectangles share interior area. */
  predicate Overlap(a: GameObject, b: GameObject) {
    && a.position.x < b.position.x + b.size.x && b.position.x < a.position.x + a.size.x
    && a.position.y < b.position.y + b.size.y && b.position.y < a.position.y + a.size.y
  }

  /** A rectangle inside [0, width] x [0, height]. */
  predicate Inside(a: GameObject, width: real, height: real) {
    0.0 <= a.position.x && a.position.x + a.size.x <= width &&
    0.0 <= a.position.y && a.position.y + a.size.y <= height
  }

  /**
   Cells of width u at indices i < j are separated: the first ends where or
   before the second starts.
   */
  lemma Separated(u: real, i: nat, j: nat)
    requires u >= 0.0 && i < j
    ensures Offset(u, i) + u <= Offset(u, j)
  {
    var d := (j - i) as real;
    assert u * d >= u * 1.0;
    calc {
      Offset(u, j);
      u * j as real;
      { assert j as real == i as real + d; }
      u * (i as real + d);
      u * i as real + u * d;
      >= u * i as real + u;
      Offset(u, i) + u;
    }
  }

  /** The cell of index i < n, with unit u = total / n, lies inside [0, total]. */
  lemma WithinTotal(total: nat, n: nat, i: nat)
    requires i < n
    ensures 0.0 <= Offset(total as real / n as real, i)
    ensures Offset(total as real / n as real, i) + total as real / n as real <= total as real
  {
    var u := total as real / n as real;
    assert u * i as real >= 0.0;
    Separated(u, i, n);
    assert Offset(u, n) == u * n as real == total as real;
  }

  /** Every brick lies inside the level region [0, levelWidth] x [0, levelHeight]. */
  lemma LayoutInside(tiles: seq<seq<nat>>, levelWidth: nat, levelHeight: nat)
    requires WellFormed(tiles)
    ensures forall i :: 0 <= i < |Layout(tiles, levelWidth, levelHeight)| ==>
      Inside(Layout(tiles, levelWidth, levelHeight)[i], levelWidth as real, levelHeight as real)
  {
    var bricks := Layout(tiles, levelWidth, levelHeight);
    var cells := Occupied(tiles);
    LayoutMatchesCells(tiles, levelWidth, levelHeight);
    OccupiedInOrder(tiles);
    forall i | 0 <= i < |bricks|
      ensures Inside(bricks[i], levelWidth as real, levelHeight as real)
    {
      var c := cells[i];
      WithinTotal(levelWidth, Cols(tiles), c.col);
      WithinTotal(levelHeight, |tiles|, c.row);
    }
  }

  /** The bricks of two distinct cells never overlap. */
  lemma LayoutDisjoint(tiles: seq<seq<nat>>, levelWidth: nat, levelHeight: nat)
    requires WellFormed(tiles)
    ensures forall i, j :: 0 <= i < j < |Layout(tiles, levelWidth, levelHeight)| ==>
      !Overlap(Layout(tiles, levelWidth, levelHeight)[i], Layout(tiles, levelWidth, levelHeight)[j])
  {
    var bricks := Layout(tiles, levelWidth, levelHeight);
    var cells := Occupied(tiles);
    var uw, uh := UnitWidth(tiles, levelWidth), UnitHeight(tiles, levelHeight);
    LayoutMatchesCells(tiles, levelWidth, levelHeight);
    OccupiedInOrder(tiles);
    forall i, j | 0 <= i < j < |bricks|
      ensures !Overlap(bricks[i], bricks[j])
    {
      CellsApart(TileAt(tiles, cells[i]), cells[i], TileAt(tiles, cells[j]), cells[j], uw, uh);
    }
  }

  /** The bricks of two cells in row-major order do not overlap. */
  lemma CellsApart(s: nat, a: Cell, t: nat, b: Cell, uw: real, uh: real)
    requires Before(a, b) && uw >= 0.0 && uh >= 0.0
    ensures !Overlap(Brick(s, a, uw, uh), Brick(t, b, uw, uh))
  {
    if a.row < b.row {
      Separated(uh, a.row, b.row);
    } else {
      Separated(uw, a.col, b.col);
    }
  }

  lemma AppendAssoc(a: seq<GameObject>, b: seq<GameObject>, c: seq<GameObject>)
    ensures (a + b) + c == a + (b + c)
  {
  }

  /** The brick a solid tile becomes, written out field by field. */
  lemma SolidTile(cell: Cell, uw: real, uh: real)
    ensures TileBricks(1, cell, uw, uh)
      == [GameObject(Vec2(Offset(uw, cell.col), Offset(uh, cell.row)), Vec2(uw, uh), Vec2(0.0, 0.0),
                     "block_solid", Color(0.8, 0.8, 0.7))]
  {
  }

  /** The brick a breakable tile becomes, written out field by field. */
  lemma BlockTile(tile: nat, cell: Cell, uw: real, uh: real)
    requires tile > 1
    ensures TileBricks(tile, cell, uw, uh)
      == [GameObject(Vec2(Offset(uw, cell.col), Offset(uh, cell.row)), Vec2(uw, uh), Vec2(0.0, 0.0),
                     "block", BlockColor(tile))]
  {
  }

  class GameLevel {
    var bricks: seq<GameObject>

    /** A new level holds no bricks. */
    constructor ()
      ensures bricks == []
    {
      bricks := [];
    }

    /**
     Loading a level from its parsed tile grid: an empty grid (an empty
     file) leaves the level as it is; otherwise the grid's bricks are built.
     */
    method Load(tileData: seq<seq<nat>>, levelWidth: nat, levelHeight: nat)
      requires |tileData| > 0 ==> WellFormed(tileData)
      modifies this
      ensures |tileData| == 0 ==> bricks == old(bricks)
      ensures |tileData| > 0 ==> bricks == old(bricks) + Layout(tileData, levelWidth, levelHeight)
    {
      if |tileData| > 0 {
        Init(tileData, levelWidth, levelHeight);
      }
    }

    /**
     Appends one brick per nonzero tile, row by row and left to right. The
     bricks already in the level stay in front of the new ones.
     */
    method Init(tileData: seq<seq<nat>>, levelWidth: nat, levelHeight: nat)
      requires WellFormed(tileData)
      modifies this
      ensures bricks == old(bricks) + Layout(tileData, levelWidth, levelHeight)
    {
      var numTilesPerRow := |tileData[0]|;
      var rows := |tileData|;
      var unitWidth := if numTilesPerRow == 0 then 0.0 else levelWidth as real / numTilesPerRow as real;
      var unitHeight := levelHeight as real / rows as real;
      ghost var start := bricks;
      for y := 0 to rows
        invariant bricks == start + GridBricks(tileData, numTilesPerRow, y, unitWidth, unitHeight)
      {
        InitRow(tileData[y], y, numTilesPerRow, unitWidth, unitHeight);
        AppendAssoc(start, GridBricks(tileData, numTilesPerRow, y, unitWidth, unitHeight),
                    RowBricks(tileData[y], y, numTilesPerRow, unitWidth, unitHeight));
      }
    }

    /**
     The inner loop of `Init`: the bricks of columns 0 .. cols-1 of row `y`,
     appended left to right, each `uw` wide and `uh` high.
     */
    method InitRow(row: seq<nat>, y: nat, cols: nat, uw: real, uh: real)
      requires cols <= |row|
      modifies this
      ensures bricks == old(bricks) + RowBricks(row, y, cols, uw, uh)
    {
      ghost var start := bricks;
      for x := 0 to cols
        invariant bricks == start + RowBricks(row, y, x, uw, uh)
      {
        ghost var before := bricks;
        var pos := Vec2(Offset(uw, x), Offset(uh, y));
        var size := Vec2(uw, uh);
        if row[x] == 1 {
          bricks := bricks + [GameObject(pos, size, Vec2(0.0, 0.0), "block_solid", Color(0.8, 0.8, 0.7))];
          SolidTile(Cell(y, x), uw, uh);
        } else if row[x] > 1 {
          var color := Color(1.0, 1.0, 1.0);
          match row[x] {
            case 2 => color := Color(0.2, 0.6, 1.0);
            case 3 => color := Color(0.0, 0.7, 0.0);
            case 4 => color := Color(0.8, 0.8, 0.4);
            case 5 => color := Color(1.0, 0.5, 0.0);
            case _ =>
          }
          assert color == BlockColor(row[x]);
          bricks := bricks + [GameObject(pos, size, Vec2(0.0, 0.0), "block", color)];
          BlockTile(row[x], Cell(y, x), uw, uh);
        }
        assert At(row, x) == row[x];
        assert bricks == before + TileBricks(At(row, x), Cell(y, x), uw, uh);
        AppendAssoc(start, RowBricks(row, y, x, uw, uh), TileBricks(At(row, x), Cell(y, x), uw, uh));
      }
    }
  }
}
