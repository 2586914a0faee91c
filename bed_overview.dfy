/**
 The bed overview screen: the grid's size is derived from the coordinates of
 the plants placed in it, and the tiles are listed column by column, each
 with the plant at its coordinate, if any.
 */
module BedOverview {
  import opened Models

  /** One tile of the overview: a coordinate and the plant placed there. */
  datatype Tile = Tile(coordinate: Coordinate, plant: Option<Plant>)

  /** The coordinate at position `k` of a column-major listing with `rows` rows. */
  function CellAt(k: nat, rows: nat): (c: Coordinate)
    requires rows > 0
    ensures c.col >= 0 && c.row >= 0
  {
    Coordinate(k / rows, k % rows)
  }

  /** The tile for a cell, with the plant the map holds for it. */
  function TileAt(plants: map<Coordinate, Plant>, c: Coordinate): Tile
  {
    Tile(c, Lookup(plants, c))
  }

  /**
   `sizeOfBed`: one more than the largest column and the largest row among the
   map's keys, where the largest is never taken below 0.
   */
  method SizeOfBed(plants: map<Coordinate, Plant>) returns (columns: int, rows: int)
    ensures columns >= 1 && rows >= 1
    ensures forall c :: c in plants ==> c.col < columns && c.row < rows
    ensures columns == 1 || exists c :: c in plants && c.col == columns - 1
    ensures rows == 1 || exists c :: c in plants && c.row == rows - 1
  {
    var column, row := 0, 0;
    var keys := plants.Keys;
    while keys != {}
      invariant keys <= plants.Keys
      invariant column >= 0 && row >= 0
      invariant forall c :: c in plants.Keys - keys ==> c.col <= column && c.row <= row
      invariant column == 0 || exists c :: c in plants.Keys - keys && c.col == column
      invariant row == 0 || exists c :: c in plants.Keys - keys && c.row == row
      decreases keys
    {
      var key :| key in keys;
      if key.col > column { column := key.col; }
      if key.row > row { row := key.row; }
      keys := keys - {key};
    }
    columns, rows := column + 1, row + 1;
  }

  /** Position `i * rows + j` of the listing holds the cell `(i, j)`. */
  lemma ColumnMajorIndex(i: nat, j: nat, rows: nat)
    requires j < rows
    ensures CellAt(i * rows + j, rows) == Coordinate(i, j)
  {
    var k := i * rows + j;
    DivModUnique(k, rows, i, j);
  }

  /** Euclidean division of `q * d + r` with `0 <= r < d` gives back `q` and `r`. */
  lemma DivModUnique(n: nat, d: nat, q: nat, r: nat)
    requires 0 <= r < d && n == q * d + r
    ensures n / d == q && n % d == r
  {
    var q', r' := n / d, n % d;
    if q' < q {
      MulStep(q', q, d);
    } else if q' > q {
      MulStep(q, q', d);
    }
  }

  lemma MulStep(a: nat, b: nat, d: nat)
    requires a < b
    ensures a * d + d <= b * d
  {
    var e := b - a - 1;
    assert b * d == a * d + e * d + d;
  }

  /** Every position of a listing of `columns` times `rows` tiles holds a cell of the grid. */
  lemma CellInGrid(k: nat, columns: nat, rows: nat)
    requires rows > 0 && k < columns * rows
    ensures 0 <= CellAt(k, rows).col < columns && 0 <= CellAt(k, rows).row < rows
    ensures k == CellAt(k, rows).col * rows + CellAt(k, rows).row
  {
    if k / rows >= columns {
      MulStep(columns - 1, k / rows, rows);
    }
  }

  /** No cell is listed twice. */
  lemma CellsDistinct(k1: nat, k2: nat, rows: nat)
    requires rows > 0 && k1 != k2
    ensures CellAt(k1, rows) != CellAt(k2, rows)
  {
  }

  /** Every cell of the grid is listed. */
  lemma EveryCellListed(c: Coordinate, columns: nat, rows: nat)
    requires 0 <= c.col < columns && 0 <= c.row < rows
    ensures c.col * rows + c.row < columns * rows
    ensures CellAt(c.col * rows + c.row, rows) == c
  {
    ColumnMajorIndex(c.col, c.row, rows);
    MulStep(c.col, columns, rows);
  }

  /** The nested loops of the overview: column `i` from 0, and in it row `j` from 0. */
  method OrderedTiles(columns: nat, rows: nat, plants: map<Coordinate, Plant>) returns (tiles: seq<Tile>)
    ensures |tiles| == columns * rows
    ensures forall k :: 0 <= k < |tiles| ==> rows > 0 && tiles[k] == TileAt(plants, CellAt(k, rows))
  {
    tiles := [];
    var i := 0;
    while i < columns
      invariant 0 <= i <= columns
      invariant |tiles| == i * rows
      invariant forall k :: 0 <= k < |tiles| ==> rows > 0 && tiles[k] == TileAt(plants, CellAt(k, rows))
    {
      var j := 0;
      while j < rows
        invariant 0 <= j <= rows
        invariant |tiles| == i * rows + j
        invariant forall k :: 0 <= k < |tiles| ==> rows > 0 && tiles[k] == TileAt(plants, CellAt(k, rows))
      {
        ColumnMajorIndex(i, j, rows);
        tiles := tiles + [TileAt(plants, Coordinate(i, j))];
        j := j + 1;
      }
      assert i * rows + rows == (i + 1) * rows;
      i := i + 1;
    }
  }

  /**
   What the overview lays out for a bed's plant map: the grid size and its
   tiles. Every placement with non-negative coordinates is shown with its plant.
   */
  method LayOut(plants: map<Coordinate, Plant>) returns (columns: int, rows: int, tiles: seq<Tile>)
    ensures columns >= 1 && rows >= 1
    ensures plants == map[] ==> columns == 1 && rows == 1
    ensures forall c :: c in plants ==> c.col < columns && c.row < rows
    ensures columns == 1 || exists c :: c in plants && c.col == columns - 1
    ensures rows == 1 || exists c :: c in plants && c.row == rows - 1
    ensures |tiles| == columns * rows
    ensures forall k :: 0 <= k < |tiles| ==> tiles[k] == TileAt(plants, CellAt(k, rows))
    ensures forall k :: 0 <= k < |tiles| ==> tiles[k].coordinate.col >= 0 && tiles[k].coordinate.row >= 0
    ensures forall c :: c in plants && c.col >= 0 && c.row >= 0 ==>
      c.col * rows + c.row < |tiles| && tiles[c.col * rows + c.row] == Tile(c, Some(plants[c]))
  {
    columns, rows := SizeOfBed(plants);
    tiles := OrderedTiles(columns, rows, plants);
    forall c | c in plants && c.col >= 0 && c.row >= 0
      ensures c.col * rows + c.row < |tiles| && tiles[c.col * rows + c.row] == Tile(c, Some(plants[c]))
    {
      EveryCellListed(c, columns, rows);
    }
  }
}
