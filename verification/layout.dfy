/**
 * From a mouse position on the panel to the index of the tile under it.
 *
 * The panel is 550 pixels wide; the grid starts 30 pixels in from the
 * top-left corner and spans 490 pixels, and each of the 3 x 3 tiles is
 * 490 / 3 = 163 pixels wide, so the tiles together cover only the first
 * 489 pixels of the grid. Tile p is drawn in column p % 3 and row p / 3.
 */
module Layout {
  import opened Board

  const Dimension := 550
  const Margin := 30
  const GridSize := Dimension - 2 * Margin
  const TileSize := GridSize / Size

  /** Grid-relative pixel (ex, ey) lies inside the square drawn for tile p. */
  predicate InTile(ex: int, ey: int, p: int) {
    0 <= p < Cells &&
    (p % Size) * TileSize <= ex < (p % Size + 1) * TileSize &&
    (p / Size) * TileSize <= ey < (p / Size + 1) * TileSize
  }

  /**
   * The mapping as the mouse handler writes it: the bounds test lets a
   * grid-relative coordinate equal to GridSize through, and the column
   * and row are then computed by integer division by TileSize.
   */
  function ClickPosAsWritten(x: int, y: int): (r: Option<int>)
    ensures r.Some? <==> 0 <= x - Margin <= GridSize && 0 <= y - Margin <= GridSize
  {
    var ex := x - Margin;
    var ey := y - Margin;
    if ex < 0 || ex > GridSize || ey < 0 || ey > GridSize then None
    else
      var c1 := ex / TileSize;
      var r1 := ey / TileSize;
      Some(r1 * Size + c1)
  }

  /**
   * Clicks on the last pixel column of the grid: the one at row 0 is mapped
   * to tile 3, the first tile of row 1, though it lies in no tile's square;
   * the one at the bottom-right corner is mapped to 12, past the last tile.
   */
  lemma EdgeClicksEscape()
    ensures ClickPosAsWritten(Margin + GridSize - 1, Margin) == Some(3)
    ensures ClickPos(Margin + GridSize - 1, Margin).None?
    ensures ClickPosAsWritten(Margin + GridSize, Margin + GridSize) == Some(12)
  {
    assert TileSize == 163 && GridSize == 490;
  }

  /**
   * Every press the handler accepts but that lies in no tile's square is
   * mapped to the first tile of row 1 or row 2, or to an index 9 to 12
   * past the last tile.
   */
  lemma AsWrittenEscapes(x: int, y: int)
    requires ClickPosAsWritten(x, y).Some? && ClickPos(x, y).None?
    ensures ClickPosAsWritten(x, y).value in {3, 6, 9, 10, 11, 12}
  {
    assert TileSize == 163;
  }

  /** Panel pixel (x, y) lies inside the square drawn for tile p. */
  predicate Hit(x: int, y: int, p: int) {
    InTile(x - Margin, y - Margin, p)
  }

  /** Tile row r1, column c1 is drawn as the square around (c1, r1) * TileSize. */
  lemma TileAt(ex: int, ey: int)
    requires 0 <= ex < Size * TileSize && 0 <= ey < Size * TileSize
    ensures InTile(ex, ey, (ey / TileSize) * Size + ex / TileSize)
  {
    assert TileSize == 163;
    var c1, r1 := ex / TileSize, ey / TileSize;
    assert 0 <= c1 < Size && 0 <= r1 < Size;
    var p := r1 * Size + c1;
    assert p % Size == c1 && p / Size == r1;
  }

  /** No tile's square reaches past Size * TileSize. */
  lemma OutsideTiles(ex: int, ey: int, p: int)
    requires ex < 0 || ex >= Size * TileSize || ey < 0 || ey >= Size * TileSize
    ensures !InTile(ex, ey, p)
  {
    assert TileSize == 163;
    if 0 <= p < Cells {
      assert 0 <= p % Size < Size && 0 <= p / Size < Size;
    }
  }

  /**
   * The mapping with the bounds test the handler needs: a position is
   * accepted exactly when it lies in a tile's square, and the tile
   * returned is that square's.
   */
  function ClickPos(x: int, y: int): (r: Option<int>)
    ensures r.Some? ==> Hit(x, y, r.value)
    ensures r.None? ==> forall p :: !Hit(x, y, p)
  {
    var ex := x - Margin;
    var ey := y - Margin;
    if ex < 0 || ex >= Size * TileSize || ey < 0 || ey >= Size * TileSize then
      assert forall p :: !Hit(x, y, p) by {
        forall p ensures !Hit(x, y, p) { OutsideTiles(ex, ey, p); }
      }
      None
    else
      var c1 := ex / TileSize;
      var r1 := ey / TileSize;
      TileAt(ex, ey);
      Some(r1 * Size + c1)
  }

  /** Wherever the corrected mapping accepts a click, the handler's agrees. */
  lemma ClickPosAgreesInside(x: int, y: int)
    ensures ClickPos(x, y).Some? ==> ClickPosAsWritten(x, y) == ClickPos(x, y)
  {
  }

  /** Each tile's square is hit by the corrected mapping. */
  lemma EveryTileReachable(p: int)
    requires 0 <= p < Cells
    ensures ClickPos(Margin + (p % Size) * TileSize, Margin + (p / Size) * TileSize) == Some(p)
  {
  }
}
