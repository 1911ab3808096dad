/** `Tileset.GetTileImage` (tiled/tileset.go): the sub-rectangle of the
    tileset image that holds a local tile ID.  The image itself and its
    loading are not modelled; `image.Rect` is. */
module Tilesets {

  import GoInt

  datatype Tileset = Tileset(tileWidth: int, tileHeight: int, numTiles: int, numCols: int)

  datatype Rectangle = Rectangle(minX: int, minY: int, maxX: int, maxY: int)

  /** `image.Rect`: the rectangle with the given corners, swapped where
      needed so that min <= max on both axes. */
  function Rect(x0: int, y0: int, x1: int, y1: int): (r: Rectangle)
    ensures r.minX <= r.maxX && r.minY <= r.maxY
    ensures {r.minX, r.maxX} == {x0, x1} && {r.minY, r.maxY} == {y0, y1}
  {
    var (lx, hx) := if x0 > x1 then (x1, x0) else (x0, x1);
    var (ly, hy) := if y0 > y1 then (y1, y0) else (y0, y1);
    Rectangle(lx, ly, hx, hy)
  }

  /** The top-left corner of tile `id`: its column times the tile width and
      its row times the tile height, with Go's truncating `%` and `/`.  A
      zero column count divides by zero, so it is excluded. */
  function TileOrigin(ts: Tileset, id: int): (int, int)
    requires ts.numCols != 0
  {
    (GoInt.Rem(id, ts.numCols) * ts.tileWidth, GoInt.Quo(id, ts.numCols) * ts.tileHeight)
  }

  /** `GetTileImage`'s rectangle.  Its far corner adds `tileWidth` on both
      axes, so the rectangle is `tileWidth` tall whatever `tileHeight` is. */
  function SubRect(ts: Tileset, id: int): (r: Rectangle)
    requires ts.numCols != 0
    ensures ts.tileWidth >= 0 ==> r.minX == TileOrigin(ts, id).0 && r.minY == TileOrigin(ts, id).1
    ensures r.maxX - r.minX == GoInt.Abs(ts.tileWidth) && r.maxY - r.minY == GoInt.Abs(ts.tileWidth)
  {
    var (x, y) := TileOrigin(ts, id);
    Rect(x, y, x + ts.tileWidth, y + ts.tileWidth)
  }

  /** For square tiles the rectangle is the tile; otherwise its height is
      wrong by `tileWidth - tileHeight`. */
  lemma SubRectHeightIsTileWidth(ts: Tileset, id: int)
    requires ts.numCols != 0 && ts.tileWidth >= 0
    ensures SubRect(ts, id).maxY - SubRect(ts, id).minY == ts.tileHeight <==> ts.tileWidth == ts.tileHeight
  {
  }

  lemma MulLeft(k: int, a: int, b: int)
    requires k >= 0 && a <= b
    ensures k * a <= k * b
  {
    assert k * b - k * a == k * (b - a);
  }

  /** For a non-negative ID, positive column count and non-negative tile
      width, the rectangle's x-range lies within the first `numCols` tile
      widths. */
  lemma {:induction false} SubRectWithinColumns(ts: Tileset, id: int)
    requires ts.numCols > 0 && ts.tileWidth >= 0 && id >= 0
    ensures 0 <= SubRect(ts, id).minX && SubRect(ts, id).maxX <= ts.numCols * ts.tileWidth
  {
    var col := GoInt.Rem(id, ts.numCols);
    assert 0 <= col < ts.numCols;
    MulLeft(ts.tileWidth, 0, col);
    MulLeft(ts.tileWidth, col + 1, ts.numCols);
    assert col * ts.tileWidth == ts.tileWidth * col;
    assert ts.numCols * ts.tileWidth == ts.tileWidth * ts.numCols;
    assert (col + 1) * ts.tileWidth == ts.tileWidth * (col + 1) == ts.tileWidth * col + ts.tileWidth;
  }

  /** With positive tile sizes the ID can be read back from the corner:
      distinct non-negative IDs get distinct rectangles. */
  lemma {:induction false} TileOriginRecoversId(ts: Tileset, id: int)
    requires ts.numCols > 0 && ts.tileWidth > 0 && ts.tileHeight > 0 && id >= 0
    ensures var (x, y) := TileOrigin(ts, id);
      x / ts.tileWidth + (y / ts.tileHeight) * ts.numCols == id
  {
    var col, row := GoInt.Rem(id, ts.numCols), GoInt.Quo(id, ts.numCols);
    GoInt.MulDivCancel(col, ts.tileWidth);
    GoInt.MulDivCancel(row, ts.tileHeight);
    assert id == ts.numCols * row + col;
  }
}
