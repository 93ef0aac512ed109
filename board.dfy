/** The play-field: a 14 x 9 grid of tiles over the column indices -7..7 and
    the row indices -5..4 (both half-open), one tile pitch (50 world units)
    apart, laid out once at startup with a colour that flips after every
    cell, and a zone marker at the right end of every row. */
module Board {

  /** Tile pitch in world units; the game's `WIDTH` and `HEIGHT` constants are the same value. */
  const Pitch: int := 50

  /** Half-open column range XStart..XEnd and row range YStart..YEnd. */
  const XStart: int := -7
  const XEnd: int := 7
  const YStart: int := -5
  const YEnd: int := 4

  const Columns: int := XEnd - XStart
  const Rows: int := YEnd - YStart

  /** World-space bounds of the field: the first and last column and row, times the pitch. */
  const Left: int := XStart * Pitch
  const Right: int := (XEnd - 1) * Pitch
  const Bottom: int := YStart * Pitch
  const Top: int := (YEnd - 1) * Pitch

  predicate IsColumn(x: int) { XStart <= x < XEnd }
  predicate IsRow(y: int) { YStart <= y < YEnd }

  datatype Tile = White | Gray

  /** The flip applied to the running `tile` value after each cell. */
  function Toggle(t: Tile): (r: Tile)
    ensures r != t
  {
    match t
    case White => Gray
    case Gray => White
  }

  lemma ToggleInvolutive(t: Tile)
    ensures Toggle(Toggle(t)) == t
  {
  }

  /** An sRGB colour. Only the tile colour mapping is modelled; the layout stores the `Tile`
      itself, so `Color` stands on its own. */
  datatype Rgb = Rgb(red: real, green: real, blue: real)

  /** The colour a tile is drawn with: both are shades of grey, White at full
      intensity and Gray at half. */
  function Color(t: Tile): (c: Rgb)
    ensures c.red == c.green == c.blue
    ensures c.red == 1.0 <==> t == White
    ensures c.red == 0.5 <==> t == Gray
  {
    match t
    case White => Rgb(1.0, 1.0, 1.0)
    case Gray => Rgb(0.5, 0.5, 0.5)
  }

  /** The two tiles are told apart by their colour. */
  lemma ColorInjective(t: Tile, u: Tile)
    ensures Color(t) == Color(u) <==> t == u
  {
  }

  /** A background tile as spawned: its world position and its colour. */
  datatype TileEntity = TileEntity(x: int, y: int, tile: Tile)

  /** A zone marker as spawned: its world position. */
  datatype Marker = Marker(x: int, y: int)

  /** Position of cell (x, y) in the row-major order in which the layout loop visits it. */
  function CellIndex(x: int, y: int): (i: int)
    requires IsColumn(x) && IsRow(y)
    ensures 0 <= i < Columns * Rows
    ensures XStart + i % Columns == x && YStart + i / Columns == y
  {
    (y - YStart) * Columns + (x - XStart)
  }

  /** The colour a checkerboard with an even row width gives column x: rows all start White. */
  function Shade(x: int): Tile
  {
    if (x - XStart) % 2 == 0 then White else Gray
  }

  /** The tile the layout loop spawns as its i-th, counting from 0 in visiting order. */
  function NthTile(i: nat): TileEntity
  {
    var x := XStart + i % Columns;
    var y := YStart + i / Columns;
    TileEntity(x * Pitch, y * Pitch, Shade(x))
  }

  /** The visiting order reaches cell (x, y) at its row-major index. */
  lemma NthTileOfCell(x: int, y: int)
    requires IsColumn(x) && IsRow(y)
    ensures NthTile((y - YStart) * Columns + (x - XStart)) == TileEntity(x * Pitch, y * Pitch, Shade(x))
  {
    var i := (y - YStart) * Columns + (x - XStart);
    assert i == CellIndex(x, y);
  }

  /** What the layout loop leaves behind: the 126 tiles in visiting order. */
  ghost predicate LaidOut(tiles: seq<TileEntity>)
  {
    && |tiles| == Columns * Rows
    && forall i | 0 <= i < |tiles| :: tiles[i] == NthTile(i)
  }

  /** The tile loop of startup: rows outer, columns inner, a running colour
      flipped after every cell. Returns the spawned tiles in spawn order. */
  method LayTiles() returns (tiles: seq<TileEntity>)
    ensures LaidOut(tiles)
    ensures |tiles| == 126
  {
    tiles := [];
    var tile := White;
    for y := YStart to YEnd
      invariant |tiles| == (y - YStart) * Columns
      invariant tile == White
      invariant forall i | 0 <= i < |tiles| :: tiles[i] == NthTile(i)
    {
      for x := XStart to XEnd
        invariant |tiles| == (y - YStart) * Columns + (x - XStart)
        invariant tile == Shade(x)
        invariant forall i | 0 <= i < |tiles| :: tiles[i] == NthTile(i)
      {
        NthTileOfCell(x, y);
        tiles := tiles + [TileEntity(x * Pitch, y * Pitch, tile)];
        tile := Toggle(tile);
      }
    }
  }

  /** Each cell (x, y) of the grid gets a tile at world position (x * 50, y * 50),
      coloured White exactly when x + 7 is even. */
  lemma LaidOutCell(tiles: seq<TileEntity>, x: int, y: int)
    requires LaidOut(tiles)
    requires IsColumn(x) && IsRow(y)
    ensures tiles[CellIndex(x, y)] == TileEntity(x * Pitch, y * Pitch, Shade(x))
    ensures tiles[CellIndex(x, y)].tile == White <==> (x + 7) % 2 == 0
  {
  }

  /** Every spawned tile sits on a grid cell, and no two tiles share a cell:
      with 126 tiles and 126 cells, the layout is a bijection. */
  lemma LaidOutCellsDistinct(tiles: seq<TileEntity>, i: int, j: int)
    requires LaidOut(tiles)
    requires 0 <= i < |tiles| && 0 <= j < |tiles|
    ensures IsColumn(tiles[i].x / Pitch) && IsRow(tiles[i].y / Pitch)
    ensures tiles[i].x % Pitch == 0 && tiles[i].y % Pitch == 0
    ensures i != j ==> (tiles[i].x, tiles[i].y) != (tiles[j].x, tiles[j].y)
  {
  }

  /** Consecutive tiles in spawn order have opposite colours, across row ends
      too, because the row width is even. */
  lemma LaidOutAlternates(tiles: seq<TileEntity>, i: int)
    requires LaidOut(tiles)
    requires 0 <= i < |tiles| - 1
    ensures tiles[i + 1].tile == Toggle(tiles[i].tile)
    ensures tiles[0].tile == White
  {
    var row, col := i / Columns, i % Columns;
    assert i == row * Columns + col;
    if col < Columns - 1 {
      RowMajor(row, col + 1);
      assert (i + 1) % Columns == col + 1;
    } else {
      RowMajor(row + 1, 0);
      assert (i + 1) % Columns == 0;
    }
  }

  /** Decoding a row-major index with the row width. */
  lemma RowMajor(row: int, col: int)
    requires 0 <= col < Columns
    ensures (row * Columns + col) % Columns == col && (row * Columns + col) / Columns == row
  {
  }

  /** What the marker loop leaves behind: one marker per row, in the last column. */
  ghost predicate Marked(markers: seq<Marker>)
  {
    && |markers| == Rows
    && forall y | IsRow(y) :: markers[y - YStart] == Marker(Right, y * Pitch)
  }

  /** The marker loop of startup. */
  method PlaceMarkers() returns (markers: seq<Marker>)
    ensures Marked(markers)
  {
    markers := [];
    for y := YStart to YEnd
      invariant |markers| == y - YStart
      invariant forall y' | YStart <= y' < y :: markers[y' - YStart] == Marker(Right, y' * Pitch)
    {
      markers := markers + [Marker(Right, y * Pitch)];
    }
  }

  /** No two markers share a row, and each marker is on some row of the grid. */
  lemma MarkedOnePerRow(markers: seq<Marker>, i: int, j: int)
    requires Marked(markers)
    requires 0 <= i < |markers| && 0 <= j < |markers|
    ensures markers[i].x == Right && IsRow(markers[i].y / Pitch) && markers[i].y % Pitch == 0
    ensures i != j ==> markers[i].y != markers[j].y
  {
    assert markers[i] == Marker(Right, (YStart + i) * Pitch);
    assert markers[j] == Marker(Right, (YStart + j) * Pitch);
  }
}
