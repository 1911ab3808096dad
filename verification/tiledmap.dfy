/** The pure parts of map loading in tiled/map.go: splitting and parsing
    the CSV layer data of a TMX file, the non-empty tileset and layer
    checks of both constructors, and the grid placement of each tile. */
module TiledMap {

  import opened Outcomes
  import GoInt
  import Decimal
  import TileGid
  import Tilesets

  // == Splitting on commas ========

  function CommaCount(s: string): (n: nat)
    ensures n <= |s|
  {
    if |s| == 0 then 0 else (if s[0] == ',' then 1 else 0) + CommaCount(s[1..])
  }

  /** Fields joined back with commas between them. */
  function Join(fields: seq<string>): string
    requires |fields| >= 1
  {
    if |fields| == 1 then fields[0] else fields[0] + "," + Join(fields[1..])
  }

  predicate NoCommas(fields: seq<string>)
  {
    forall i :: 0 <= i < |fields| ==> ',' !in fields[i]
  }

  /** `strings.Split(s, ",")`: one field more than there are commas, the
      empty string included, and none of them holding a comma. */
  function Split(s: string): (fields: seq<string>)
    ensures |fields| == CommaCount(s) + 1
    ensures NoCommas(fields)
    ensures Join(fields) == s
  {
    if |s| == 0 then [""]
    else
      var rest := Split(s[1..]);
      if s[0] == ',' then
        assert s == [','] + s[1..];
        [""] + rest
      else
        var fields := [[s[0]] + rest[0]] + rest[1..];
        assert fields[1..] == rest[1..];
        assert s == [s[0]] + s[1..];
        fields
  }

  lemma SplitFirstField(a: string, b: string)
    requires ',' !in a
    ensures Split(a + "," + b) == [a] + Split(b)
    decreases |a|
  {
    if |a| == 0 {
      assert a + "," + b == [','] + b;
      assert (a + "," + b)[1..] == b;
    } else {
      assert (a + "," + b)[1..] == a[1..] + "," + b;
      SplitFirstField(a[1..], b);
      assert [a[0]] + a[1..] == a;
    }
  }

  /** Splitting undoes joining fields that hold no comma. */
  lemma {:induction false} SplitJoin(fields: seq<string>)
    requires |fields| >= 1 && NoCommas(fields)
    ensures Split(Join(fields)) == fields
    decreases |fields|
  {
    if |fields| == 1 {
      SplitNoComma(fields[0]);
    } else {
      SplitFirstField(fields[0], Join(fields[1..]));
      SplitJoin(fields[1..]);
    }
  }

  lemma SplitNoComma(s: string)
    requires ',' !in s
    ensures Split(s) == [s]
    decreases |s|
  {
    if |s| > 0 {
      SplitNoComma(s[1..]);
      assert [s[0]] + s[1..] == s;
    }
  }

  // == Parsing the layer data ========

  /** `strings.Replace(data, "\n", "", -1)`: the data with every line feed
      dropped and every other character kept in order. */
  function RemoveNewlines(s: string): (r: string)
    ensures '\n' !in r && |r| <= |s|
    ensures '\n' !in s ==> r == s
    ensures forall ch :: ch != '\n' ==> (ch in r <==> ch in s)
  {
    if |s| == 0 then ""
    else
      var rest := RemoveNewlines(s[1..]);
      assert s == [s[0]] + s[1..];
      if s[0] == '\n' then rest else [s[0]] + rest
  }

  /** Dropping line feeds works piecewise: lines may be joined before or
      after their line feeds are removed. */
  lemma {:induction false} RemoveNewlinesConcat(a: string, b: string)
    ensures RemoveNewlines(a + b) == RemoveNewlines(a) + RemoveNewlines(b)
    decreases |a|
  {
    if |a| > 0 {
      var ab := a + b;
      assert ab[0] == a[0] && ab[1..] == a[1..] + b;
      RemoveNewlinesConcat(a[1..], b);
      var rest := RemoveNewlines(a[1..]);
      if a[0] == '\n' {
        assert RemoveNewlines(ab) == RemoveNewlines(a[1..] + b);
        assert RemoveNewlines(a) == rest;
      } else {
        assert RemoveNewlines(ab) == [a[0]] + RemoveNewlines(a[1..] + b);
        assert RemoveNewlines(a) == [a[0]] + rest;
      }
    } else {
      assert a + b == b;
    }
  }

  /** A Go `uint32`, the element type of the tile data. */
  newtype Word = n: int | 0 <= n < 0x1_0000_0000

  /** A field `parseIntCSV` accepts: decimal digits denoting a 32-bit value. */
  predicate FieldParses(field: string)
  {
    Decimal.ParseUint(field, Decimal.MaxUint32).Ok?
  }

  /** The value stored for an accepted field. */
  function FieldValue(field: string): (v: Word)
    requires FieldParses(field)
    ensures Decimal.AllDigits(field) && v as int == Decimal.Value(field)
  {
    Decimal.ParseUint(field, Decimal.MaxUint32).value as Word
  }

  /** Every field before position `i` is accepted. */
  predicate ParsesBefore(fields: seq<string>, i: int)
    requires 0 <= i <= |fields|
  {
    forall j :: 0 <= j < i ==> FieldParses(fields[j])
  }

  /** The loop of `parseIntCSV` over the fields: each field is parsed in
      order and the first failure is fatal. */
  function ParseFields(fields: seq<string>): (r: Result<seq<Word>, Decimal.NumError>)
    ensures r.Ok? <==> ParsesBefore(fields, |fields|)
    ensures r.Ok? ==> |r.value| == |fields| && forall i :: 0 <= i < |fields| ==> r.value[i] == FieldValue(fields[i])
    ensures r.Err? ==> exists i :: && 0 <= i < |fields| && ParsesBefore(fields, i)
                                   && Decimal.ParseUint(fields[i], Decimal.MaxUint32) == Err(r.error)
  {
    if |fields| == 0 then Ok([])
    else
      var head := Decimal.ParseUint(fields[0], Decimal.MaxUint32);
      if head.Err? then
        assert ParsesBefore(fields, 0);
        Err(head.error)
      else
        var tail := ParseFields(fields[1..]);
        ParsesBeforeCons(fields);
        if tail.Err? then
          ParseErrorCons(fields, tail.error);
          Err(tail.error)
        else
          var r := [FieldValue(fields[0])] + tail.value;
          assert forall i :: 1 <= i < |fields| ==> fields[i] == fields[1..][i - 1] && r[i] == tail.value[i - 1];
          Ok(r)
  }

  lemma ParsesBeforeCons(fields: seq<string>)
    requires |fields| > 0 && FieldParses(fields[0])
    ensures forall i :: 0 <= i <= |fields[1..]| ==> (ParsesBefore(fields[1..], i) <==> ParsesBefore(fields, i + 1))
  {
    forall i | 0 <= i <= |fields[1..]| ensures ParsesBefore(fields[1..], i) <==> ParsesBefore(fields, i + 1) {
      assert forall j :: 0 < j < i + 1 ==> fields[j] == fields[1..][j - 1];
    }
  }

  lemma ParseErrorCons(fields: seq<string>, e: Decimal.NumError)
    requires |fields| > 0 && FieldParses(fields[0])
    requires exists i :: && 0 <= i < |fields[1..]| && ParsesBefore(fields[1..], i)
                         && Decimal.ParseUint(fields[1..][i], Decimal.MaxUint32) == Err(e)
    ensures exists i :: && 0 <= i < |fields| && ParsesBefore(fields, i)
                        && Decimal.ParseUint(fields[i], Decimal.MaxUint32) == Err(e)
  {
    var i :| && 0 <= i < |fields[1..]| && ParsesBefore(fields[1..], i)
             && Decimal.ParseUint(fields[1..][i], Decimal.MaxUint32) == Err(e);
    ParsesBeforeCons(fields);
    assert fields[1..][i] == fields[i + 1];
  }

  /** `parseIntCSV`. */
  function ParseIntCsv(csv: string): (r: Result<seq<Word>, Decimal.NumError>)
    ensures r.Ok? ==> |r.value| == CommaCount(csv) + 1
  {
    ParseFields(Split(csv))
  }

  /** The shortest decimal forms of some numbers, comma-separated. */
  function FormatCsv(values: seq<Word>): string
    requires |values| >= 1
  {
    Join(seq(|values|, i requires 0 <= i < |values| => Decimal.Format(values[i] as nat)))
  }

  lemma NoCommaInDigits(s: string)
    requires Decimal.AllDigits(s)
    ensures ',' !in s
  {
  }

  /** Parsing undoes formatting: every list of 32-bit values written as
      decimal CSV reads back as itself. */
  lemma {:induction false} ParseFormatCsv(values: seq<Word>)
    requires |values| >= 1
    ensures ParseIntCsv(FormatCsv(values)) == Ok(values)
  {
    var fields := seq(|values|, i requires 0 <= i < |values| => Decimal.Format(values[i] as nat));
    forall i | 0 <= i < |fields|
      ensures ',' !in fields[i] && FieldParses(fields[i]) && Decimal.Value(fields[i]) == values[i] as nat
    {
      NoCommaInDigits(fields[i]);
      Decimal.ValueOfFormat(values[i] as nat);
    }
    SplitJoin(fields);
    assert FormatCsv(values) == Join(fields);
    assert ParsesBefore(fields, |fields|);
    var r := ParseFields(fields);
    assert r.Ok? && |r.value| == |values|;
    forall i | 0 <= i < |values| ensures r.value[i] == values[i] {
      assert r.value[i] == FieldValue(fields[i]);
    }
    assert r.value == values;
  }

  /** A character other than a digit, a comma or a line feed anywhere in the
      layer data makes some field fail: spaces, tabs and carriage returns
      are all fatal. */
  lemma {:induction false} StrayCharacterIsFatal(data: string, k: nat)
    requires k < |data| && data[k] != ',' && data[k] != '\n' && !Decimal.IsDigit(data[k])
    ensures ParseIntCsv(RemoveNewlines(data)).Err?
  {
    var csv := RemoveNewlines(data);
    assert data[k] in csv;
    var fields := Split(csv);
    if ParseIntCsv(csv).Ok? {
      forall i | 0 <= i < |fields| ensures data[k] !in fields[i] {
        assert FieldParses(fields[i]);
      }
      JoinMembers(fields, data[k]);
      assert false;
    }
  }

  lemma JoinMembers(fields: seq<string>, ch: char)
    requires |fields| >= 1 && ch != ','
    requires forall i :: 0 <= i < |fields| ==> ch !in fields[i]
    ensures ch !in Join(fields)
    decreases |fields|
  {
    if |fields| > 1 {
      JoinMembers(fields[1..], ch);
    }
  }

  /** Empty layer data is one empty field, a syntax error. */
  lemma EmptyDataIsFatal()
    ensures ParseIntCsv("") == Err(Decimal.NumError("ParseUint", "", Decimal.Syntax))
  {
    assert Split("") == [""];
  }

  // == Constructors ========

  /** What the loader keeps: the source of the first tileset (loading it
      is not modelled), the first layer's tile data and the size in tiles. */
  datatype Map = Map(tilesetSource: string, tileData: seq<Word>, width: int, height: int)

  /** The fatal conditions of the constructors, in the order they are checked. */
  datatype LoadError = BadSize(error: Decimal.NumError) | NoTilesets(path: string) | NoLayers(path: string) | BadData(error: Decimal.NumError)

  function Message(e: LoadError): string
  {
    match e
    case NoTilesets(path) => "map at " + path + " had no tilesets"
    case NoLayers(path) => "map at " + path + " had no layers (data)"
    case BadSize(err) => Decimal.ErrorText(err)
    case BadData(err) => Decimal.ErrorText(err)
  }

  /** A decoded `.json` map: tileset sources, layers' data, size in tiles. */
  datatype MapJson = MapJson(tilesets: seq<string>, layers: seq<seq<Word>>, width: int, height: int)

  /** A decoded `.tmx` map: tileset sources, layers' CSV text, size as text. */
  datatype MapTmx = MapTmx(tilesets: seq<string>, layers: seq<string>, width: string, height: string)

  function NewMapFromJson(path: string, raw: MapJson): (r: Result<Map, LoadError>)
    ensures |raw.tilesets| == 0 ==> r == Err(NoTilesets(path))
    ensures |raw.tilesets| > 0 && |raw.layers| == 0 ==> r == Err(NoLayers(path))
    ensures r.Ok? <==> |raw.tilesets| > 0 && |raw.layers| > 0
    ensures r.Ok? ==> r.value == Map(raw.tilesets[0], raw.layers[0], raw.width, raw.height)
  {
    if |raw.tilesets| < 1 then Err(NoTilesets(path))
    else if |raw.layers| < 1 then Err(NoLayers(path))
    else Ok(Map(raw.tilesets[0], raw.layers[0], raw.width, raw.height))
  }

  function NewMapFromTmx(path: string, raw: MapTmx): (r: Result<Map, LoadError>)
    ensures r.Ok? <==> && Decimal.Atoi(raw.width).Ok? && Decimal.Atoi(raw.height).Ok?
                       && |raw.tilesets| > 0 && |raw.layers| > 0
                       && ParseIntCsv(RemoveNewlines(raw.layers[0])).Ok?
    ensures Decimal.Atoi(raw.width).Err? ==> r == Err(BadSize(Decimal.Atoi(raw.width).error))
    ensures Decimal.Atoi(raw.width).Ok? && Decimal.Atoi(raw.height).Ok? && |raw.tilesets| == 0 ==> r == Err(NoTilesets(path))
    ensures r.Ok? ==> && r.value.tilesetSource == raw.tilesets[0]
                      && r.value.width == Decimal.Atoi(raw.width).value
                      && r.value.height == Decimal.Atoi(raw.height).value
                      && Ok(r.value.tileData) == ParseIntCsv(RemoveNewlines(raw.layers[0]))
  {
    match Decimal.Atoi(raw.width)
    case Err(e) => Err(BadSize(e))
    case Ok(w) =>
      match Decimal.Atoi(raw.height)
      case Err(e) => Err(BadSize(e))
      case Ok(h) =>
        if |raw.tilesets| < 1 then Err(NoTilesets(path))
        else if |raw.layers| < 1 then Err(NoLayers(path))
        else
          match ParseIntCsv(RemoveNewlines(raw.layers[0]))
          case Err(e) => Err(BadData(e))
          case Ok(data) => Ok(Map(raw.tilesets[0], data, w, h))
  }

  // == Drawing ========

  /** Where tile `n` of the layer is drawn: column `n % width` and row
      `n / width` of the grid, in pixels, with Go's truncating `%` and `/`.
      A zero map width divides by zero, so it is excluded. */
  function TilePixel(n: nat, width: int, tileWidth: int, tileHeight: int): (int, int)
    requires width != 0
  {
    (GoInt.Rem(n, width) * tileWidth, GoInt.Quo(n, width) * tileHeight)
  }

  /** Each of the `width * height` cells of the map is drawn entirely
      inside the map image, which is `width * tileWidth` by
      `height * tileHeight` pixels. */
  lemma {:induction false} TilePixelInsideImage(n: nat, width: int, height: int, tileWidth: int, tileHeight: int)
    requires width > 0 && tileWidth >= 0 && tileHeight >= 0 && n < width * height
    ensures var (x, y) := TilePixel(n, width, tileWidth, tileHeight);
      0 <= x && x + tileWidth <= width * tileWidth && 0 <= y && y + tileHeight <= height * tileHeight
  {
    var col, row := GoInt.Rem(n, width), GoInt.Quo(n, width);
    assert n == width * row + col && 0 <= col < width;
    assert row < height by {
      if row >= height {
        Tilesets.MulLeft(width, height, row);
      }
    }
    assert row >= 0;
    Tilesets.MulLeft(tileWidth, 0, col);
    Tilesets.MulLeft(tileWidth, col + 1, width);
    Tilesets.MulLeft(tileHeight, 0, row);
    Tilesets.MulLeft(tileHeight, row + 1, height);
    assert col * tileWidth == tileWidth * col && (col + 1) * tileWidth == tileWidth * col + tileWidth;
    assert row * tileHeight == tileHeight * row && (row + 1) * tileHeight == tileHeight * row + tileHeight;
    assert width * tileWidth == tileWidth * width && height * tileHeight == tileHeight * height;
  }

  /** Scaling by a positive tile size keeps the order of grid coordinates. */
  lemma {:induction false} ScaleStrict(a: int, b: int, t: int)
    requires t > 0 && a < b
    ensures a * t < b * t
  {
    GoInt.MulAtLeast(b - a, t);
    assert (b - a) * t == b * t - a * t;
  }

  /** With positive tile sizes, a pixel determines the index of the tile
      drawn there: the column and the row give the index back. */
  lemma {:induction false} TilePixelInjective(n: nat, k: nat, width: int, tileWidth: int, tileHeight: int)
    requires width != 0 && tileWidth > 0 && tileHeight > 0
    ensures TilePixel(n, width, tileWidth, tileHeight) == TilePixel(k, width, tileWidth, tileHeight) ==> n == k
  {
    var c1, c2 := GoInt.Rem(n, width), GoInt.Rem(k, width);
    var q1, q2 := GoInt.Quo(n, width), GoInt.Quo(k, width);
    if c1 < c2 { ScaleStrict(c1, c2, tileWidth); }
    if c2 < c1 { ScaleStrict(c2, c1, tileWidth); }
    if q1 < q2 { ScaleStrict(q1, q2, tileHeight); }
    if q2 < q1 { ScaleStrict(q2, q1, tileHeight); }
  }

  /** What `getTileImageAndOpts` derives from one tile of the layer. */
  datatype Placement = Placement(tile: TileGid.TileRef, image: Tilesets.Rectangle, x: int, y: int)

  /** One tile: global ID `gid` at index `n` of a layer `width` tiles wide. */
  function PlaceTile(gid: Word, n: nat, width: int, ts: Tilesets.Tileset): (p: Placement)
    requires width != 0 && ts.numCols != 0
    ensures TileGid.Decodable(p.tile) && TileGid.EncodeGid(p.tile) == gid as bv32
    ensures p.image == Tilesets.SubRect(ts, p.tile.localId as int)
    ensures (p.x, p.y) == TilePixel(n, width, ts.tileWidth, ts.tileHeight)
  {
    TileGid.EncodeDecode(gid as bv32);
    var t := TileGid.DecodeGid(gid as bv32);
    var (x, y) := TilePixel(n, width, ts.tileWidth, ts.tileHeight);
    Placement(t, Tilesets.SubRect(ts, t.localId as int), x, y)
  }

  /** The draw loop: every tile of the data, in order, decoded, looked up
      in the tileset by `int(localID)` and placed on the grid.  Each decoded
      tile encodes back to its global ID. */
  function Placements(m: Map, ts: Tilesets.Tileset): (r: seq<Placement>)
    requires m.width != 0 && ts.numCols != 0
    ensures |r| == |m.tileData|
    ensures forall n :: 0 <= n < |r| ==>
      && TileGid.Decodable(r[n].tile)
      && TileGid.EncodeGid(r[n].tile) == m.tileData[n] as bv32
      && r[n].image == Tilesets.SubRect(ts, r[n].tile.localId as int)
      && (r[n].x, r[n].y) == TilePixel(n, m.width, ts.tileWidth, ts.tileHeight)
  {
    seq(|m.tileData|, n requires 0 <= n < |m.tileData| => PlaceTile(m.tileData[n], n, m.width, ts))
  }

  /** When the layer has no more tiles than its `width * height` cells,
      every tile is drawn entirely inside the map image. */
  lemma PlacementsInsideImage(m: Map, ts: Tilesets.Tileset)
    requires m.width > 0 && ts.numCols != 0 && ts.tileWidth >= 0 && ts.tileHeight >= 0
    requires |m.tileData| <= m.width * m.height
    ensures forall p :: p in Placements(m, ts) ==>
      && 0 <= p.x && p.x + ts.tileWidth <= m.width * ts.tileWidth
      && 0 <= p.y && p.y + ts.tileHeight <= m.height * ts.tileHeight
  {
    var r := Placements(m, ts);
    forall n | 0 <= n < |r|
      ensures 0 <= r[n].x && r[n].x + ts.tileWidth <= m.width * ts.tileWidth
      ensures 0 <= r[n].y && r[n].y + ts.tileHeight <= m.height * ts.tileHeight
    {
      TilePixelInsideImage(n, m.width, m.height, ts.tileWidth, ts.tileHeight);
    }
  }

  /** With positive tile sizes no two tiles of the layer are drawn at the
      same pixel. */
  lemma PlacementsDistinct(m: Map, ts: Tilesets.Tileset)
    requires m.width != 0 && ts.numCols != 0 && ts.tileWidth > 0 && ts.tileHeight > 0
    ensures forall n, k :: 0 <= n < k < |Placements(m, ts)| ==>
      (Placements(m, ts)[n].x, Placements(m, ts)[n].y) != (Placements(m, ts)[k].x, Placements(m, ts)[k].y)
  {
    var r := Placements(m, ts);
    forall n, k | 0 <= n < k < |r|
      ensures (r[n].x, r[n].y) != (r[k].x, r[k].y)
    {
      TilePixelInjective(n, k, m.width, ts.tileWidth, ts.tileHeight);
    }
  }
}
