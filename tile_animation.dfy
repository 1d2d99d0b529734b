/**
 * grTileAnimation: an animation stored as a table of 16x16 tiles. Every
 * frame is cut into tiles; a tile equal (within the comparison tolerance)
 * to one already stored is reused, so a frame is a list of tile numbers
 * (`frameIndex`, row by row), and the tiles themselves are words in
 * `tileData`, tile k starting at `tileOffsets[k]`. Compression replaces
 * every tile's words by its compressed form and rebuilds the offsets.
 *
 * tileCount() is taken to be `|tileOffsets| - 1`, one offset per tile plus
 * the end offset; gr_tile_animation.h is not part of this model.
 */
module TileAnimations {
  import opened Wrappers
  import opened TileSprite

  /** The number of tiles along an axis of `size` pixels with tiles `tile` pixels long: `(size + tile/2) / tile`. */
  function TilesAlong(size: int, tile: nat): int
    requires tile > 0
  {
    CDiv(size + tile / 2, tile)
  }

  /**
   * The tile count rounds the frame size to the nearest multiple of the
   * tile size: the tiles cover the frame to within half a tile, and the
   * pixels past the last whole tile are not stored when fewer than half a
   * tile remain.
   */
  lemma TilesRoundToNearest(size: nat)
    ensures var n := TilesAlong(size, TileSizeX);
      n >= 0 && size - TileSizeX / 2 < n * TileSizeX <= size + TileSizeX / 2
    ensures TilesAlong(20, TileSizeX) == 1 && TilesAlong(24, TileSizeX) == 2
  {
  }

  /** The words of tile `k` of an uncompressed table read at `k * TILE_SIZE`, as compress reads them. */
  function TileWords(data: seq<Word>, k: nat): (t: seq<Word>)
    requires (k + 1) * TileSize <= |data|
    ensures |t| == TileSize
  {
    data[k * TileSize..(k + 1) * TileSize]
  }

  lemma TileInData(k: nat, n: nat)
    requires k < n
    ensures (k + 1) * TileSize <= n * TileSize
  {
  }

  /** The first `n` tiles of an uncompressed table, in order. */
  function Tiles(data: seq<Word>, n: nat): (ts: seq<seq<Word>>)
    requires n * TileSize <= |data|
    ensures |ts| == n && AllTiles(ts)
  {
    if n == 0 then [] else Tiles(data, n - 1) + [TileWords(data, n - 1)]
  }

  /** Tile k of the list is the tile read at k * TILE_SIZE. */
  lemma {:induction false} TilesAt(data: seq<Word>, n: nat, k: nat)
    requires n * TileSize <= |data| && k < n
    ensures (k + 1) * TileSize <= |data| && Tiles(data, n)[k] == TileWords(data, k)
  {
    TileInData(k, n);
    if k < n - 1 {
      TilesAt(data, n - 1, k);
    }
  }

  /** Every element is a whole tile. */
  predicate AllTiles(ts: seq<seq<Word>>) {
    forall k :: 0 <= k < |ts| ==> |ts[k]| == TileSize
  }

  /** The words grTileSprite::compress writes for one tile. */
  function CompressedTile(m: Compression, lz: Lz77Codec, t: seq<Word>): seq<Word>
    requires |t| == TileSize
  {
    match m
    case Rle => Encode(t)
    case Lz77 => lz.encode(t)
    case Uncompressed => []
  }

  /** The words of all the pieces, one after another. */
  function Cat(ws: seq<seq<Word>>): seq<Word> {
    if |ws| == 0 then [] else Cat(ws[..|ws| - 1]) + ws[|ws| - 1]
  }

  /** Where each piece ends once the pieces are laid one after another from 0. */
  function Ends(ws: seq<seq<Word>>): (offs: seq<int>)
    ensures |offs| == |ws| + 1 && offs[0] == 0
  {
    if |ws| == 0 then [0] else Ends(ws[..|ws| - 1]) + [|Cat(ws)|]
  }

  /** The last offset is the length of the laid-out words. */
  lemma EndsLast(ws: seq<seq<Word>>)
    ensures Ends(ws)[|ws|] == |Cat(ws)|
  {
  }

  /** Offsets i and i+1 bound exactly piece i of the laid-out pieces. */
  lemma {:induction false} CatLayout(ws: seq<seq<Word>>, i: nat)
    requires i < |ws|
    ensures var offs := Ends(ws);
      offs[i + 1] == offs[i] + |ws[i]| && 0 <= offs[i] <= offs[i + 1] <= |Cat(ws)| &&
      Cat(ws)[offs[i]..offs[i + 1]] == ws[i]
  {
    var n := |ws|;
    var init := ws[..n - 1];
    var prev := Ends(init);
    var offs := Ends(ws);
    var d := Cat(init);
    var last := ws[n - 1];
    assert Cat(ws) == d + last;
    assert offs == prev + [|d + last|];
    if i < n - 1 {
      CatLayout(init, i);
      assert init[i] == ws[i];
      assert offs[i] == prev[i] && offs[i + 1] == prev[i + 1];
      PrefixSlice(d, last, prev[i], prev[i + 1]);
    } else {
      EndsLast(init);
      AppendedSlice(d, last);
    }
  }

  /** Each tile's compressed words. */
  function CompressedTiles(m: Compression, lz: Lz77Codec, ts: seq<seq<Word>>): (cs: seq<seq<Word>>)
    requires AllTiles(ts)
    ensures |cs| == |ts|
  {
    if |ts| == 0 then [] else CompressedTiles(m, lz, ts[..|ts| - 1]) + [CompressedTile(m, lz, ts[|ts| - 1])]
  }

  /** Compressing one more tile appends its compressed words. */
  lemma {:induction false} CompressedTilesSnoc(m: Compression, lz: Lz77Codec, ts: seq<seq<Word>>, t: seq<Word>)
    requires AllTiles(ts) && |t| == TileSize
    ensures AllTiles(ts + [t])
    ensures CompressedTiles(m, lz, ts + [t]) == CompressedTiles(m, lz, ts) + [CompressedTile(m, lz, t)]
  {
    assert (ts + [t])[..|ts|] == ts;
  }

  /** Element k of the compressed list is tile k compressed. */
  lemma {:induction false} CompressedTilesAt(m: Compression, lz: Lz77Codec, ts: seq<seq<Word>>, k: nat)
    requires AllTiles(ts) && k < |ts|
    ensures CompressedTiles(m, lz, ts)[k] == CompressedTile(m, lz, ts[k])
  {
    if k < |ts| - 1 {
      CompressedTilesAt(m, lz, ts[..|ts| - 1], k);
    }
  }

  /** Laying out one more piece appends its words and its end offset. */
  lemma {:induction false} CatAppend(ws: seq<seq<Word>>, w: seq<Word>)
    ensures Cat(ws + [w]) == Cat(ws) + w
    ensures Ends(ws + [w]) == Ends(ws) + [|Cat(ws)| + |w|]
  {
    var ws' := ws + [w];
    assert ws'[..|ws|] == ws;
    assert ws'[|ws|] == w;
  }

  /** The tile data after compressing the tiles one after another. */
  function CompressedData(m: Compression, lz: Lz77Codec, ts: seq<seq<Word>>): seq<Word>
    requires AllTiles(ts)
  {
    Cat(CompressedTiles(m, lz, ts))
  }

  /** The offsets after compressing the tiles: 0, then each tile's end. */
  function CompressedOffsets(m: Compression, lz: Lz77Codec, ts: seq<seq<Word>>): seq<int>
    requires AllTiles(ts)
  {
    Ends(CompressedTiles(m, lz, ts))
  }

  /** A slice inside the first part of a concatenation is a slice of that part. */
  lemma PrefixSlice<T>(a: seq<T>, b: seq<T>, i: nat, j: nat)
    requires i <= j <= |a|
    ensures (a + b)[i..j] == a[i..j]
  {
  }

  /** The second part of a concatenation is the slice after the first. */
  lemma AppendedSlice<T>(a: seq<T>, b: seq<T>)
    ensures (a + b)[|a|..|a| + |b|] == b
  {
  }

  /** A sequence from position i is its slice up to j followed by the rest. */
  lemma SplitAt<T>(s: seq<T>, i: nat, j: nat)
    requires i <= j <= |s|
    ensures s[i..] == s[i..j] + s[j..]
  {
  }

  /** Every tile of an RLE-compressed table decodes back to the tile it was made from. */
  lemma RleTilesDecode(lz: Lz77Codec, ts: seq<seq<Word>>, i: nat)
    requires AllTiles(ts) && i < |ts|
    ensures var offs := CompressedOffsets(Rle, lz, ts);
      |offs| == |ts| + 1 && 0 <= offs[i] <= |CompressedData(Rle, lz, ts)| &&
      Decode(CompressedData(Rle, lz, ts)[offs[i]..]) == Some(ts[i])
  {
    var cs := CompressedTiles(Rle, lz, ts);
    var offs := Ends(cs);
    var cd := Cat(cs);
    CatLayout(cs, i);
    CompressedTilesAt(Rle, lz, ts, i);
    assert cs[i] == Encode(ts[i]);
    SplitAt(cd, offs[i], offs[i + 1]);
    RoundTrip(ts[i], cd[offs[i + 1]..]);
  }

  /**
   * Compressing with TILE_UNCOMPRESSED writes no word for any tile: the
   * data is emptied and every offset is 0.
   */
  lemma UncompressedMethodEmptiesTiles(lz: Lz77Codec, ts: seq<seq<Word>>)
    requires AllTiles(ts)
    ensures CompressedData(Uncompressed, lz, ts) == []
    ensures forall k :: 0 <= k <= |ts| ==> CompressedOffsets(Uncompressed, lz, ts)[k] == 0
  {
    var cs := CompressedTiles(Uncompressed, lz, ts);
    forall k | 0 <= k < |cs|
      ensures cs[k] == []
    {
      CompressedTilesAt(Uncompressed, lz, ts, k);
    }
    EmptyPieces(cs);
  }

  lemma {:induction false} EmptyPieces(ws: seq<seq<Word>>)
    requires forall k :: 0 <= k < |ws| ==> ws[k] == []
    ensures Cat(ws) == [] && forall k :: 0 <= k <= |ws| ==> Ends(ws)[k] == 0
  {
    if |ws| > 0 {
      EmptyPieces(ws[..|ws| - 1]);
    }
  }

  /**
   * The loop of compress: each of the first n tiles of `src` compressed
   * into the scratch buffer and appended, with its end offset.
   */
  method CompressTiles(src: seq<Word>, n: nat, m: Compression, lz: Lz77Codec) returns (data: seq<Word>, offs: seq<int>)
    requires n * TileSize <= |src|
    requires m == Lz77 ==> FitsScratch(lz)
    ensures data == CompressedData(m, lz, Tiles(src, n))
    ensures offs == CompressedOffsets(m, lz, Tiles(src, n))
  {
    data := [];
    offs := [0];
    var inBuf := new Word[TileSize];
    var outBuf := new Word[4 * TileSize];
    var i := 0;
    while i < n
      invariant 0 <= i <= n
      invariant data == Cat(CompressedTiles(m, lz, Tiles(src, i)))
      invariant offs == Ends(CompressedTiles(m, lz, Tiles(src, i)))
    {
      data, offs := CompressNextTile(src, n, i, m, lz, inBuf, outBuf, data, offs);
      i := i + 1;
    }
  }

  /** One pass of compress's loop: tile i compressed and appended, with its end offset. */
  method CompressNextTile(src: seq<Word>, n: nat, i: nat, m: Compression, lz: Lz77Codec,
                          inBuf: array<Word>, outBuf: array<Word>, data: seq<Word>, offs: seq<int>)
    returns (data': seq<Word>, offs': seq<int>)
    requires i < n && n * TileSize <= |src|
    requires m == Lz77 ==> FitsScratch(lz)
    requires inBuf.Length == TileSize && outBuf.Length == 4 * TileSize && inBuf != outBuf
    requires data == Cat(CompressedTiles(m, lz, Tiles(src, i)))
    requires offs == Ends(CompressedTiles(m, lz, Tiles(src, i)))
    modifies inBuf, outBuf
    ensures data' == Cat(CompressedTiles(m, lz, Tiles(src, i + 1)))
    ensures offs' == Ends(CompressedTiles(m, lz, Tiles(src, i + 1)))
  {
    TileInData(i, n);
    LoadTile(inBuf, src, i);
    var w := CompressTile(inBuf, outBuf, m, lz);
    ghost var ts := Tiles(src, i);
    ghost var t := TileWords(src, i);
    assert Tiles(src, i + 1) == ts + [t];
    CompressedTilesSnoc(m, lz, ts, t);
    CatAppend(CompressedTiles(m, lz, ts), w);
    data' := data + w;
    offs' := offs + [|data'|];
  }

  /** Copy tile i of an uncompressed table into the buffer compress hands to the tile codec. */
  method LoadTile(buf: array<Word>, data: seq<Word>, i: nat)
    requires buf.Length == TileSize && (i + 1) * TileSize <= |data|
    modifies buf
    ensures buf[..] == TileWords(data, i)
  {
    forall k | 0 <= k < TileSize {
      buf[k] := data[i * TileSize + k];
    }
  }

  /** grTileSprite::compress into the scratch buffer, and the words it wrote. */
  method CompressTile(inBuf: array<Word>, outBuf: array<Word>, m: Compression, lz: Lz77Codec) returns (w: seq<Word>)
    requires inBuf.Length == TileSize && outBuf.Length == 4 * TileSize && inBuf != outBuf
    requires m == Lz77 ==> FitsScratch(lz)
    modifies outBuf
    ensures w == CompressedTile(m, lz, inBuf[..])
  {
    var sz := TileSprite.Compress(inBuf, outBuf, m, lz);
    w := outBuf[..sz];
  }

  /** The codec never writes more than the four-tile scratch buffer holds. */
  ghost predicate FitsScratch(lz: Lz77Codec) {
    forall t: seq<Word> :: |t| == TileSize ==> |lz.encode(t)| <= 4 * TileSize
  }

  /** A frame of `w` x `h` pixels, row by row, holds all its pixels. */
  predicate FrameFits(frame: seq<Word>, w: int, h: int) {
    w > 0 && h > 0 ==> w * h <= |frame|
  }

  lemma PixelInFrame(w: int, h: int, x: int, y: int)
    requires 0 <= x < w && 0 <= y < h
    ensures 0 <= y * w + x < w * h
  {
    assert y * w + x < y * w + w == (y + 1) * w;
    assert (y + 1) * w <= h * w;
  }

  /** Pixel k of tile (i, j) of a frame: the frame pixel under it, or 0 outside the frame. */
  function TilePixel(frame: seq<Word>, w: int, h: int, i: nat, j: nat, k: nat): Word
    requires FrameFits(frame, w, h) && k < TileSize
  {
    var y := i * TileSizeY + k / TileSizeX;
    var x := j * TileSizeX + k % TileSizeX;
    if y < h && x < w then
      PixelInFrame(w, h, x, y);
      frame[y * w + x]
    else 0
  }

  /** Tile (i, j) of a frame: row i, column j, zero where it hangs over the frame's edge. */
  function FrameTile(frame: seq<Word>, w: int, h: int, i: nat, j: nat): (t: seq<Word>)
    requires FrameFits(frame, w, h)
    ensures |t| == TileSize
  {
    seq(TileSize, k requires 0 <= k < TileSize => TilePixel(frame, w, h, i, j, k))
  }

  /** The tiles of row i of a frame, `tx` of them. */
  function RowTiles(frame: seq<Word>, w: int, h: int, i: nat, tx: int): (r: seq<seq<Word>>)
    requires FrameFits(frame, w, h)
    ensures |r| == if tx < 0 then 0 else tx
    ensures forall p :: 0 <= p < |r| ==> |r[p]| == TileSize
  {
    seq(if tx < 0 then 0 else tx, j requires 0 <= j => FrameTile(frame, w, h, i, j))
  }

  /** The tiles of the first `rows` rows of a frame, row by row. */
  function FrameTiles(frame: seq<Word>, w: int, h: int, tx: int, rows: int): (r: seq<seq<Word>>)
    requires FrameFits(frame, w, h)
    ensures forall p :: 0 <= p < |r| ==> |r[p]| == TileSize
    decreases rows
  {
    if rows <= 0 then []
    else FrameTiles(frame, w, h, tx, rows - 1) + RowTiles(frame, w, h, rows - 1, tx)
  }

  /** A frame's first `rows` rows give `tx` tiles per row. */
  lemma {:induction false} FrameTilesCount(frame: seq<Word>, w: int, h: int, tx: int, rows: int)
    requires FrameFits(frame, w, h)
    ensures |FrameTiles(frame, w, h, tx, rows)| == (if tx < 0 then 0 else tx) * (if rows < 0 then 0 else rows)
    decreases rows
  {
    if rows > 0 {
      FrameTilesCount(frame, w, h, tx, rows - 1);
    }
  }

  /** One more row of the frame adds that row's tiles. */
  lemma FrameTilesNext(frame: seq<Word>, w: int, h: int, tx: int, i: nat)
    requires FrameFits(frame, w, h)
    ensures AllTiles(FrameTiles(frame, w, h, tx, i)) && AllTiles(RowTiles(frame, w, h, i, tx))
    ensures FrameTiles(frame, w, h, tx, i + 1) == FrameTiles(frame, w, h, tx, i) + RowTiles(frame, w, h, i, tx)
  {
  }

  /**
   * The tile-cutting loops of addFrame: clear the tile, copy the frame's
   * pixels under it row by row, stopping each row at the frame's right edge
   * and the rows at its bottom edge.
   */
  method ExtractTile(frame: seq<Word>, w: int, h: int, i: nat, j: nat) returns (t: seq<Word>)
    requires FrameFits(frame, w, h)
    ensures t == FrameTile(frame, w, h, i, j)
  {
    var buf := new Word[TileSize](_ => 0);
    var y := 0;
    while y < TileSizeY && y + i * TileSizeY < h
      invariant 0 <= y <= TileSizeY
      invariant forall k :: 0 <= k < TileSize ==>
        buf[k] == if k / TileSizeX < y then TilePixel(frame, w, h, i, j, k) else 0
    {
      var x := 0;
      while x < TileSizeX && x + j * TileSizeX < w
        invariant 0 <= x <= TileSizeX
        invariant forall k :: 0 <= k < TileSize ==>
          buf[k] == if k / TileSizeX < y || (k / TileSizeX == y && k % TileSizeX < x) then TilePixel(frame, w, h, i, j, k) else 0
      {
        PixelInFrame(w, h, j * TileSizeX + x, i * TileSizeY + y);
        buf[y * TileSizeX + x] := frame[(i * TileSizeY + y) * w + j * TileSizeX + x];
        x := x + 1;
      }
      y := y + 1;
    }
    t := buf[..];
    assert forall k :: 0 <= k < TileSize ==> t[k] == TilePixel(frame, w, h, i, j, k);
  }

  /**
   * A tile table as addFrame sees it: the stored tiles in order, and the
   * frame index, one tile number per placed tile.
   */
  datatype Table = Table(tiles: seq<seq<Word>>, index: seq<int>)

  /**
   * The search of addFrame: the number of the first stored tile equal to
   * `t`, or the number of stored tiles when none is.
   */
  function FirstEqual(tiles: seq<seq<Word>>, t: seq<Word>): (k: nat)
    requires AllTiles(tiles) && |t| == TileSize
    ensures k <= |tiles|
    decreases |tiles|
  {
    if tiles == [] then 0
    else
      var k := FirstEqual(tiles[..|tiles| - 1], t);
      if k < |tiles| - 1 || SameSprite(Tile(tiles[|tiles| - 1]), Tile(t)) then k else |tiles|
  }

  /** FirstEqual names a stored tile equal to `t`, and no earlier stored tile is equal to it. */
  lemma {:induction false} FirstEqualSpec(tiles: seq<seq<Word>>, t: seq<Word>)
    requires AllTiles(tiles) && |t| == TileSize
    ensures var k := FirstEqual(tiles, t);
      (k < |tiles| ==> SameSprite(Tile(tiles[k]), Tile(t))) &&
      forall j :: 0 <= j < k ==> !SameSprite(Tile(tiles[j]), Tile(t))
    decreases |tiles|
  {
    if tiles != [] {
      var front := tiles[..|tiles| - 1];
      FirstEqualSpec(front, t);
      var k := FirstEqual(front, t);
      forall j | 0 <= j < k
        ensures tiles[j] == front[j]
      {
      }
    }
  }

  /**
   * One tile of addFrame: the number of the first stored tile equal to
   * `t` goes into the index, and `t` is stored as a new tile only when no
   * stored tile is equal to it.
   */
  function AddTile(tab: Table, t: seq<Word>): (r: Table)
    requires AllTiles(tab.tiles) && |t| == TileSize
    ensures AllTiles(r.tiles) && tab.tiles <= r.tiles && |r.tiles| <= |tab.tiles| + 1
  {
    var k := FirstEqual(tab.tiles, t);
    Table(if k < |tab.tiles| then tab.tiles else tab.tiles + [t], tab.index + [k])
  }

  /** The tiles of a frame placed one after another, as addFrame's loops place them. */
  function AddTiles(tab: Table, ts: seq<seq<Word>>): (r: Table)
    requires AllTiles(tab.tiles) && AllTiles(ts)
    ensures AllTiles(r.tiles)
    decreases |ts|
  {
    if ts == [] then tab else AddTile(AddTiles(tab, ts[..|ts| - 1]), ts[|ts| - 1])
  }

  /** FirstEqual is the only number with its two properties. */
  lemma FirstEqualIs(tiles: seq<seq<Word>>, t: seq<Word>, k: nat)
    requires AllTiles(tiles) && |t| == TileSize && k <= |tiles|
    requires k < |tiles| ==> SameSprite(Tile(tiles[k]), Tile(t))
    requires forall j :: 0 <= j < k ==> !SameSprite(Tile(tiles[j]), Tile(t))
    ensures FirstEqual(tiles, t) == k
  {
    FirstEqualSpec(tiles, t);
  }

  /** When a stored tile equals `t`, the first such tile is reused and nothing is stored. */
  lemma AddTileReuses(tab: Table, t: seq<Word>, k: nat)
    requires AllTiles(tab.tiles) && |t| == TileSize
    requires k < |tab.tiles| && SameSprite(Tile(tab.tiles[k]), Tile(t))
    requires forall j :: 0 <= j < k ==> !SameSprite(Tile(tab.tiles[j]), Tile(t))
    ensures AddTile(tab, t) == Table(tab.tiles, tab.index + [k])
  {
    FirstEqualIs(tab.tiles, t, k);
  }

  /** When no stored tile equals `t`, it is stored as the next tile and that number is indexed. */
  lemma AddTileAppends(tab: Table, t: seq<Word>)
    requires AllTiles(tab.tiles) && |t| == TileSize
    requires forall j :: 0 <= j < |tab.tiles| ==> !SameSprite(Tile(tab.tiles[j]), Tile(t))
    ensures AddTile(tab, t) == Table(tab.tiles + [t], tab.index + [|tab.tiles|])
  {
    FirstEqualIs(tab.tiles, t, |tab.tiles|);
  }

  /** Placing the first j + 1 tiles is placing the first j and then tile j. */
  lemma AddTilesNext(tab: Table, ts: seq<seq<Word>>, j: nat)
    requires AllTiles(tab.tiles) && AllTiles(ts) && j < |ts|
    ensures AllTiles(ts[..j]) && AllTiles(ts[..j + 1])
    ensures AddTiles(tab, ts[..j + 1]) == AddTile(AddTiles(tab, ts[..j]), ts[j])
  {
    assert ts[..j + 1][..j] == ts[..j];
  }

  /** Placing `a` and then `b` is placing `a + b`. */
  lemma {:induction false} AddTilesAppend(tab: Table, a: seq<seq<Word>>, b: seq<seq<Word>>)
    requires AllTiles(tab.tiles) && AllTiles(a) && AllTiles(b)
    ensures AllTiles(a + b) && AddTiles(tab, a + b) == AddTiles(AddTiles(tab, a), b)
    decreases |b|
  {
    if b == [] {
      assert a + b == a;
    } else {
      var b' := b[..|b| - 1];
      assert (a + b)[..|a + b| - 1] == a + b';
      AddTilesAppend(tab, a, b');
    }
  }

  /**
   * The stored tiles only grow, by at most one per placed tile, and every
   * placed tile adds one index entry after the old ones.
   */
  lemma {:induction false} AddTilesGrows(tab: Table, ts: seq<seq<Word>>)
    requires AllTiles(tab.tiles) && AllTiles(ts)
    ensures var r := AddTiles(tab, ts);
      tab.tiles <= r.tiles && |r.tiles| <= |tab.tiles| + |ts| &&
      tab.index <= r.index && |r.index| == |tab.index| + |ts|
    decreases |ts|
  {
    if ts != [] {
      AddTilesGrows(tab, ts[..|ts| - 1]);
    }
  }

  /** One placed tile: its index entry names a stored tile equal to it, and the old entries and tiles stay. */
  lemma AddTileNamesEqual(tab: Table, t: seq<Word>)
    requires AllTiles(tab.tiles) && |t| == TileSize
    ensures var r := AddTile(tab, t);
      r.index == tab.index + [r.index[|tab.index|]] &&
      0 <= r.index[|tab.index|] < |r.tiles| && SameSprite(Tile(r.tiles[r.index[|tab.index|]]), Tile(t))
  {
    FirstEqualSpec(tab.tiles, t);
    SameSpriteReflexive(Tile(t));
  }

  /** The index entry of placed tile p names a stored tile equal to it. */
  lemma {:induction false} AddTilesNamesEqual(tab: Table, ts: seq<seq<Word>>, p: nat)
    requires AllTiles(tab.tiles) && AllTiles(ts) && p < |ts|
    ensures var r := AddTiles(tab, ts);
      |tab.index| + p < |r.index| && 0 <= r.index[|tab.index| + p] < |r.tiles| &&
      SameSprite(Tile(r.tiles[r.index[|tab.index| + p]]), Tile(ts[p]))
    decreases |ts|
  {
    var ts' := ts[..|ts| - 1];
    var q := AddTiles(tab, ts');
    var t := ts[|ts| - 1];
    var r := AddTile(q, t);
    assert r == AddTiles(tab, ts);
    AddTilesGrows(tab, ts');
    AddTileNamesEqual(q, t);
    if p < |ts'| {
      AddTilesNamesEqual(tab, ts', p);
      var k := q.index[|tab.index| + p];
      assert r.index[|tab.index| + p] == k;
      assert r.tiles[k] == q.tiles[k];
      assert ts[p] == ts'[p];
    }
  }

  /** No stored tile equals a later one. */
  predicate Distinct(tiles: seq<seq<Word>>)
    requires AllTiles(tiles)
  {
    forall i, j :: 0 <= i < j < |tiles| ==> !SameSprite(Tile(tiles[i]), Tile(tiles[j]))
  }

  /**
   * addFrame never stores a tile equal to one already stored: a table
   * without duplicates stays without duplicates.
   */
  lemma {:induction false} AddTilesKeepsDistinct(tab: Table, ts: seq<seq<Word>>)
    requires AllTiles(tab.tiles) && AllTiles(ts) && Distinct(tab.tiles)
    ensures Distinct(AddTiles(tab, ts).tiles)
    decreases |ts|
  {
    if ts != [] {
      AddTilesKeepsDistinct(tab, ts[..|ts| - 1]);
      var q := AddTiles(tab, ts[..|ts| - 1]);
      var t := ts[|ts| - 1];
      if FirstEqual(q.tiles, t) == |q.tiles| {
        FirstEqualSpec(q.tiles, t);
        var r := q.tiles + [t];
        forall i, j | 0 <= i < j < |r|
          ensures !SameSprite(Tile(r[i]), Tile(r[j]))
        {
          if j < |q.tiles| {
            assert r[i] == q.tiles[i] && r[j] == q.tiles[j];
          }
        }
      }
    }
  }

  /** A tile placed twice into an empty table is stored once and indexed twice. */
  lemma RepeatedTileStoredOnce(t: seq<Word>)
    requires |t| == TileSize
    ensures AddTiles(Table([], []), [t, t]) == Table([t], [0, 0])
  {
    var empty := Table([], []);
    assert [t][..0] == [] && [t, t][..1] == [t];
    assert AddTiles(empty, [t]) == AddTile(empty, t);
    AddTileAppends(empty, t);
    SameSpriteReflexive(Tile(t));
    AddTileReuses(Table([t], [0]), t, 0);
  }

  /** Tiles read from the front of the data do not depend on what follows. */
  lemma {:induction false} TilesPrefix(data: seq<Word>, ext: seq<Word>, n: nat)
    requires n * TileSize <= |data|
    ensures Tiles(data + ext, n) == Tiles(data, n)
  {
    if n > 0 {
      TilesPrefix(data, ext, n - 1);
      PrefixSlice(data, ext, (n - 1) * TileSize, n * TileSize);
    }
  }

  /** Appending a tile's words to a table of n whole tiles adds it as tile n. */
  lemma TilesExtend(data: seq<Word>, t: seq<Word>, n: nat)
    requires |data| == n * TileSize && |t| == TileSize
    ensures Tiles(data + t, n + 1) == Tiles(data, n) + [t]
  {
    TilesPrefix(data, t, n);
    AppendedSlice(data, t);
  }

  class TileAnimation {
    var hasAlpha: bool
    var compression: Compression
    var frameCount: int
    var frameSize: Vec2
    var frameTileSize: Vec2
    var frameIndex: seq<int>
    var tileOffsets: seq<int>
    var tileData: seq<Word>

    /** tileCount(): one offset per tile plus the end offset. */
    function TileCount(): int
      reads this
    {
      |tileOffsets| - 1
    }

    /**
     * An uncompressed table as init and addFrame build it: tile k starts at
     * k * TILE_SIZE and the last offset is the end of the data.
     */
    predicate Uniform()
      reads this
    {
      |tileOffsets| >= 1 && |tileData| == (|tileOffsets| - 1) * TileSize &&
      forall k :: 0 <= k < |tileOffsets| ==> tileOffsets[k] == k * TileSize
    }

    /** A uniform table whose frame index names stored tiles only. */
    predicate IndexValid()
      reads this
    {
      Uniform() && forall k :: 0 <= k < |frameIndex| ==> 0 <= frameIndex[k] < TileCount()
    }

    /** The tile an uncompressed table holds at the offset of tile i. */
    function StoredTile(i: int): (s: Sprite)
      reads this
      requires 0 <= i < |tileOffsets| && 0 <= tileOffsets[i] && tileOffsets[i] + TileSize <= |tileData|
      ensures WellFormed(s)
    {
      Tile(tileData[tileOffsets[i]..tileOffsets[i] + TileSize])
    }

    /** The stored tiles, in order, and the frame index of an uncompressed table. */
    ghost function Contents(): Table
      reads this
      requires Uniform()
    {
      Table(Tiles(tileData, TileCount()), frameIndex)
    }

    /** Tile k of the contents is the tile stored at offset k. */
    lemma ContentsAt(k: int)
      requires Uniform() && 0 <= k < TileCount()
      ensures Tile(Contents().tiles[k]) == StoredTile(k)
    {
      TilesAt(tileData, TileCount(), k);
    }

    /** The constructor: the animation is cleared. */
    constructor()
      ensures !hasAlpha && compression == Uncompressed && frameCount == 0
      ensures frameSize == Vec2(0, 0) && frameTileSize == Vec2(0, 0)
      ensures frameIndex == [] && tileOffsets == [] && tileData == []
    {
      hasAlpha := false;
      compression := Uncompressed;
      frameCount := 0;
      frameSize := Vec2(0, 0);
      frameTileSize := Vec2(0, 0);
      frameIndex := [];
      tileOffsets := [];
      tileData := [];
    }

    /** clear: no frames, no tiles, no offsets, uncompressed, zero sizes, no alpha. */
    method Clear()
      modifies this
      ensures !hasAlpha && compression == Uncompressed && frameCount == 0
      ensures frameSize == Vec2(0, 0) && frameTileSize == Vec2(0, 0)
      ensures frameIndex == [] && tileOffsets == [] && tileData == []
    {
      hasAlpha := false;
      compression := Uncompressed;
      frameCount := 0;
      frameSize := Vec2(0, 0);
      frameTileSize := Vec2(0, 0);
      frameIndex := [];
      tileOffsets := [];
      tileData := [];
    }

    /**
     * init: clear, then store the alpha flag, frame size and frame count,
     * size the tile grid by rounding the frame to whole tiles, and start the
     * offsets at [0].
     */
    method Init(count: int, size: Vec2, alpha: bool)
      modifies this
      ensures hasAlpha == alpha && compression == Uncompressed && frameCount == count
      ensures frameSize == size
      ensures frameTileSize == Vec2(TilesAlong(size.x, TileSizeX), TilesAlong(size.y, TileSizeY))
      ensures frameIndex == [] && tileOffsets == [0] && tileData == []
      ensures IndexValid() && Contents() == Table([], [])
    {
      Clear();
      hasAlpha := alpha;
      frameSize := size;
      frameTileSize := Vec2(CDiv(size.x + TileSizeX / 2, TileSizeX), CDiv(size.y + TileSizeY / 2, TileSizeY));
      tileOffsets := [0];
      frameCount := count;
    }

    /**
     * compress: refuse (false, nothing changed) once compressed; otherwise
     * take the method and rebuild data and offsets from each tile's
     * compressed words, tile k read at k * TILE_SIZE of the old data.
     */
    method Compress(m: Compression, lz: Lz77Codec) returns (ok: bool)
      requires TileCount() * TileSize <= |tileData|
      requires m == Lz77 ==> FitsScratch(lz)
      modifies this
      ensures ok <==> old(compression) == Uncompressed
      ensures !ok ==> unchanged(this)
      ensures ok ==> compression == m
      ensures ok ==> var ts := Tiles(old(tileData), if old(TileCount()) < 0 then 0 else old(TileCount()));
        tileData == CompressedData(m, lz, ts) && tileOffsets == CompressedOffsets(m, lz, ts)
      ensures frameIndex == old(frameIndex) && frameCount == old(frameCount) && hasAlpha == old(hasAlpha)
      ensures frameSize == old(frameSize) && frameTileSize == old(frameTileSize)
    {
      if compression != Uncompressed {
        return false;
      }
      var count := |tileOffsets| - 1;
      var n := if count < 0 then 0 else count;
      var data, offs := CompressTiles(tileData, n, m, lz);
      compression := m;
      tileData := data;
      tileOffsets := offs;
      return true;
    }

    /**
     * getTile: uncompressed, the tile at its offset; compressed, the tile
     * decompressed from the words at its offset.
     */
    function GetTile(i: int, lz: Lz77Codec): (s: Sprite)
      reads this
      requires 0 <= i < |tileOffsets| && 0 <= tileOffsets[i] <= |tileData|
      requires compression == Uncompressed ==> tileOffsets[i] + TileSize <= |tileData|
      requires compression == Rle ==> Decode(tileData[tileOffsets[i]..]).Some?
      requires compression == Lz77 ==> |lz.decode(tileData[tileOffsets[i]..])| == TileSize
      ensures WellFormed(s) && s.Tile?
    {
      match compression
      case Uncompressed => StoredTile(i)
      case Rle => Tile(Decode(tileData[tileOffsets[i]..]).value)
      case Lz77 => Tile(lz.decode(tileData[tileOffsets[i]..]))
    }

    /**
     * The tile search of addFrame: the first stored tile equal to `t`, or
     * -1 when none is.
     */
    method FindTile(t: seq<Word>) returns (id: int)
      requires Uniform() && |t| == TileSize
      ensures -1 <= id < TileCount()
      ensures id >= 0 ==> SameSprite(StoredTile(id), Tile(t))
      ensures forall k :: 0 <= k < (if id < 0 then TileCount() else id) ==> !SameSprite(StoredTile(k), Tile(t))
      ensures id == if FirstEqual(Contents().tiles, t) < TileCount() then FirstEqual(Contents().tiles, t) else -1
    {
      var count := |tileOffsets| - 1;
      id := -1;
      var idx := 0;
      while idx < count
        invariant 0 <= idx <= count && id == -1
        invariant forall k :: 0 <= k < idx ==> !SameSprite(StoredTile(k), Tile(t))
      {
        var eq := SpriteEquals(StoredTile(idx), Tile(t));
        if eq {
          id := idx;
          break;
        }
        idx := idx + 1;
      }
      forall k | 0 <= k < count
        ensures Tile(Contents().tiles[k]) == StoredTile(k)
      {
        ContentsAt(k);
      }
      FirstEqualIs(Contents().tiles, t, if id < 0 then count else id);
    }

    /** The new-tile branch of addFrame: append the tile's words, its end offset and its number. */
    method AppendTile(t: seq<Word>)
      requires IndexValid() && |t| == TileSize
      modifies this
      ensures tileData == old(tileData) + t && frameIndex == old(frameIndex) + [old(TileCount())]
      ensures IndexValid() && TileCount() == old(TileCount()) + 1
      ensures Contents() == Table(old(Contents()).tiles + [t], frameIndex)
      ensures compression == old(compression) && hasAlpha == old(hasAlpha) && frameCount == old(frameCount)
      ensures frameSize == old(frameSize) && frameTileSize == old(frameTileSize)
    {
      var count := |tileOffsets| - 1;
      ghost var oldData := tileData;
      tileData := tileData + t;
      tileOffsets := tileOffsets + [tileOffsets[count] + TileSize];
      frameIndex := frameIndex + [count];
      TilesExtend(oldData, t, count);
    }

    /**
     * One tile of addFrame: reuse the first stored tile equal to `t`, or
     * append `t` as a new tile when none is; either way the tile's number
     * goes into the frame index.
     */
    method PlaceTile(t: seq<Word>)
      requires IndexValid() && |t| == TileSize
      modifies this
      ensures IndexValid() && Contents() == AddTile(old(Contents()), t)
      ensures compression == old(compression) && hasAlpha == old(hasAlpha) && frameCount == old(frameCount)
      ensures frameSize == old(frameSize) && frameTileSize == old(frameTileSize)
    {
      var id := FindTile(t);
      if id == -1 {
        AppendTile(t);
      } else {
        frameIndex := frameIndex + [id];
      }
    }

    /**
     * addFrame: cut the frame into tiles row by row; each tile reuses the
     * first stored tile equal to it or is appended as a new tile, and its
     * number is appended to the frame index.
     */
    method AddFrame(frame: seq<Word>)
      requires IndexValid() && compression == Uncompressed
      requires FrameFits(frame, frameSize.x, frameSize.y)
      modifies this
      ensures IndexValid() && compression == Uncompressed && frameCount == old(frameCount) && hasAlpha == old(hasAlpha)
      ensures frameSize == old(frameSize) && frameTileSize == old(frameTileSize)
      ensures Contents() == AddTiles(old(Contents()), FrameTiles(frame, frameSize.x, frameSize.y, frameTileSize.x, frameTileSize.y))
    {
      var w, h, tx, ty := frameSize.x, frameSize.y, frameTileSize.x, frameTileSize.y;
      ghost var c0 := Contents();
      ghost var done: seq<seq<Word>> := [];
      var i := 0;
      while i < ty
        invariant 0 <= i && (i <= ty || i == 0)
        invariant done == FrameTiles(frame, w, h, tx, i) && AllTiles(done)
        invariant IndexValid() && compression == Uncompressed
        invariant Contents() == AddTiles(c0, done)
        invariant frameSize == old(frameSize) && frameTileSize == old(frameTileSize)
        invariant frameCount == old(frameCount) && hasAlpha == old(hasAlpha)
      {
        done := AddNextRow(frame, i, c0, done);
        i := i + 1;
      }
      assert i == ty || (i == 0 && ty <= 0);
      assert done == FrameTiles(frame, w, h, tx, ty);
      assert c0 == old(Contents());
      assert w == frameSize.x && h == frameSize.y && tx == frameTileSize.x && ty == frameTileSize.y;
      assert Contents() == AddTiles(old(Contents()), FrameTiles(frame, frameSize.x, frameSize.y, frameTileSize.x, frameTileSize.y));
    }

    /** One pass of addFrame's row loop: row i is placed after the rows before it. */
    method AddNextRow(frame: seq<Word>, i: nat, ghost c0: Table, ghost done: seq<seq<Word>>) returns (ghost done': seq<seq<Word>>)
      requires IndexValid() && compression == Uncompressed && AllTiles(c0.tiles)
      requires FrameFits(frame, frameSize.x, frameSize.y)
      requires done == FrameTiles(frame, frameSize.x, frameSize.y, frameTileSize.x, i) && Contents() == AddTiles(c0, done)
      modifies this
      ensures frameSize == old(frameSize) && frameTileSize == old(frameTileSize)
      ensures frameCount == old(frameCount) && hasAlpha == old(hasAlpha)
      ensures IndexValid() && compression == Uncompressed
      ensures done' == FrameTiles(frame, frameSize.x, frameSize.y, frameTileSize.x, i + 1) && AllTiles(done')
      ensures Contents() == AddTiles(c0, done')
    {
      ghost var row := RowTiles(frame, frameSize.x, frameSize.y, i, frameTileSize.x);
      FrameTilesNext(frame, frameSize.x, frameSize.y, frameTileSize.x, i);
      AddRow(frame, i);
      AddTilesAppend(c0, done, row);
      done' := done + row;
    }

    /** One row of addFrame's tile loop: the row's tiles are placed in order. */
    method AddRow(frame: seq<Word>, i: nat)
      requires IndexValid() && compression == Uncompressed
      requires FrameFits(frame, frameSize.x, frameSize.y)
      modifies this
      ensures frameSize == old(frameSize) && frameTileSize == old(frameTileSize)
      ensures IndexValid() && compression == Uncompressed
      ensures Contents() == AddTiles(old(Contents()), RowTiles(frame, frameSize.x, frameSize.y, i, frameTileSize.x))
      ensures frameCount == old(frameCount) && hasAlpha == old(hasAlpha)
    {
      var w, h, tx := frameSize.x, frameSize.y, frameTileSize.x;
      ghost var row := RowTiles(frame, w, h, i, tx);
      ghost var c0 := Contents();
      var j := 0;
      while j < tx
        invariant 0 <= j <= |row|
        invariant IndexValid() && compression == Uncompressed
        invariant Contents() == AddTiles(c0, row[..j])
        invariant frameSize == old(frameSize) && frameTileSize == old(frameTileSize)
        invariant frameCount == old(frameCount) && hasAlpha == old(hasAlpha)
      {
        var t := ExtractTile(frame, w, h, i, j);
        assert t == row[j];
        PlaceTile(t);
        AddTilesNext(c0, row, j);
        j := j + 1;
      }
      assert row[..j] == row;
      assert c0 == old(Contents());
      assert w == frameSize.x && h == frameSize.y && tx == frameTileSize.x;
      assert Contents() == AddTiles(old(Contents()), RowTiles(frame, frameSize.x, frameSize.y, i, frameTileSize.x));
    }
  }
}
