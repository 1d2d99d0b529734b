/**
 * The tile codec of grTileSprite: a run-length encoder and decoder over
 * fixed-size tiles of 32-bit pixel words, the byte-wise tolerant tile
 * comparison, and the dispatch between compression methods.
 *
 * The encoder cuts a tile into blocks. A block that starts with at least two
 * equal pixels is a run, written as two words [length, pixel]. Any other block
 * is a literal, written as a header word (length with the sequence-mask bit
 * set) followed by the raw pixels; a literal stops just before three equal
 * pixels in a row. The specification functions below describe the encoder
 * block by block; the methods are the source's index loops proved against
 * them.
 */
module TileSprite {
  import opened Wrappers

  /** A pixel word (`unsigned` in the source). */
  type Word = U32

  /** GR_TILE_SPRITE_SIZE_SHIFT: tiles are 2^4 = 16 pixels wide and high. */
  const SizeShift: nat := 4
  const TileSizeX: nat := 16
  const TileSizeY: nat := 16
  /** GR_TILE_SPRITE_SIZE: pixels per tile. */
  const TileSize: nat := 256
  /** GR_TILE_SPRITE_SIZE_BYTES: bytes per tile. */
  const TileSizeBytes: nat := 1024

  /** RLE_SEQUENCE_MASK = 1 << (2 * SizeShift + 1): the bit that marks a literal header. */
  const SequenceMask: nat := 512

  /** comprasionTolerance_: the largest byte difference two equal tiles may show. */
  const Tolerance: nat := 2

  /** `h & RLE_SEQUENCE_MASK != 0`, written arithmetically. */
  predicate HasMask(h: Word) {
    (h / SequenceMask) % 2 == 1
  }

  /** The header of a literal block of `len` pixels: `len | RLE_SEQUENCE_MASK`. */
  function LiteralHeader(len: nat): (h: Word)
    requires len < SequenceMask
    ensures HasMask(h) && h - SequenceMask == len
  {
    len + SequenceMask
  }

  /** The mask is above every block length, so a run header never carries it. */
  lemma RunHeaderUnmasked(len: nat)
    requires len <= TileSize
    ensures len < SequenceMask && !HasMask(len)
  {
  }

  // ---------------------------------------------------------------------
  // Specification of the encoder, block by block.

  /** The first index at or after `i` whose pixel differs from `t[c]` (or |t|). */
  function RunEnd(t: seq<Word>, c: nat, i: nat): (r: nat)
    requires c < i <= |t|
    ensures i <= r <= |t|
    ensures r < |t| ==> t[r] != t[c]
    decreases |t| - i
  {
    if i < |t| && t[i] == t[c] then RunEnd(t, c, i + 1) else i
  }

  /**
   * The forward scan of a literal block: advance while the pixel differs from
   * one of the two before it. It stops at the first `j` where
   * t[j-2] == t[j-1] == t[j] (or at |t|).
   */
  function LiteralScan(t: seq<Word>, i: nat): (r: nat)
    requires 1 <= i <= |t|
    ensures i <= r <= |t|
    ensures r < |t| ==> t[r] == t[r - 1] && (r >= 2 ==> t[r] == t[r - 2])
    decreases |t| - i
  {
    if i < |t| && (t[i] != t[i - 1] || (i > 1 && t[i] != t[i - 2])) then LiteralScan(t, i + 1) else i
  }

  /**
   * The backward scan that ends a literal block: step back while the pixel
   * equals the one before it. It never reaches the block start `c`, because
   * a literal starts with two different pixels.
   */
  function BackOff(t: seq<Word>, c: nat, i: nat): (r: nat)
    requires c < i <= |t|
    requires c + 1 < |t| ==> t[c + 1] != t[c]
    ensures c < r <= i
    ensures r < |t| ==> t[r] != t[r - 1]
    decreases i
  {
    if i < |t| && t[i] == t[i - 1] then BackOff(t, c, i - 1) else i
  }

  /** A block starting at `c` is a run when its first two pixels are equal. */
  predicate IsRun(t: seq<Word>, c: nat)
    requires c < |t|
  {
    RunEnd(t, c, c + 1) > c + 1
  }

  /** The end of the block that starts at `c`. */
  function BlockEnd(t: seq<Word>, c: nat): (e: nat)
    requires c < |t|
    ensures c < e <= |t|
  {
    var r := RunEnd(t, c, c + 1);
    if r - c == 1 then BackOff(t, c, LiteralScan(t, c + 1)) else r
  }

  /** The words written for the block that starts at `c`. */
  function EncodeBlock(t: seq<Word>, c: nat): (w: seq<Word>)
    requires c < |t| <= TileSize
  {
    var e := BlockEnd(t, c);
    if IsRun(t, c) then [e - c, t[c]] else [LiteralHeader(e - c)] + t[c..e]
  }

  /** The words written for the pixels from `c` on. */
  function EncodeFrom(t: seq<Word>, c: nat): (w: seq<Word>)
    requires c <= |t| <= TileSize
    ensures |w| <= 2 * (|t| - c)
    decreases |t| - c
  {
    if c == |t| then [] else EncodeBlock(t, c) + EncodeFrom(t, BlockEnd(t, c))
  }

  /** The encoding of a whole tile. */
  function Encode(t: seq<Word>): (w: seq<Word>)
    requires |t| <= TileSize
  {
    EncodeFrom(t, 0)
  }

  // ---------------------------------------------------------------------
  // Specification of the decoder.

  /** `count` copies of the pixel `x`. */
  function Repeat(x: Word, count: nat): (r: seq<Word>)
    ensures |r| == count
  {
    if count == 0 then [] else [x] + Repeat(x, count - 1)
  }

  /** The number of pixels the block header `h` announces: `h ^ MASK` for a literal, `h` for a run. */
  function HeaderCount(h: Word): nat {
    if HasMask(h) then h - SequenceMask else h
  }

  /** The number of words of the block whose header is `h`, the header included. */
  function HeaderWidth(h: Word): nat {
    if HasMask(h) then 1 + HeaderCount(h) else 2
  }

  /** The pixels of the block at `p`: the words after a literal header, or the run's pixel repeated. */
  function BlockPixels(s: seq<Word>, p: nat): (r: seq<Word>)
    requires p < |s| && p + HeaderWidth(s[p]) <= |s|
    ensures |r| == HeaderCount(s[p])
  {
    if HasMask(s[p]) then s[p + 1..p + HeaderWidth(s[p])] else Repeat(s[p + 1], HeaderCount(s[p]))
  }

  /**
   * Decode the blocks from position `p` of `s` after the pixels `out` have
   * been written, until a whole tile has been written. None when the input
   * ends inside a block, a block is empty, or a block overshoots the tile
   * (the source reads or writes past its buffers, or loops forever, there).
   */
  function DecodeAt(s: seq<Word>, p: nat, out: seq<Word>): Option<seq<Word>>
    decreases |s| - p
  {
    if |out| >= TileSize then Some(out)
    else if p >= |s| then None
    else if p + HeaderWidth(s[p]) > |s| || |out| + HeaderCount(s[p]) > TileSize || HeaderCount(s[p]) == 0 then None
    else DecodeAt(s, p + HeaderWidth(s[p]), out + BlockPixels(s, p))
  }

  /** The decoding of one tile. */
  function Decode(s: seq<Word>): (r: Option<seq<Word>>)
    ensures r.Some? ==> |r.value| == TileSize
  {
    DecodeLength(s, 0, []);
    DecodeAt(s, 0, [])
  }

  /** Decoding writes exactly one tile of pixels, starting with those already written. */
  lemma {:induction false} DecodeLength(s: seq<Word>, p: nat, out: seq<Word>)
    requires |out| <= TileSize
    ensures DecodeAt(s, p, out).Some? ==>
      |DecodeAt(s, p, out).value| == TileSize && DecodeAt(s, p, out).value[..|out|] == out
    decreases |s| - p
  {
    if |out| < TileSize && p < |s| && p + HeaderWidth(s[p]) <= |s|
       && |out| + HeaderCount(s[p]) <= TileSize && HeaderCount(s[p]) != 0
    {
      var out' := out + BlockPixels(s, p);
      DecodeLength(s, p + HeaderWidth(s[p]), out');
      if DecodeAt(s, p, out).Some? {
        assert DecodeAt(s, p, out).value[..|out'|] == out';
        assert out'[..|out|] == out;
      }
    }
  }

  /** One block of decoding: a well-formed block at `p` appends its pixels to `out`. */
  lemma DecodeAtUnfold(s: seq<Word>, p: nat, out: seq<Word>)
    requires |out| < TileSize && p < |s| && p + HeaderWidth(s[p]) <= |s|
    requires |out| + HeaderCount(s[p]) <= TileSize && HeaderCount(s[p]) != 0
    ensures DecodeAt(s, p, out) == DecodeAt(s, p + HeaderWidth(s[p]), out + BlockPixels(s, p))
  {
  }

  /** A decodable literal block at `p`: a header announcing at least one pixel, and the pixels. */
  lemma DecodeAtLiteral(s: seq<Word>, p: nat, out: seq<Word>)
    requires |out| < TileSize && p < |s| && HasMask(s[p]) && DecodeAt(s, p, out).Some?
    ensures 0 < s[p] - SequenceMask && p + 1 + (s[p] - SequenceMask) <= |s|
    ensures |out| + (s[p] - SequenceMask) <= TileSize
  {
  }

  /** Copying the pixels of a decodable literal block at `p` leaves the decoding unchanged. */
  lemma LiteralStep(s: seq<Word>, p: nat, out: seq<Word>, next: nat, out': seq<Word>)
    requires |out| < TileSize && p < |s| && HasMask(s[p]) && DecodeAt(s, p, out).Some?
    requires next == p + 1 + (s[p] - SequenceMask) <= |s| && out' == out + s[p + 1..next]
    ensures DecodeAt(s, p, out) == DecodeAt(s, next, out')
  {
    DecodeAtLiteral(s, p, out);
    assert p + HeaderWidth(s[p]) == next;
    assert out + BlockPixels(s, p) == out';
    DecodeAtUnfold(s, p, out);
  }

  /** A decodable run block at `p`: a length of at least one, and the pixel. */
  lemma DecodeAtRun(s: seq<Word>, p: nat, out: seq<Word>)
    requires |out| < TileSize && p < |s| && !HasMask(s[p]) && DecodeAt(s, p, out).Some?
    ensures 0 < s[p] && p + 2 <= |s| && |out| + s[p] <= TileSize
  {
  }

  /** Filling the pixels of a decodable run block at `p` leaves the decoding unchanged. */
  lemma RunStep(s: seq<Word>, p: nat, out: seq<Word>, next: nat, out': seq<Word>)
    requires |out| < TileSize && p + 1 < |s| && !HasMask(s[p]) && DecodeAt(s, p, out).Some?
    requires next == p + 2 && out' == out + Repeat(s[p + 1], s[p])
    ensures DecodeAt(s, p, out) == DecodeAt(s, next, out')
  {
    DecodeAtRun(s, p, out);
    assert p + HeaderWidth(s[p]) == next;
    assert out + BlockPixels(s, p) == out';
    DecodeAtUnfold(s, p, out);
  }

  // ---------------------------------------------------------------------
  // Properties of the encoding.

  /** `x` occurs in `w` at position `p`. */
  predicate HoldsAt(w: seq<Word>, p: nat, x: seq<Word>) {
    p + |x| <= |w| && w[p..p + |x|] == x
  }

  lemma HoldsAtSplit(w: seq<Word>, p: nat, a: seq<Word>, b: seq<Word>)
    requires HoldsAt(w, p, a + b)
    ensures HoldsAt(w, p, a) && HoldsAt(w, p + |a|, b)
  {
    assert w[p..p + |a|] == (a + b)[..|a|];
    assert w[p + |a|..p + |a| + |b|] == (a + b)[|a|..];
  }

  /** Decoding a run block [count, pixel] at `p` repeats the pixel and goes on after it. */
  lemma DecodeRunAt(s: seq<Word>, p: nat, out: seq<Word>, count: Word, pixel: Word, next: nat, out': seq<Word>)
    requires next == p + 2 <= |s| && s[p] == count && s[p + 1] == pixel && !HasMask(count)
    requires 0 < count && |out| < TileSize && |out| + count <= TileSize
    requires out' == out + Repeat(pixel, count)
    ensures DecodeAt(s, p, out) == DecodeAt(s, next, out')
  {
  }

  /** Decoding a literal block of `count` pixels at `p` copies them and goes on after them. */
  lemma DecodeLiteralAt(s: seq<Word>, p: nat, out: seq<Word>, count: nat, next: nat, out': seq<Word>)
    requires 0 < count < SequenceMask && |out| < TileSize && |out| + count <= TileSize
    requires next == p + 1 + count <= |s| && s[p] == LiteralHeader(count)
    requires out' == out + s[p + 1..next]
    ensures DecodeAt(s, p, out) == DecodeAt(s, next, out')
  {
  }

  /** A run of equal pixels is the repetition of its first pixel. */
  lemma {:induction false} RunIsRepeat(t: seq<Word>, c: nat, e: nat)
    requires c < e <= |t|
    requires forall k :: c <= k < e ==> t[k] == t[c]
    ensures Repeat(t[c], e - c) == t[c..e]
    decreases e - c
  {
    if e - c > 1 {
      RunIsRepeat(t, c, e - 1);
      assert t[c..e] == t[c..e - 1] + [t[e - 1]];
      RepeatSnoc(t[c], e - c - 1);
    }
  }

  lemma {:induction false} RepeatSnoc(x: Word, n: nat)
    ensures Repeat(x, n + 1) == Repeat(x, n) + [x]
  {
    if n > 0 {
      RepeatSnoc(x, n - 1);
    }
  }

  /** Every pixel from `i` up to the end of the run equals the run's first pixel. */
  lemma {:induction false} RunEndAll(t: seq<Word>, c: nat, i: nat)
    requires c < i <= |t|
    requires forall k :: c <= k < i ==> t[k] == t[c]
    ensures forall k :: c <= k < RunEnd(t, c, i) ==> t[k] == t[c]
    decreases |t| - i
  {
    if i < |t| && t[i] == t[c] {
      RunEndAll(t, c, i + 1);
    }
  }

  /** A run block: at least two copies of its first pixel, written as [length, pixel]. */
  lemma RunBlockWords(t: seq<Word>, c: nat)
    requires c < |t| <= TileSize && IsRun(t, c)
    ensures var e := BlockEnd(t, c);
      && e == RunEnd(t, c, c + 1) && 2 <= e - c
      && Repeat(t[c], e - c) == t[c..e]
      && EncodeBlock(t, c) == [e - c, t[c]]
  {
    var e := RunEnd(t, c, c + 1);
    assert BlockEnd(t, c) == e;
    RunEndAll(t, c, c + 1);
    RunIsRepeat(t, c, e);
    assert EncodeBlock(t, c) == [e - c, t[c]];
  }

  /** A literal block: its header, then its pixels. */
  lemma LiteralBlockWords(t: seq<Word>, c: nat)
    requires c < |t| <= TileSize && !IsRun(t, c)
    ensures var e := BlockEnd(t, c);
      && e == BackOff(t, c, LiteralScan(t, c + 1))
      && EncodeBlock(t, c) == [LiteralHeader(e - c)] + t[c..e]
  {
  }

  /**
   * Decoding the block encoded at `c`, found at `p` after the pixels before
   * `c` have been written, writes the block's pixels and goes on at `q`.
   */
  lemma DecodeEncodedBlockAt(t: seq<Word>, c: nat, w: seq<Word>, p: nat, e: nat, q: nat)
    requires c < |t| == TileSize && e == BlockEnd(t, c)
    requires HoldsAt(w, p, EncodeBlock(t, c)) && q == p + |EncodeBlock(t, c)|
    ensures DecodeAt(w, p, t[..c]) == DecodeAt(w, q, t[..e])
  {
    if IsRun(t, c) {
      DecodeEncodedRunAt(t, c, w, p, e, q);
    } else {
      DecodeEncodedLiteralAt(t, c, w, p, e, q);
    }
  }

  lemma DecodeEncodedRunAt(t: seq<Word>, c: nat, w: seq<Word>, p: nat, e: nat, q: nat)
    requires c < |t| == TileSize && IsRun(t, c) && e == BlockEnd(t, c)
    requires HoldsAt(w, p, EncodeBlock(t, c)) && q == p + |EncodeBlock(t, c)|
    ensures DecodeAt(w, p, t[..c]) == DecodeAt(w, q, t[..e])
  {
    RunBlockWords(t, c);
    RunHeaderUnmasked(e - c);
    assert q == p + 2;
    assert w[p] == w[p..p + 2][0] && w[p + 1] == w[p..p + 2][1];
    assert t[..e] == t[..c] + t[c..e];
    DecodeRunAt(w, p, t[..c], e - c, t[c], q, t[..e]);
  }

  lemma DecodeEncodedLiteralAt(t: seq<Word>, c: nat, w: seq<Word>, p: nat, e: nat, q: nat)
    requires c < |t| == TileSize && !IsRun(t, c) && e == BlockEnd(t, c)
    requires HoldsAt(w, p, EncodeBlock(t, c)) && q == p + |EncodeBlock(t, c)|
    ensures DecodeAt(w, p, t[..c]) == DecodeAt(w, q, t[..e])
  {
    var block := EncodeBlock(t, c);
    LiteralBlockWords(t, c);
    assert block == [LiteralHeader(e - c)] + t[c..e];
    assert q == p + 1 + (e - c) && w[p..q] == block;
    assert w[p] == block[0] == LiteralHeader(e - c);
    assert w[p + 1..q] == block[1..] == t[c..e];
    assert 0 < e - c < SequenceMask && c + (e - c) == e <= TileSize;
    assert t[..e] == t[..c] + t[c..e];
    DecodeLiteralAt(w, p, t[..c], e - c, q, t[..e]);
  }

  /** The encoding from `c` on, found at `p`, is the block at `c` followed by the encoding from its end. */
  lemma EncodedSplit(t: seq<Word>, c: nat, w: seq<Word>, p: nat)
    requires c < |t| == TileSize && HoldsAt(w, p, EncodeFrom(t, c))
    ensures HoldsAt(w, p, EncodeBlock(t, c))
    ensures HoldsAt(w, p + |EncodeBlock(t, c)|, EncodeFrom(t, BlockEnd(t, c)))
  {
    EncodeFromStep(t, c);
    HoldsAtSplit(w, p, EncodeBlock(t, c), EncodeFrom(t, BlockEnd(t, c)));
  }

  /** Decoding the encoding of the pixels from `c` on, found at `p` after the pixels before `c`, gives the tile. */
  lemma {:induction false} DecodeEncodeAt(t: seq<Word>, c: nat, w: seq<Word>, p: nat)
    requires c <= |t| == TileSize && HoldsAt(w, p, EncodeFrom(t, c))
    ensures DecodeAt(w, p, t[..c]) == Some(t)
    decreases |t| - c
  {
    if c < |t| {
      var e := BlockEnd(t, c);
      var q := p + |EncodeBlock(t, c)|;
      EncodedSplit(t, c, w, p);
      DecodeEncodeAt(t, e, w, q);
      DecodeEncodedBlockAt(t, c, w, p, e, q);
    } else {
      assert t[..c] == t;
    }
  }

  /** decodeRLE(encodeRLE(t)) == t for every tile, whatever words follow the encoding. */
  lemma RoundTrip(t: seq<Word>, rest: seq<Word>)
    requires |t| == TileSize
    ensures Decode(Encode(t) + rest) == Some(t)
  {
    var w := Encode(t) + rest;
    assert w[0..|Encode(t)|] == Encode(t);
    DecodeEncodeAt(t, 0, w, 0);
    assert t[..0] == [];
  }

  /** One step of the encoder: the block at `c`, then the blocks after it. */
  lemma EncodeFromStep(t: seq<Word>, c: nat)
    requires c < |t| <= TileSize
    ensures EncodeFrom(t, c) == EncodeBlock(t, c) + EncodeFrom(t, BlockEnd(t, c))
  {
  }

  /** The encoder's loop invariant is kept by writing one block. */
  lemma EncodeProgress(t: seq<Word>, c: nat, before: seq<Word>, after: seq<Word>)
    requires c < |t| <= TileSize
    requires before + EncodeFrom(t, c) == Encode(t)
    requires after == before + EncodeBlock(t, c)
    ensures after + EncodeFrom(t, BlockEnd(t, c)) == Encode(t)
    ensures |after| + |EncodeFrom(t, BlockEnd(t, c))| == |Encode(t)|
  {
    EncodeFromStep(t, c);
    Reassociate(before, EncodeBlock(t, c), EncodeFrom(t, BlockEnd(t, c)), EncodeFrom(t, c));
  }

  lemma Reassociate(a: seq<Word>, b: seq<Word>, c: seq<Word>, d: seq<Word>)
    requires d == b + c
    ensures (a + b) + c == a + d
  {
  }

  /** An encoded tile takes at most two words per pixel. */
  lemma EncodeBound(t: seq<Word>)
    requires |t| == TileSize
    ensures |Encode(t)| <= 2 * TileSize
  {
  }

  /**
   * A run block is at least two equal pixels written as [length, pixel] with
   * the mask bit clear; a literal block holds at least one pixel, starts with
   * two different pixels and, unless it ends the tile, is followed by three
   * equal pixels in a row.
   */
  lemma BlockShape(t: seq<Word>, c: nat)
    requires c < |t| <= TileSize
    ensures var e := BlockEnd(t, c);
      if IsRun(t, c) then
        && e - c >= 2
        && (forall k :: c <= k < e ==> t[k] == t[c])
        && EncodeBlock(t, c) == [e - c, t[c]] && !HasMask(e - c)
      else
        && e - c >= 1
        && (c + 1 < |t| ==> t[c + 1] != t[c])
        && (e < |t| ==> e + 2 < |t| && t[e] == t[e + 1] == t[e + 2])
        && HasMask(EncodeBlock(t, c)[0]) && EncodeBlock(t, c)[1..] == t[c..e]
  {
    var e := BlockEnd(t, c);
    if IsRun(t, c) {
      RunHeaderUnmasked(e - c);
      RunEndAll(t, c, c + 1);
    } else {
      var j := LiteralScan(t, c + 1);
      BackOffStopsBeforeTriple(t, c, j);
    }
  }

  /** Backing off from the stop of the literal scan lands exactly two pixels before it. */
  lemma BackOffStopsBeforeTriple(t: seq<Word>, c: nat, j: nat)
    requires c + 1 <= j <= |t|
    requires c + 1 < |t| ==> t[c + 1] != t[c]
    requires j == LiteralScan(t, c + 1)
    ensures var e := BackOff(t, c, j);
      e < |t| ==> e + 2 < |t| && t[e] == t[e + 1] == t[e + 2]
  {
    if j < |t| {
      LiteralScanStop(t, c, j);
      BackOffTwoSteps(t, c, j);
    }
  }

  /** The literal scan stops at the third of three equal pixels, the first of which differs from its predecessor. */
  lemma LiteralScanStop(t: seq<Word>, c: nat, j: nat)
    requires c + 1 <= j < |t|
    requires t[c + 1] != t[c]
    requires j == LiteralScan(t, c + 1)
    ensures c + 3 <= j && t[j] == t[j - 1] == t[j - 2] && t[j - 2] != t[j - 3]
  {
    assert t[j] == t[j - 1];
    assert j >= 2 ==> t[j] == t[j - 2];
    LiteralScanPrefix(t, c + 1, j);
    assert j - 1 < 2 || t[j - 1] != t[j - 2] || t[j - 1] != t[j - 3];
  }

  /** Backing off from the third of three equal pixels, preceded by a different one, takes two steps. */
  lemma BackOffTwoSteps(t: seq<Word>, c: nat, j: nat)
    requires c + 3 <= j < |t| && t[j] == t[j - 1] == t[j - 2] && t[j - 2] != t[j - 3]
    requires t[c + 1] != t[c]
    ensures BackOff(t, c, j) == j - 2
  {
    assert BackOff(t, c, j) == BackOff(t, c, j - 1);
    assert BackOff(t, c, j - 1) == BackOff(t, c, j - 2);
  }

  /** Below the stop of the literal scan (and at or above 2), no pixel equals both of its two predecessors. */
  lemma {:induction false} LiteralScanPrefix(t: seq<Word>, i: nat, j: nat)
    requires 1 <= i <= |t|
    requires j == LiteralScan(t, i)
    ensures forall k :: i <= k < j ==> k < 2 || t[k] != t[k - 1] || t[k] != t[k - 2]
    decreases |t| - i
  {
    if i < |t| && (t[i] != t[i - 1] || (i > 1 && t[i] != t[i - 2])) {
      LiteralScanPrefix(t, i + 1, j);
    }
  }

  // ---------------------------------------------------------------------
  // The codec loops over arrays.

  /** The scan over the leading run of the block at `count`; `t` is the tile held in `inData`. */
  method ScanRun(inData: array<Word>, ghost t: seq<Word>, count: nat) returns (index: nat)
    requires inData[..] == t && count < |t| <= TileSize
    ensures index == RunEnd(t, count, count + 1)
  {
    var pixel := inData[count];
    index := count + 1;
    while index < inData.Length && inData[index] == pixel
      invariant count < index <= inData.Length
      invariant RunEnd(t, count, index) == RunEnd(t, count, count + 1)
    {
      index := index + 1;
    }
  }

  /** The forward and backward scans that find the end of a literal block. */
  method ScanLiteral(inData: array<Word>, ghost t: seq<Word>, count: nat) returns (index: nat)
    requires inData[..] == t && count < |t| <= TileSize && !IsRun(t, count)
    ensures index == BlockEnd(t, count)
  {
    index := count + 1;
    while index < inData.Length && (inData[index] != inData[index - 1] || (index > 1 && inData[index] != inData[index - 2]))
      invariant count < index <= inData.Length
      invariant LiteralScan(t, index) == LiteralScan(t, count + 1)
    {
      index := index + 1;
    }
    while index < inData.Length && inData[index] == inData[index - 1]
      invariant count < index <= inData.Length
      invariant BackOff(t, count, index) == BackOff(t, count, LiteralScan(t, count + 1))
      decreases index
    {
      index := index - 1;
    }
  }

  /** Writes a literal block: its header, then the copy loop over t[from..to]. */
  method EmitLiteral(inData: array<Word>, outData: array<Word>, ghost t: seq<Word>, size: nat, from: nat, to: nat)
    returns (size': nat)
    requires inData[..] == t && inData != outData
    requires from < to <= |t| && to - from < SequenceMask
    requires size + 1 + (to - from) <= outData.Length
    modifies outData
    ensures size' == size + 1 + (to - from)
    ensures outData[..size'] == old(outData[..size]) + ([LiteralHeader(to - from)] + t[from..to])
  {
    outData[size] := LiteralHeader(to - from);
    size' := size + 1;
    var i := from;
    while i < to
      invariant from <= i <= to && size' == size + 1 + (i - from)
      invariant outData[..size'] == old(outData[..size]) + ([LiteralHeader(to - from)] + t[from..i])
    {
      outData[size'] := inData[i];
      size' := size' + 1;
      i := i + 1;
      assert t[from..i] == t[from..i - 1] + [t[i - 1]];
    }
  }

  /** Writes a run block: its length, then its pixel. */
  method EmitRun(outData: array<Word>, size: nat, len: Word, pixel: Word) returns (size': nat)
    requires size + 2 <= outData.Length
    modifies outData
    ensures size' == size + 2
    ensures outData[..size'] == old(outData[..size]) + [len, pixel]
  {
    outData[size] := len;
    outData[size + 1] := pixel;
    size' := size + 2;
  }

  /** The literal branch of encodeRLE's outer loop: finds the block's end and writes it. */
  method WriteLiteralBlock(inData: array<Word>, outData: array<Word>, ghost t: seq<Word>, size: nat, count: nat)
    returns (size': nat, index: nat)
    requires inData[..] == t && inData != outData && count < |t| == TileSize && !IsRun(t, count)
    requires size + |EncodeBlock(t, count)| <= outData.Length
    modifies outData
    ensures index == BlockEnd(t, count)
    ensures size' == size + |EncodeBlock(t, count)|
    ensures outData[..size'] == old(outData[..size]) + EncodeBlock(t, count)
  {
    LiteralBlockWords(t, count);
    index := ScanLiteral(inData, t, count);
    size' := EmitLiteral(inData, outData, t, size, count, index);
  }

  /** The run branch of encodeRLE's outer loop: writes the run that ends at `index`. */
  method WriteRunBlock(inData: array<Word>, outData: array<Word>, ghost t: seq<Word>, size: nat, count: nat, index: nat)
    returns (size': nat)
    requires inData[..] == t && count < |t| == TileSize && IsRun(t, count) && index == RunEnd(t, count, count + 1)
    requires size + |EncodeBlock(t, count)| <= outData.Length
    modifies outData
    ensures index == BlockEnd(t, count)
    ensures size' == size + |EncodeBlock(t, count)|
    ensures outData[..size'] == old(outData[..size]) + EncodeBlock(t, count)
  {
    RunBlockWords(t, count);
    size' := EmitRun(outData, size, index - count, inData[count]);
  }

  /** One pass of encodeRLE's outer loop: scans the block at `count` and writes its words. */
  method EncodeNextBlock(inData: array<Word>, outData: array<Word>, ghost t: seq<Word>, size: nat, count: nat)
    returns (size': nat, index: nat)
    requires inData[..] == t && inData != outData && count < |t| == TileSize
    requires size + |EncodeBlock(t, count)| <= outData.Length
    modifies outData
    ensures index == BlockEnd(t, count)
    ensures size' == size + |EncodeBlock(t, count)|
    ensures outData[..size'] == old(outData[..size]) + EncodeBlock(t, count)
  {
    index := ScanRun(inData, t, count);
    if index - count == 1 {
      size', index := WriteLiteralBlock(inData, outData, t, size, count);
    } else {
      size' := WriteRunBlock(inData, outData, t, size, count, index);
    }
  }

  /** tile_compress::encodeRLE: writes the encoding of `inData` to `outData` and returns its length. */
  method EncodeRLE(inData: array<Word>, outData: array<Word>) returns (size: nat)
    requires inData.Length == TileSize && outData.Length >= 2 * TileSize
    requires inData != outData
    modifies outData
    ensures size <= 2 * TileSize
    ensures outData[..size] == Encode(inData[..])
  {
    ghost var t := inData[..];
    size := 0;
    var count := 0;
    while count < TileSize
      invariant count <= TileSize && inData[..] == t
      invariant size + |EncodeFrom(t, count)| == |Encode(t)|
      invariant outData[..size] + EncodeFrom(t, count) == Encode(t)
      decreases TileSize - count
    {
      ghost var before := outData[..size];
      EncodeFromStep(t, count);
      assert size + |EncodeBlock(t, count)| <= |Encode(t)| <= 2 * TileSize;
      var index;
      size, index := EncodeNextBlock(inData, outData, t, size, count);
      EncodeProgress(t, count, before, outData[..size]);
      count := index;
    }
  }

  /** The copy loop of a literal block: appends inData[from..from+count] at outData[at..]. */
  method CopyPixels(inData: array<Word>, outData: array<Word>, from: nat, at: nat, count: nat)
    requires inData != outData && from + count <= inData.Length && at + count <= outData.Length
    modifies outData
    ensures outData[..at + count] == old(outData[..at]) + inData[from..from + count]
    ensures outData[at + count..] == old(outData[at + count..])
  {
    var i := 0;
    while i < count
      invariant 0 <= i <= count
      invariant outData[..at + i] == old(outData[..at]) + inData[from..from + i]
      invariant outData[at + count..] == old(outData[at + count..])
    {
      outData[at + i] := inData[from + i];
      i := i + 1;
      assert inData[from..from + i] == inData[from..from + i - 1] + [inData[from + i - 1]];
    }
  }

  /** The fill loop of a run block: writes `count` copies of `color` at outData[at..]. */
  method FillPixels(outData: array<Word>, at: nat, count: nat, color: Word)
    requires at + count <= outData.Length
    modifies outData
    ensures outData[..at + count] == old(outData[..at]) + Repeat(color, count)
    ensures outData[at + count..] == old(outData[at + count..])
  {
    var i := 0;
    while i < count
      invariant 0 <= i <= count
      invariant outData[..at + i] == old(outData[..at]) + Repeat(color, i)
      invariant outData[at + count..] == old(outData[at + count..])
    {
      outData[at + i] := color;
      RepeatSnoc(color, i);
      i := i + 1;
    }
  }

  /** The literal branch of decodeRLE's loop: copies the block's pixels. */
  method CopyBlock(inData: array<Word>, outData: array<Word>, ghost s: seq<Word>, inPos: nat, outSize: nat)
    returns (inPos': nat, outSize': nat)
    requires inData[..] == s && inData != outData && outData.Length >= TileSize
    requires outSize < TileSize && inPos < |s| && HasMask(s[inPos])
    requires DecodeAt(s, inPos, outData[..outSize]).Some?
    modifies outData
    ensures outSize < outSize' <= TileSize
    ensures DecodeAt(s, inPos', outData[..outSize']) == old(DecodeAt(s, inPos, outData[..outSize]))
  {
    ghost var before := outData[..outSize];
    DecodeAtLiteral(s, inPos, before);
    var count := inData[inPos] - SequenceMask;
    assert inData[inPos] == s[inPos];
    CopyPixels(inData, outData, inPos + 1, outSize, count);
    inPos' := inPos + 1 + count;
    outSize' := outSize + count;
    assert outData[..outSize'] == before + s[inPos + 1..inPos'];
    LiteralStep(s, inPos, before, inPos', outData[..outSize']);
  }

  /** The run branch of decodeRLE's loop: fills the block's pixels. */
  method FillBlock(inData: array<Word>, outData: array<Word>, ghost s: seq<Word>, inPos: nat, outSize: nat)
    returns (inPos': nat, outSize': nat)
    requires inData[..] == s && inData != outData && outData.Length >= TileSize
    requires outSize < TileSize && inPos < |s| && !HasMask(s[inPos])
    requires DecodeAt(s, inPos, outData[..outSize]).Some?
    modifies outData
    ensures outSize < outSize' <= TileSize
    ensures DecodeAt(s, inPos', outData[..outSize']) == old(DecodeAt(s, inPos, outData[..outSize]))
  {
    ghost var before := outData[..outSize];
    DecodeAtRun(s, inPos, before);
    var count := inData[inPos];
    var color := inData[inPos + 1];
    FillPixels(outData, outSize, count, color);
    inPos' := inPos + 2;
    outSize' := outSize + count;
    assert outData[..outSize'] == before + Repeat(s[inPos + 1], s[inPos]);
    RunStep(s, inPos, before, inPos', outData[..outSize']);
  }

  /** Decoding can go on only while there is input left. */
  lemma DecodeAtHasInput(s: seq<Word>, p: nat, out: seq<Word>)
    requires |out| < TileSize && DecodeAt(s, p, out).Some?
    ensures p < |s|
  {
  }

  /**
   * tile_compress::decodeRLE: writes the tile encoded in `inData` to
   * `outData`. The source checks nothing and returns true; an input that is
   * not an encoding makes it read or write out of bounds, so the model asks
   * for a decodable input instead.
   */
  method DecodeRLE(inData: array<Word>, outData: array<Word>) returns (ok: bool)
    requires inData != outData && outData.Length >= TileSize
    requires Decode(inData[..]).Some?
    modifies outData
    ensures ok
    ensures outData[..TileSize] == Decode(inData[..]).value
  {
    ghost var s := inData[..];
    ghost var tile := Decode(s).value;
    var inPos: nat := 0;
    var outSize: nat := 0;
    assert outData[..0] == [];
    while outSize < TileSize
      invariant inData[..] == s && outSize <= TileSize
      invariant DecodeAt(s, inPos, outData[..outSize]) == Some(tile)
      decreases TileSize - outSize
    {
      DecodeAtHasInput(s, inPos, outData[..outSize]);
      if HasMask(inData[inPos]) {
        inPos, outSize := CopyBlock(inData, outData, s, inPos, outSize);
      } else {
        inPos, outSize := FillBlock(inData, outData, s, inPos, outSize);
      }
    }
    ok := true;
  }

  // ---------------------------------------------------------------------
  // Tile comparison.

  /** A tile sprite: either empty (a null data pointer) or a tile of pixel words. */
  datatype Sprite = Empty | Tile(words: seq<Word>)

  predicate WellFormed(s: Sprite) {
    s.Tile? ==> |s.words| == TileSize
  }

  /** Byte `k` (0..3) of a word; the order of the four bytes does not matter to the comparison. */
  function ByteOfWord(w: Word, k: nat): (b: nat)
    requires k < 4
    ensures b < 256
  {
    if k == 0 then w % 256 else ByteOfWord(w / 256, k - 1)
  }

  /** Byte `i` of a tile seen as GR_TILE_SPRITE_SIZE_BYTES bytes. */
  function ByteAt(words: seq<Word>, i: nat): nat
    requires i < 4 * |words|
  {
    ByteOfWord(words[i / 4], i % 4)
  }

  function Dist(a: nat, b: nat): nat {
    if a < b then b - a else a - b
  }

  /** Every byte of the two tiles differs by at most the tolerance. */
  predicate Similar(a: seq<Word>, b: seq<Word>)
    requires |a| == |b|
  {
    forall i :: 0 <= i < 4 * |a| ==> Dist(ByteAt(a, i), ByteAt(b, i)) <= Tolerance
  }

  /** grTileSprite::operator==, as a relation. */
  predicate SameSprite(a: Sprite, b: Sprite)
    requires WellFormed(a) && WellFormed(b)
  {
    if a.Empty? || b.Empty? then a.Empty? && b.Empty? else Similar(a.words, b.words)
  }

  /** grTileSprite::operator==: the byte loop with its early exit. */
  method SpriteEquals(a: Sprite, b: Sprite) returns (eq: bool)
    requires WellFormed(a) && WellFormed(b)
    ensures eq <==> SameSprite(a, b)
  {
    if a.Empty? || b.Empty? {
      return a.Empty? && b.Empty?;
    }
    var i := 0;
    while i < TileSizeBytes
      invariant 0 <= i <= TileSizeBytes
      invariant forall k :: 0 <= k < i ==> Dist(ByteAt(a.words, k), ByteAt(b.words, k)) <= Tolerance
    {
      if Dist(ByteAt(a.words, i), ByteAt(b.words, i)) > Tolerance {
        return false;
      }
      i := i + 1;
    }
    return true;
  }

  /** Tile equality is reflexive. */
  lemma SameSpriteReflexive(a: Sprite)
    requires WellFormed(a)
    ensures SameSprite(a, a)
  {
  }

  /** Tile equality is symmetric. */
  lemma SameSpriteSymmetric(a: Sprite, b: Sprite)
    requires WellFormed(a) && WellFormed(b)
    ensures SameSprite(a, b) == SameSprite(b, a)
  {
    if a.Tile? && b.Tile? && SameSprite(a, b) {
      forall i | 0 <= i < 4 * |b.words|
        ensures Dist(ByteAt(b.words, i), ByteAt(a.words, i)) <= Tolerance
      {
        assert Dist(ByteAt(a.words, i), ByteAt(b.words, i)) <= Tolerance;
      }
    }
  }

  /** Tile equality is not transitive: pixels 0, 2 and 4 chain but 0 and 4 differ by more than the tolerance. */
  lemma SameSpriteNotTransitive()
    ensures var a := Tile(seq(TileSize, _ => 0));
      var b := Tile(seq(TileSize, _ => 2));
      var c := Tile(seq(TileSize, _ => 4));
      SameSprite(a, b) && SameSprite(b, c) && !SameSprite(a, c)
  {
    var a := seq(TileSize, _ => 0);
    var b := seq(TileSize, _ => 2);
    var c := seq(TileSize, _ => 4);
    forall i | 0 <= i < 4 * TileSize
      ensures ByteAt(a, i) == 0 && ByteAt(b, i) <= 2 && ByteAt(c, i) <= 4
    {
      SmallWordBytes(a[i / 4], i % 4);
      SmallWordBytes(b[i / 4], i % 4);
      SmallWordBytes(c[i / 4], i % 4);
    }
    assert ByteAt(c, 0) == 4;
  }

  /** The bytes of a word below 256 are the word and zeros. */
  lemma SmallWordBytes(w: Word, k: nat)
    requires w < 256 && k < 4
    ensures ByteOfWord(w, k) == if k == 0 then w else 0
  {
    if k > 0 {
      assert w / 256 == 0;
      ZeroWordBytes(k - 1);
    }
  }

  lemma {:induction false} ZeroWordBytes(k: nat)
    requires k < 4
    ensures ByteOfWord(0, k) == 0
  {
    if k > 0 { ZeroWordBytes(k - 1); }
  }

  // ---------------------------------------------------------------------
  // Compression dispatch.

  /** grTileCompressionMethod. */
  datatype Compression = Uncompressed | Rle | Lz77

  /**
   * The external LZ77 codec: `encode` gives the words grTileSprite::compress
   * writes (its length word and the packed bytes) and `decode` gives the tile
   * that decompressing such words yields.
   */
  datatype Lz77Codec = Lz77Codec(encode: seq<Word> -> seq<Word>, decode: seq<Word> -> seq<Word>)

  /**
   * grTileSprite::compress: RLE writes the run-length encoding and returns its
   * length; LZ77 delegates to the external codec; any other method writes
   * nothing and returns 0.
   */
  method Compress(inData: array<Word>, outData: array<Word>, compression: Compression, lz: Lz77Codec) returns (size: nat)
    requires inData.Length == TileSize && outData.Length >= 2 * TileSize && inData != outData
    requires compression == Lz77 ==> |lz.encode(inData[..])| <= outData.Length
    modifies outData
    ensures size <= outData.Length
    ensures compression == Rle ==> outData[..size] == Encode(inData[..]) && size <= 2 * TileSize
    ensures compression == Lz77 ==> outData[..size] == lz.encode(inData[..])
    ensures compression == Uncompressed ==> size == 0 && outData[..] == old(outData[..])
  {
    match compression
    case Rle =>
      size := EncodeRLE(inData, outData);
    case Lz77 =>
      var w := lz.encode(inData[..]);
      size := |w|;
      var i := 0;
      while i < size
        invariant 0 <= i <= size
        invariant outData[..i] == w[..i]
      {
        outData[i] := w[i];
        i := i + 1;
        assert outData[..i] == outData[..i - 1] + [w[i - 1]];
      }
      assert w[..size] == w;
    case Uncompressed =>
      size := 0;
  }

  /**
   * grTileSprite::uncompress: RLE decodes, LZ77 delegates to the external
   * codec, any other method returns false and writes nothing.
   */
  method Uncompress(inData: array<Word>, outData: array<Word>, compression: Compression, lz: Lz77Codec) returns (ok: bool)
    requires outData.Length >= TileSize && inData != outData
    requires compression == Rle ==> Decode(inData[..]).Some?
    requires compression == Lz77 ==> |lz.decode(inData[..])| == TileSize
    modifies outData
    ensures ok <==> compression != Uncompressed
    ensures compression == Rle ==> outData[..TileSize] == Decode(inData[..]).value
    ensures compression == Lz77 ==> outData[..TileSize] == lz.decode(inData[..])
    ensures compression == Uncompressed ==> outData[..] == old(outData[..])
  {
    match compression
    case Rle =>
      ok := DecodeRLE(inData, outData);
    case Lz77 =>
      var w := lz.decode(inData[..]);
      var i := 0;
      while i < TileSize
        invariant 0 <= i <= TileSize
        invariant outData[..i] == w[..i]
      {
        outData[i] := w[i];
        i := i + 1;
        assert outData[..i] == outData[..i - 1] + [w[i - 1]];
      }
      assert w[..TileSize] == w;
      ok := true;
    case Uncompressed =>
      ok := false;
  }
}
