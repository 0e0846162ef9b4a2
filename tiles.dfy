/** The quadrant tiler of the prediction script: a frame is cut at its
    midpoint into four tiles, stacked along the batch axis in the order
    top-left, top-right, bottom-left, bottom-right.  A frame is a sequence
    of rows of pixels; the pixel type is generic, so a pixel may stand for
    its channel vector. */
module Tiles {

  type Image<T> = seq<seq<T>>

  /** `img` has `h` rows of `w` pixels each. */
  predicate IsShape<T>(img: Image<T>, h: nat, w: nat)
  {
    |img| == h && forall r :: 0 <= r < h ==> |img[r]| == w
  }

  /** Four tiles of `h` rows by `w` columns each. */
  predicate IsTileBatch<T>(tiles: seq<Image<T>>, h: nat, w: nat)
  {
    |tiles| == 4 && IsShape(tiles[0], h, w) && IsShape(tiles[1], h, w)
    && IsShape(tiles[2], h, w) && IsShape(tiles[3], h, w)
  }

  /** The first row of tile `i` in its frame: `(i / 2) * h`. */
  function RowOffset(i: nat, h: nat): nat
  {
    if i < 2 then 0 else h
  }

  /** The first column of tile `i` in its frame: `(i % 2) * w`. */
  function ColOffset(i: nat, w: nat): nat
  {
    if i % 2 == 0 then 0 else w
  }

  /** The network input size (rows, columns) the frame is resized to. */
  const InputRows: nat := 1024
  const InputCols: nat := 2048

  /** The flow input is half the network input in each direction. */
  const FlowRows: nat := InputRows / 2
  const FlowCols: nat := InputCols / 2

  /** `img[r0:r1, c0:c1]` */
  function Crop<T>(img: Image<T>, r0: nat, r1: nat, c0: nat, c1: nat): (t: Image<T>)
    requires r0 <= r1 <= |img| && c0 <= c1
    requires forall r :: 0 <= r < |img| ==> c1 <= |img[r]|
    ensures IsShape(t, r1 - r0, c1 - c0)
    ensures forall r, c :: 0 <= r < r1 - r0 && 0 <= c < c1 - c0 ==> t[r][c] == img[r0 + r][c0 + c]
  {
    seq(r1 - r0, r requires 0 <= r < r1 - r0 => img[r0 + r][c0..c1])
  }

  /** The four tiles of a `2h` by `2w` frame split at `(h, w)`, in the order
      top-left, top-right, bottom-left, bottom-right. */
  function Quadrants<T>(img: Image<T>, h: nat, w: nat): (tiles: seq<Image<T>>)
    requires IsShape(img, 2 * h, 2 * w)
    ensures IsTileBatch(tiles, h, w)
  {
    [Crop(img, 0, h, 0, w), Crop(img, 0, h, w, 2 * w),
     Crop(img, h, 2 * h, 0, w), Crop(img, h, 2 * h, w, 2 * w)]
  }

  /** The segmentation batch: the 1024 x 2048 network input split at
      (512, 1024). */
  function SegmentationBatch<T>(img: Image<T>): (tiles: seq<Image<T>>)
    requires IsShape(img, InputRows, InputCols)
    ensures IsTileBatch(tiles, 512, 1024)
  {
    Quadrants(img, 512, 1024)
  }

  /** A flow batch (key frame or current frame): the 512 x 1024 flow input
      split at (256, 512). */
  function FlowBatch<T>(img: Image<T>): (tiles: seq<Image<T>>)
    requires IsShape(img, FlowRows, FlowCols)
    ensures IsTileBatch(tiles, 256, 512)
  {
    Quadrants(img, 256, 512)
  }

  /** Which tile pixel `(row, col)` of a `2h` by `2w` frame falls in. */
  function QuadrantOf(row: nat, col: nat, h: nat, w: nat): nat
  {
    (if row < h then 0 else 2) + (if col < w then 0 else 1)
  }

  /** The offsets are `(i / 2) * h` and `(i % 2) * w` for every tile index. */
  lemma OffsetsAreQuotientAndRemainder(i: nat, h: nat, w: nat)
    requires i < 4
    ensures RowOffset(i, h) == (i / 2) * h && ColOffset(i, w) == (i % 2) * w
  {
    if i == 0 {
    } else if i == 1 {
    } else if i == 2 {
    } else {
      assert i / 2 == 1 && i % 2 == 1;
    }
  }

  /** Tile `i` at `(r, c)` is the frame pixel at
      `(r + (i / 2) * h, c + (i % 2) * w)`. */
  lemma TilePixel<T>(img: Image<T>, h: nat, w: nat, i: nat, r: nat, c: nat)
    requires IsShape(img, 2 * h, 2 * w)
    requires i < 4 && r < h && c < w
    ensures r + RowOffset(i, h) < 2 * h && c + ColOffset(i, w) < 2 * w
    ensures Quadrants(img, h, w)[i][r][c] == img[r + RowOffset(i, h)][c + ColOffset(i, w)]
  {
    var tiles := Quadrants(img, h, w);
    if i == 0 {
      assert tiles[0] == Crop(img, 0, h, 0, w);
    } else if i == 1 {
      assert tiles[1] == Crop(img, 0, h, w, 2 * w);
    } else if i == 2 {
      assert tiles[2] == Crop(img, h, 2 * h, 0, w);
    } else {
      assert tiles[3] == Crop(img, h, 2 * h, w, 2 * w);
    }
  }

  /** Every frame pixel lies in exactly one tile: the tile `QuadrantOf` names,
      at one local position, and no other tile position maps to it. */
  lemma PixelHasOneOwner(h: nat, w: nat, row: nat, col: nat, i: nat, r: nat, c: nat)
    requires row < 2 * h && col < 2 * w
    requires i < 4 && r < h && c < w
    ensures QuadrantOf(row, col, h, w) < 4
    ensures (row == r + RowOffset(i, h) && col == c + ColOffset(i, w))
        <==> (i == QuadrantOf(row, col, h, w) && r == row - RowOffset(i, h) && c == col - ColOffset(i, w))
  {
  }

  /** Put four `h` by `w` tiles back together into one `2h` by `2w` frame. */
  function Assemble<T>(tiles: seq<Image<T>>, h: nat, w: nat): (img: Image<T>)
    requires IsTileBatch(tiles, h, w)
    ensures IsShape(img, 2 * h, 2 * w)
  {
    seq(2 * h, row requires 0 <= row < 2 * h =>
      if row < h then tiles[0][row] + tiles[1][row]
      else tiles[2][row - h] + tiles[3][row - h])
  }

  /** Reassembling the four tiles reproduces the frame exactly: no pixel is
      dropped, moved or duplicated. */
  lemma AssembleQuadrants<T>(img: Image<T>, h: nat, w: nat)
    requires IsShape(img, 2 * h, 2 * w)
    ensures Assemble(Quadrants(img, h, w), h, w) == img
  {
    var tiles := Quadrants(img, h, w);
    var back := Assemble(tiles, h, w);
    forall row | 0 <= row < 2 * h ensures back[row] == img[row] {
      if row < h {
        assert tiles[0][row] == img[row][..w];
        assert tiles[1][row] == img[row][w..];
        assert img[row] == img[row][..w] + img[row][w..];
      } else {
        assert tiles[2][row - h] == img[row][..w];
        assert tiles[3][row - h] == img[row][w..];
        assert img[row] == img[row][..w] + img[row][w..];
      }
    }
  }

  /** Splitting an assembled frame gives back the four tiles, so splitting
      and assembling are inverse bijections. */
  lemma QuadrantsAssemble<T>(tiles: seq<Image<T>>, h: nat, w: nat)
    requires IsTileBatch(tiles, h, w)
    ensures Quadrants(Assemble(tiles, h, w), h, w) == tiles
  {
    var img := Assemble(tiles, h, w);
    var back := Quadrants(img, h, w);
    forall i, r | 0 <= i < 4 && 0 <= r < h ensures back[i][r] == tiles[i][r] {
      forall c | 0 <= c < w ensures back[i][r][c] == tiles[i][r][c] {
        TilePixel(img, h, w, i, r, c);
        if i < 2 {
          assert img[r] == tiles[0][r] + tiles[1][r];
        } else {
          assert img[r + h] == tiles[2][r] + tiles[3][r];
        }
      }
    }
    forall i | 0 <= i < 4 ensures back[i] == tiles[i] {
    }
  }

  /** A frame downsampled by two in each direction, every output pixel a
      function `f` of its 2 x 2 block (top-left, top-right, bottom-left,
      bottom-right). Subsampling, block averaging and any per-pixel
      normalisation followed by either are of this kind. */
  function Downsample<T, U>(img: Image<T>, h: nat, w: nat, f: (T, T, T, T) -> U): (small: Image<U>)
    requires IsShape(img, 2 * h, 2 * w)
    ensures IsShape(small, h, w)
  {
    seq(h, r requires 0 <= r < h => seq(w, c requires 0 <= c < w => Pool(img, r, c, f)))
  }

  /** Output pixel `(r, c)` of `Downsample`: `f` of the 2 x 2 block at
      `(2r, 2c)`. */
  function Pool<T, U>(img: Image<T>, r: nat, c: nat, f: (T, T, T, T) -> U): U
    requires 2 * r + 1 < |img| && 2 * c + 1 < |img[2 * r]| && 2 * c + 1 < |img[2 * r + 1]|
  {
    f(img[2 * r][2 * c], img[2 * r][2 * c + 1], img[2 * r + 1][2 * c], img[2 * r + 1][2 * c + 1])
  }

  /** A per-pixel map such as mean subtraction or division by 255. */
  function PixelMap<T, U>(img: Image<T>, g: T -> U): (out: Image<U>)
    ensures |out| == |img|
    ensures forall r :: 0 <= r < |img| ==> |out[r]| == |img[r]|
  {
    seq(|img|, r requires 0 <= r < |img| =>
      seq(|img[r]|, c requires 0 <= c < |img[r]| => g(img[r][c])))
  }

  /** Pixel `(row, col)` of a `4h` by `4w` frame and its half-resolution
      counterpart `(row / 2, col / 2)` fall in the same tile index. */
  lemma QuadrantAgreesAcrossScales(row: nat, col: nat, h: nat, w: nat)
    requires row < 4 * h && col < 4 * w
    ensures row / 2 < 2 * h && col / 2 < 2 * w
    ensures QuadrantOf(row, col, 2 * h, 2 * w) == QuadrantOf(row / 2, col / 2, h, w)
  {
  }

  /** The block of pixel `(r, c)` of a downsampled frame. */
  lemma DownsampleAt<T, U>(img: Image<T>, h: nat, w: nat, f: (T, T, T, T) -> U, r: nat, c: nat)
    requires IsShape(img, 2 * h, 2 * w) && r < h && c < w
    ensures Downsample(img, h, w, f)[r][c]
         == f(img[2 * r][2 * c], img[2 * r][2 * c + 1], img[2 * r + 1][2 * c], img[2 * r + 1][2 * c + 1])
  {
  }

  /** Tile `i` of a `2h` by `2w` frame as one crop at its offsets.  This is
      `Quadrants(img, h, w)[i]` under a second name (see QuadrantIsTile),
      kept only so that proofs about one tile stay cheap to verify. */
  function Tile<T>(img: Image<T>, h: nat, w: nat, i: nat): (t: Image<T>)
    requires IsShape(img, 2 * h, 2 * w) && i < 4
    ensures IsShape(t, h, w)
  {
    Crop(img, RowOffset(i, h), RowOffset(i, h) + h, ColOffset(i, w), ColOffset(i, w) + w)
  }

  /** Pixel `(r, c)` of tile `i`. */
  lemma TileAt<T>(img: Image<T>, h: nat, w: nat, i: nat, r: nat, c: nat)
    requires IsShape(img, 2 * h, 2 * w) && i < 4 && r < h && c < w
    ensures Tile(img, h, w, i)[r][c] == img[r + RowOffset(i, h)][c + ColOffset(i, w)]
  {
  }

  /** Entry `i` of the quadrant batch is the crop at tile `i`'s offsets. */
  lemma QuadrantIsTile<T>(img: Image<T>, h: nat, w: nat, i: nat)
    requires IsShape(img, 2 * h, 2 * w) && i < 4
    ensures Quadrants(img, h, w)[i] == Tile(img, h, w, i)
  {
    if i == 0 {
    } else if i == 1 {
    } else if i == 2 {
    } else {
    }
  }

  /** Two frames with the same 2 x 2 block at `(2r, 2c)` and `(2tr, 2tc)`
      downsample to the same pixel there. */
  lemma BlocksAgree<T, U>(img: Image<T>, tile: Image<T>, h: nat, w: nat, f: (T, T, T, T) -> U,
                          r: nat, c: nat, tr: nat, tc: nat)
    requires IsShape(img, 4 * h, 4 * w) && IsShape(tile, 2 * h, 2 * w)
    requires r < h && c < w && tr < 2 * h && tc < 2 * w
    requires tile[2 * r][2 * c] == img[2 * tr][2 * tc] && tile[2 * r][2 * c + 1] == img[2 * tr][2 * tc + 1]
    requires tile[2 * r + 1][2 * c] == img[2 * tr + 1][2 * tc] && tile[2 * r + 1][2 * c + 1] == img[2 * tr + 1][2 * tc + 1]
    ensures Downsample(tile, h, w, f)[r][c] == Downsample(img, 2 * h, 2 * w, f)[tr][tc]
  {
    DownsampleAt(img, 2 * h, 2 * w, f, tr, tc);
    DownsampleAt(tile, h, w, f, r, c);
  }

  /** Pixel `(2r + dr, 2c + dc)` of tile `i` of a `4h` by `4w` frame lies in
      the frame's block at `(2tr, 2tc)`, the matching half-resolution
      position doubled. */
  lemma TileBlockAt<T>(img: Image<T>, tile: Image<T>, h: nat, w: nat, i: nat, r: nat, c: nat,
                       tr: nat, tc: nat, dr: nat, dc: nat)
    requires IsShape(img, 4 * h, 4 * w) && i < 4 && r < h && c < w && dr < 2 && dc < 2
    requires tile == Tile(img, 2 * h, 2 * w, i)
    requires tr == r + RowOffset(i, h) && tc == c + ColOffset(i, w)
    ensures tr < 2 * h && tc < 2 * w
    ensures tile[2 * r + dr][2 * c + dc] == img[2 * tr + dr][2 * tc + dc]
  {
    TileAt(img, 2 * h, 2 * w, i, 2 * r + dr, 2 * c + dc);
    assert RowOffset(i, 2 * h) == 2 * RowOffset(i, h) && ColOffset(i, 2 * w) == 2 * ColOffset(i, w);
  }

  /** The whole 2 x 2 block at `(2r, 2c)` of tile `i` is the frame's block at
      `(2tr, 2tc)`, the matching half-resolution position doubled. */
  lemma TileBlock<T>(img: Image<T>, tile: Image<T>, h: nat, w: nat, i: nat, r: nat, c: nat, tr: nat, tc: nat)
    requires IsShape(img, 4 * h, 4 * w) && i < 4 && r < h && c < w
    requires tile == Tile(img, 2 * h, 2 * w, i)
    requires tr == r + RowOffset(i, h) && tc == c + ColOffset(i, w)
    ensures tr < 2 * h && tc < 2 * w
    ensures tile[2 * r][2 * c] == img[2 * tr][2 * tc] && tile[2 * r][2 * c + 1] == img[2 * tr][2 * tc + 1]
    ensures tile[2 * r + 1][2 * c] == img[2 * tr + 1][2 * tc] && tile[2 * r + 1][2 * c + 1] == img[2 * tr + 1][2 * tc + 1]
  {
    TileBlockAt(img, tile, h, w, i, r, c, tr, tc, 0, 0);
    TileBlockAt(img, tile, h, w, i, r, c, tr, tc, 0, 1);
    TileBlockAt(img, tile, h, w, i, r, c, tr, tc, 1, 0);
    TileBlockAt(img, tile, h, w, i, r, c, tr, tc, 1, 1);
  }

  /** One pixel of `QuadrantsOfDownsample`: the block under pixel `(r, c)` of
      tile `i` at full resolution is the block under the matching pixel of
      the downsampled frame. */
  lemma DownsampleTilePixel<T, U>(img: Image<T>, h: nat, w: nat, f: (T, T, T, T) -> U, i: nat, r: nat, c: nat)
    requires IsShape(img, 4 * h, 4 * w) && i < 4 && r < h && c < w
    ensures Tile(Downsample(img, 2 * h, 2 * w, f), h, w, i)[r][c]
         == Downsample(Tile(img, 2 * h, 2 * w, i), h, w, f)[r][c]
  {
    var tile := Tile(img, 2 * h, 2 * w, i);
    var tr, tc := r + RowOffset(i, h), c + ColOffset(i, w);
    TileBlock(img, tile, h, w, i, r, c, tr, tc);
    BlocksAgree(img, tile, h, w, f, r, c, tr, tc);
    TileAt(Downsample(img, 2 * h, 2 * w, f), h, w, i, r, c);
  }

  /** Splitting commutes with block downsampling: tile `i` of the
      downsampled frame is the downsampled tile `i` of the full frame. */
  lemma QuadrantsOfDownsample<T, U>(img: Image<T>, h: nat, w: nat, f: (T, T, T, T) -> U, i: nat)
    requires IsShape(img, 4 * h, 4 * w) && i < 4
    ensures Quadrants(Downsample(img, 2 * h, 2 * w, f), h, w)[i]
         == Downsample(Quadrants(img, 2 * h, 2 * w)[i], h, w, f)
  {
    QuadrantIsTile(Downsample(img, 2 * h, 2 * w, f), h, w, i);
    QuadrantIsTile(img, 2 * h, 2 * w, i);
    var lhs := Tile(Downsample(img, 2 * h, 2 * w, f), h, w, i);
    var rhs := Downsample(Tile(img, 2 * h, 2 * w, i), h, w, f);
    forall r | 0 <= r < h ensures lhs[r] == rhs[r] {
      forall c | 0 <= c < w ensures lhs[r][c] == rhs[r][c] {
        DownsampleTilePixel(img, h, w, f, i, r, c);
      }
    }
  }

  /** Splitting commutes with per-pixel maps. */
  lemma QuadrantsOfPixelMap<T, U>(img: Image<T>, h: nat, w: nat, g: T -> U, i: nat)
    requires IsShape(img, 2 * h, 2 * w) && i < 4
    ensures IsShape(PixelMap(img, g), 2 * h, 2 * w)
    ensures Quadrants(PixelMap(img, g), h, w)[i] == PixelMap(Quadrants(img, h, w)[i], g)
  {
    var lhs := Quadrants(PixelMap(img, g), h, w)[i];
    var rhs := PixelMap(Quadrants(img, h, w)[i], g);
    forall r | 0 <= r < h ensures lhs[r] == rhs[r] {
      forall c | 0 <= c < w ensures lhs[r][c] == rhs[r][c] {
        TilePixel(PixelMap(img, g), h, w, i, r, c);
        TilePixel(img, h, w, i, r, c);
      }
    }
  }

  /** Tile index `i` names the same region of the decoded key frame in the
      segmentation batch (built from the frame after the per-pixel
      normalisation `g`) and in the flow batch (built from the frame after
      the block downsampler `f`): both are tile `i` of the same 1024 x 2048
      frame, split at (512, 1024).  The decoded frame is taken to be
      1024 x 2048 already, the Cityscapes frame size: then the resize to the
      network input is the identity and the half-size resize reads a 2 x 2
      block.  For any other decoded size both resizes are genuine bilinear
      resizes, which are not modelled. */
  lemma TileOrderAgrees<T, U, V>(frame: Image<T>, g: T -> U, f: (T, T, T, T) -> V, i: nat)
    requires IsShape(frame, InputRows, InputCols) && i < 4
    ensures IsShape(PixelMap(frame, g), InputRows, InputCols)
    ensures IsShape(Downsample(frame, FlowRows, FlowCols, f), FlowRows, FlowCols)
    ensures SegmentationBatch(PixelMap(frame, g))[i] == PixelMap(Quadrants(frame, 512, 1024)[i], g)
    ensures FlowBatch(Downsample(frame, FlowRows, FlowCols, f))[i]
         == Downsample(Quadrants(frame, 512, 1024)[i], 256, 512, f)
  {
    QuadrantsOfPixelMap(frame, 512, 1024, g, i);
    QuadrantsOfDownsample(frame, 256, 512, f, i);
  }
}
