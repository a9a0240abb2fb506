/** `MonochromeCompressor::bsp_compress` in raw mode: each process averages blocks of its rows of an RGB image
    into one byte each, overwriting its own input from the front. The block average is any function of the block's
    rows of pixels. */
module Compressor {
  import opened Bytes
  import opened VectorDistribution
  import BD = BlockDistribution

  datatype Pixel = Pixel(r: byte, g: byte, b: byte)

  function CeilDiv(a: nat, b: nat): (r: nat)
    requires b >= 1
  {
    (a + b - 1) / b
  }

  function Min(a: int, b: int): int {
    if a <= b then a else b
  }

  /** The length of `k` stretches of `n`, added up one by one: it keeps the index proofs below linear. */
  function Times(k: nat, n: nat): nat {
    if k == 0 then 0 else Times(k - 1, n) + n
  }

  lemma {:induction false} TimesIsProduct(k: nat, n: nat)
    ensures Times(k, n) == k * n
  {
    if k > 0 {
      TimesIsProduct(k - 1, n);
      assert (k - 1) * n == k * n - n;
    }
  }

  lemma {:induction false} TimesAdds(k: nat, l: nat, n: nat)
    ensures Times(k + l, n) == Times(k, n) + Times(l, n)
  {
    if l > 0 {
      TimesAdds(k, l - 1, n);
    }
  }

  lemma TimesMonotone(k: nat, l: nat, n: nat)
    requires k <= l
    ensures Times(k, n) <= Times(l, n)
  {
    TimesAdds(k, l - k, n);
  }

  /** Where pixel (y, x) starts. */
  function At(width: nat, y: nat, x: nat): nat {
    3 * (Times(y, width) + x)
  }

  lemma PixelInside(width: nat, rows: nat, y: nat, x: nat)
    requires y < rows && x < width
    ensures At(width, y, x) + 3 <= 3 * Times(rows, width)
  {
    TimesMonotone(y + 1, rows, width);
  }

  /** `rows` rows of `width` pixels. */
  predicate Image(img: seq<byte>, width: nat, rows: nat) {
    3 * Times(rows, width) <= |img|
  }

  function PixelAt(img: seq<byte>, width: nat, rows: nat, y: nat, x: nat): Pixel
    requires Image(img, width, rows) && y < rows && x < width
  {
    PixelInside(width, rows, y, x);
    var i := At(width, y, x);
    Pixel(img[i], img[i + 1], img[i + 2])
  }

  /** How many values a loop from `a` up to `b` visits. */
  function Span(a: nat, b: int): nat {
    if a < b then b - a else 0
  }

  function RowPixels(img: seq<byte>, width: nat, rows: nat, y: nat, x1: nat, x2: int): seq<Pixel>
    requires Image(img, width, rows) && y < rows && x2 <= width
  {
    seq(Span(x1, x2), k requires 0 <= k < Span(x1, x2) => PixelAt(img, width, rows, y, x1 + k))
  }

  /** The pixels of [x1, x2) x [y1, y2), row by row. */
  function BlockPixels(img: seq<byte>, width: nat, rows: nat, x1: nat, x2: int, y1: nat, y2: int): seq<seq<Pixel>>
    requires Image(img, width, rows) && x2 <= width && y2 <= rows
  {
    seq(Span(y1, y2), k requires 0 <= k < Span(y1, y2) => RowPixels(img, width, rows, y1 + k, x1, x2))
  }

  /** The sizes of one down-sampling: an image of `rows` x `width` pixels to `outRows` x `outWidth` bytes, each
      averaging a block of `nrows` x `ncols` pixels cut at the border. */
  datatype Shape = Shape(width: nat, rows: nat, outWidth: nat, outRows: nat, nrows: nat, ncols: nat)

  predicate Sensible(sh: Shape) {
    sh.width >= 1 && sh.outWidth >= 1 && sh.nrows >= 1 && sh.ncols >= 1
  }

  /** The block that starts at column `x1` and row `y1`, cut at the border. */
  function BlockAt(img: seq<byte>, sh: Shape, x1: nat, y1: nat): seq<seq<Pixel>>
    requires Image(img, sh.width, sh.rows)
  {
    BlockPixels(img, sh.width, sh.rows, x1, Min(x1 + sh.ncols, sh.width), y1, Min(y1 + sh.nrows, sh.rows))
  }

  /** The byte for compressed row `h`, column `w`. */
  function Average(img: seq<byte>, sh: Shape, f: seq<seq<Pixel>> -> byte, h: nat, w: nat): byte
    requires Image(img, sh.width, sh.rows)
  {
    f(BlockAt(img, sh, w * sh.ncols, h * sh.nrows))
  }

  // ----- writing over the input -----

  /** Byte `i` of the output, when `h` full rows and `w` bytes are written. */
  function OutIndex(sh: Shape, h: nat, w: nat): nat {
    h * sh.outWidth + w
  }

  predicate BlockNonEmpty(sh: Shape, h: nat, w: nat) {
    w * sh.ncols < sh.width && h * sh.nrows < sh.rows
  }

  /** The block of an output byte starts no earlier than that byte: what is written before cannot touch it. */
  predicate ReadsAhead(sh: Shape, h: nat, w: nat) {
    BlockNonEmpty(sh, h, w) ==> OutIndex(sh, h, w) <= At(sh.width, h * sh.nrows, w * sh.ncols)
  }

  /** Every output byte is computed from pixels that are still the input's. */
  ghost predicate NeverClobbers(sh: Shape) {
    forall h: nat, w: nat :: h < sh.outRows && w < sh.outWidth ==> ReadsAhead(sh, h, w)
  }

  /** There is no second row of blocks, or a row of output fits in the rows it is averaged from. */
  predicate RoomPerRow(sh: Shape) {
    sh.outRows <= 1 || sh.rows <= sh.nrows || sh.outWidth <= 3 * (sh.nrows * sh.width)
  }

  lemma ReadsAheadWithRoom(sh: Shape, h: nat, w: nat)
    requires Sensible(sh) && RoomPerRow(sh) && h < sh.outRows && w < sh.outWidth
    ensures ReadsAhead(sh, h, w)
  {
    BD.MulMonotone(1, sh.ncols, w);
    assert w <= w * sh.ncols;
    if h >= 1 && BlockNonEmpty(sh, h, w) {
      BD.MulMonotone(1, h, sh.nrows);
      assert sh.nrows <= h * sh.nrows;
      assert sh.outWidth <= 3 * (sh.nrows * sh.width);
      BD.MulMonotone(sh.outWidth, 3 * (sh.nrows * sh.width), h);
      assert h * sh.outWidth <= h * (3 * (sh.nrows * sh.width));
      RowStart(h, sh.nrows, sh.width);
      TimesIsProduct(h * sh.nrows, sh.width);
    }
  }

  lemma RowStart(h: nat, nrows: nat, width: nat)
    ensures h * (3 * (nrows * width)) == 3 * ((h * nrows) * width)
  {
    assert h * (3 * (nrows * width)) == 3 * (h * (nrows * width));
    assert h * (nrows * width) == (h * nrows) * width;
  }

  /** Overwriting the input is harmless if and only if there is room for a row of output per row of blocks. */
  lemma InPlaceExactly(sh: Shape)
    requires Sensible(sh)
    ensures NeverClobbers(sh) <==> RoomPerRow(sh)
  {
    if RoomPerRow(sh) {
      forall h: nat, w: nat | h < sh.outRows && w < sh.outWidth
        ensures ReadsAhead(sh, h, w)
      {
        ReadsAheadWithRoom(sh, h, w);
      }
    } else {
      assert BlockNonEmpty(sh, 1, 0);
      assert !ReadsAhead(sh, 1, 0) by {
        TimesIsProduct(sh.nrows, sh.width);
      }
      assert 1 < sh.outRows && 0 < sh.outWidth;
    }
  }

  /** Every shape of the program has blocks for all its rows, and then it is enough that the output is no longer than
      the input: a loop that stays inside its buffer never overwrites what it still has to read. */
  lemma FittingOutputHasRoom(sh: Shape)
    requires Sensible(sh) && sh.rows <= sh.outRows * sh.nrows && sh.outRows * sh.outWidth <= 3 * (sh.rows * sh.width)
    ensures RoomPerRow(sh)
  {
    if sh.outWidth > 3 * (sh.nrows * sh.width) && sh.outRows >= 1 {
      BD.MulMonotone(3 * (sh.nrows * sh.width) + 1, sh.outWidth, sh.outRows);
      BD.MulMonotone(sh.rows, sh.outRows * sh.nrows, sh.width);
      RowStart(sh.outRows, sh.nrows, sh.width);
    }
  }

  // ----- the loop -----

  lemma PixelAfter(width: nat, y1: nat, x1: nat, y: nat, x: nat)
    requires y1 <= y && x1 <= x
    ensures At(width, y1, x1) <= At(width, y, x)
  {
    TimesMonotone(y1, y, width);
  }

  lemma RowUnchanged(cur: seq<byte>, img: seq<byte>, width: nat, rows: nat, y: nat, x1: nat, x2: int, from: nat)
    requires |cur| == |img| && Image(img, width, rows) && y < rows && x2 <= width
    requires x1 < x2 ==> from <= At(width, y, x1)
    requires forall i :: from <= i < |img| ==> cur[i] == img[i]
    ensures RowPixels(cur, width, rows, y, x1, x2) == RowPixels(img, width, rows, y, x1, x2)
  {
    forall k: nat | k < Span(x1, x2)
      ensures RowPixels(cur, width, rows, y, x1, x2)[k] == RowPixels(img, width, rows, y, x1, x2)[k]
    {
      PixelInside(width, rows, y, x1 + k);
      var i := At(width, y, x1 + k);
      assert cur[i] == img[i] && cur[i + 1] == img[i + 1] && cur[i + 2] == img[i + 2];
      assert PixelAt(cur, width, rows, y, x1 + k) == PixelAt(img, width, rows, y, x1 + k);
    }
  }

  lemma BlockUnchanged(cur: seq<byte>, img: seq<byte>, width: nat, rows: nat, x1: nat, x2: int, y1: nat, y2: int,
                       from: nat)
    requires |cur| == |img| && Image(img, width, rows) && x2 <= width && y2 <= rows
    requires x1 < x2 && y1 < y2 ==> from <= At(width, y1, x1)
    requires forall i :: from <= i < |img| ==> cur[i] == img[i]
    ensures BlockPixels(cur, width, rows, x1, x2, y1, y2) == BlockPixels(img, width, rows, x1, x2, y1, y2)
  {
    forall k: nat | k < Span(y1, y2)
      ensures BlockPixels(cur, width, rows, x1, x2, y1, y2)[k] == BlockPixels(img, width, rows, x1, x2, y1, y2)[k]
    {
      PixelAfter(width, y1, x1, y1 + k, x1);
      RowUnchanged(cur, img, width, rows, y1 + k, x1, x2, from);
    }
  }

  method CollectRow(buf: array<byte>, width: nat, rows: nat, y: nat, x1: nat, x2: int) returns (pixels: seq<Pixel>)
    requires Image(buf[..], width, rows) && y < rows && x2 <= width
    ensures pixels == RowPixels(buf[..], width, rows, y, x1, x2)
  {
    pixels := [];
    var x := x1;
    while x < x2
      invariant x1 <= x && |pixels| == x - x1 && |pixels| <= Span(x1, x2)
      invariant forall k: nat :: k < |pixels| ==> pixels[k] == PixelAt(buf[..], width, rows, y, x1 + k)
    {
      PixelInside(width, rows, y, x);
      var i := At(width, y, x);
      pixels := pixels + [Pixel(buf[i], buf[i + 1], buf[i + 2])];
      x := x + 1;
    }
  }

  /** The two inner loops: the pixels of one block, read from the buffer as it is now. */
  method CollectBlock(buf: array<byte>, width: nat, rows: nat, x1: nat, x2: int, y1: nat,
                      y2: int) returns (block: seq<seq<Pixel>>)
    requires Image(buf[..], width, rows) && x2 <= width && y2 <= rows
    ensures block == BlockPixels(buf[..], width, rows, x1, x2, y1, y2)
  {
    block := [];
    var y := y1;
    while y < y2
      invariant y1 <= y && |block| == y - y1 && |block| <= Span(y1, y2)
      invariant forall k: nat :: k < |block| ==> block[k] == RowPixels(buf[..], width, rows, y1 + k, x1, x2)
    {
      var row := CollectRow(buf, width, rows, y, x1, x2);
      block := block + [row];
      y := y + 1;
    }
  }

  lemma OutIndexInside(sh: Shape, h: nat, w: nat)
    requires h < sh.outRows && w < sh.outWidth
    ensures OutIndex(sh, h, w) < sh.outRows * sh.outWidth
    ensures OutIndex(sh, h, w + 1) == OutIndex(sh, h, w) + 1
    ensures OutIndex(sh, h + 1, 0) == OutIndex(sh, h, sh.outWidth)
  {
    BD.MulMonotone(h + 1, sh.outRows, sh.outWidth);
    assert (h + 1) * sh.outWidth == h * sh.outWidth + sh.outWidth;
  }

  /** Output rows are disjoint stretches. */
  lemma OutIndexOrder(sh: Shape, h: nat, w: nat, h': nat, w': nat)
    requires w < sh.outWidth && w' < sh.outWidth
    requires h < h' || (h == h' && w < w')
    ensures OutIndex(sh, h, w) < OutIndex(sh, h', w')
  {
    if h < h' {
      BD.MulMonotone(h + 1, h', sh.outWidth);
      assert (h + 1) * sh.outWidth == h * sh.outWidth + sh.outWidth;
    }
  }

  predicate Before(h: nat, w: nat, h': nat, w': nat) {
    h < h' || (h == h' && w < w')
  }

  /** The output so far: every byte before (h, w) is the average over the original image, and the bytes from
      there on are the original's. */
  ghost predicate Progress(cur: seq<byte>, img: seq<byte>, sh: Shape, f: seq<seq<Pixel>> -> byte, h: nat, w: nat) {
    && |cur| == |img| && Image(img, sh.width, sh.rows)
    && (forall i :: OutIndex(sh, h, w) <= i < |img| ==> cur[i] == img[i])
    && (forall a: nat, b: nat :: b < sh.outWidth && Before(a, b, h, w) ==>
          OutIndex(sh, a, b) < |cur| && cur[OutIndex(sh, a, b)] == Average(img, sh, f, a, b))
  }

  lemma ProgressStep(cur: seq<byte>, img: seq<byte>, sh: Shape, f: seq<seq<Pixel>> -> byte, h: nat, w: nat)
    requires Progress(cur, img, sh, f, h, w) && h < sh.outRows && w < sh.outWidth
    requires OutIndex(sh, h, w) < |cur|
    ensures Progress(cur[OutIndex(sh, h, w) := Average(img, sh, f, h, w)], img, sh, f, h, w + 1)
  {
    OutIndexInside(sh, h, w);
    var next := cur[OutIndex(sh, h, w) := Average(img, sh, f, h, w)];
    forall a: nat, b: nat | b < sh.outWidth && Before(a, b, h, w + 1)
      ensures OutIndex(sh, a, b) < |next| && next[OutIndex(sh, a, b)] == Average(img, sh, f, a, b)
    {
      if a != h || b != w {
        OutIndexOrder(sh, a, b, h, w);
      }
    }
  }

  lemma ProgressRow(cur: seq<byte>, img: seq<byte>, sh: Shape, f: seq<seq<Pixel>> -> byte, h: nat)
    requires Progress(cur, img, sh, f, h, sh.outWidth)
    ensures Progress(cur, img, sh, f, h + 1, 0)
  {
    assert OutIndex(sh, h + 1, 0) == OutIndex(sh, h, sh.outWidth);
    forall a: nat, b: nat | b < sh.outWidth && Before(a, b, h + 1, 0)
      ensures OutIndex(sh, a, b) < |cur| && cur[OutIndex(sh, a, b)] == Average(img, sh, f, a, b)
    {
      assert Before(a, b, h, sh.outWidth);
    }
  }

  /** What is averaged next has not been overwritten yet. */
  lemma BlockStillThere(cur: seq<byte>, img: seq<byte>, sh: Shape, f: seq<seq<Pixel>> -> byte, h: nat, w: nat)
    requires Sensible(sh) && RoomPerRow(sh) && h < sh.outRows && w < sh.outWidth
    requires Progress(cur, img, sh, f, h, w)
    ensures Average(cur, sh, f, h, w) == Average(img, sh, f, h, w)
  {
    ReadsAheadWithRoom(sh, h, w);
    BlockAtUnchanged(cur, img, sh, w * sh.ncols, h * sh.nrows, OutIndex(sh, h, w));
  }

  lemma BlockAtUnchanged(cur: seq<byte>, img: seq<byte>, sh: Shape, x1: nat, y1: nat, from: nat)
    requires |cur| == |img| && Image(img, sh.width, sh.rows)
    requires x1 < sh.width && y1 < sh.rows ==> from <= At(sh.width, y1, x1)
    requires forall i :: from <= i < |img| ==> cur[i] == img[i]
    ensures BlockAt(cur, sh, x1, y1) == BlockAt(img, sh, x1, y1)
  {
    var x2, y2 := Min(x1 + sh.ncols, sh.width), Min(y1 + sh.nrows, sh.rows);
    BlockUnchanged(cur, img, sh.width, sh.rows, x1, x2, y1, y2, from);
  }

  /** Byte (h, w)'s average over the buffer as it is now. */
  method ReadAverage(buf: array<byte>, sh: Shape, f: seq<seq<Pixel>> -> byte, h: nat, w: nat) returns (value: byte)
    requires Image(buf[..], sh.width, sh.rows)
    ensures value == Average(buf[..], sh, f, h, w)
  {
    var x1, y1 := w * sh.ncols, h * sh.nrows;
    var x2, y2 := Min(x1 + sh.ncols, sh.width), Min(y1 + sh.nrows, sh.rows);
    var block := CollectBlock(buf, sh.width, sh.rows, x1, x2, y1, y2);
    value := f(block);
  }

  /** Byte (h, w): average its block as the buffer is now, then write it. */
  method WriteAverage(buf: array<byte>, sh: Shape, f: seq<seq<Pixel>> -> byte, h: nat, w: nat, out: nat,
                      ghost img: seq<byte>)
    requires Sensible(sh) && RoomPerRow(sh) && h < sh.outRows && w < sh.outWidth
    requires Progress(buf[..], img, sh, f, h, w) && out == OutIndex(sh, h, w) && out < buf.Length
    modifies buf
    ensures Progress(buf[..], img, sh, f, h, w + 1)
  {
    var value := ReadAverage(buf, sh, f, h, w);
    ghost var before := buf[..];
    BlockStillThere(before, img, sh, f, h, w);
    ProgressStep(before, img, sh, f, h, w);
    buf[out] := value;
    assert buf[..] == before[out := value];
  }

  lemma ProgressDone(cur: seq<byte>, img: seq<byte>, sh: Shape, f: seq<seq<Pixel>> -> byte, h: nat, w: nat)
    requires Progress(cur, img, sh, f, sh.outRows, 0) && h < sh.outRows && w < sh.outWidth
    ensures OutIndex(sh, h, w) < |cur| && cur[OutIndex(sh, h, w)] == Average(img, sh, f, h, w)
  {
    assert Before(h, w, sh.outRows, 0);
  }

  /** The down-sampling loop. It overwrites its input and yet every byte of the result is the average over the
      original image, as if the result went to a buffer of its own; what lies behind the result is untouched. */
  method DownsampleInPlace(buf: array<byte>, sh: Shape, f: seq<seq<Pixel>> -> byte)
    requires Sensible(sh) && RoomPerRow(sh)
    requires Image(buf[..], sh.width, sh.rows) && sh.outRows * sh.outWidth <= buf.Length
    modifies buf
    ensures forall h: nat, w: nat :: h < sh.outRows && w < sh.outWidth ==>
      OutIndex(sh, h, w) < buf.Length && buf[OutIndex(sh, h, w)] == Average(old(buf[..]), sh, f, h, w)
    ensures forall i :: sh.outRows * sh.outWidth <= i < buf.Length ==> buf[i] == old(buf[i])
  {
    ghost var img := buf[..];
    var out := 0;
    for h := 0 to sh.outRows
      invariant out == OutIndex(sh, h, 0) && Progress(buf[..], img, sh, f, h, 0)
    {
      for w := 0 to sh.outWidth
        invariant out == OutIndex(sh, h, w) && Progress(buf[..], img, sh, f, h, w)
      {
        OutIndexInside(sh, h, w);
        WriteAverage(buf, sh, f, h, w, out, img);
        out := out + 1;
      }
      ProgressRow(buf[..], img, sh, f, h);
      assert OutIndex(sh, h + 1, 0) == OutIndex(sh, h, sh.outWidth);
    }
    forall h: nat, w: nat | h < sh.outRows && w < sh.outWidth
      ensures OutIndex(sh, h, w) < buf.Length && buf[OutIndex(sh, h, w)] == Average(img, sh, f, h, w)
    {
      ProgressDone(buf[..], img, sh, f, h, w);
    }
    assert OutIndex(sh, sh.outRows, 0) == sh.outRows * sh.outWidth;
  }

  // ----- the partition over processes -----

  /** The whole job: an image of `height` x `width` pixels to `outHeight` x `outWidth` bytes. */
  datatype Job = Job(width: nat, height: nat, outWidth: nat, outHeight: nat)

  predicate Proper(j: Job) {
    j.width >= 1 && j.height >= 1 && j.outWidth >= 1 && j.outHeight >= 1
  }

  function NRows(j: Job): nat
    requires Proper(j)
  {
    CeilDiv(j.height, j.outHeight)
  }

  function NCols(j: Job): nat
    requires Proper(j)
  {
    CeilDiv(j.width, j.outWidth)
  }

  lemma CeilPositive(a: nat, b: nat)
    requires a >= 1 && b >= 1
    ensures CeilDiv(a, b) >= 1
    ensures b * CeilDiv(a, b) >= a
  {
    BD.DivMod(a + b - 1, b);
    var q := (a + b - 1) / b;
    assert q * b >= a;
    assert q >= 1 by {
      if q <= 0 {
        BD.MulMonotone(q, 0, b);
      }
    }
  }

  /** The first source row of process `s`; `part_height` is the signed difference of the next two. */
  function PartY1(j: Job, s: nat, p: nat): nat
    requires Proper(j) && 1 <= p
  {
    BD.BlockBegin(j.outHeight, s, p) * NRows(j)
  }

  function PartY2(j: Job, s: nat, p: nat): nat
    requires Proper(j) && 1 <= p
  {
    Min(BD.BlockEnd(j.outHeight, s, p) * NRows(j), j.height)
  }

  /** No process computes a negative part height. */
  ghost predicate HeightsOk(j: Job, p: nat)
    requires Proper(j) && 1 <= p
  {
    forall s: nat :: s < p ==> PartY1(j, s, p) <= PartY2(j, s, p)
  }

  /** Exactly when the last process starts inside the image. */
  lemma HeightsOkExactly(j: Job, p: nat)
    requires Proper(j) && 1 <= p
    ensures HeightsOk(j, p) <==> BD.BlockBegin(j.outHeight, p - 1, p) * NRows(j) <= j.height
  {
    forall s: nat | s < p
      ensures PartY1(j, s, p) <= PartY1(j, p - 1, p)
      ensures PartY1(j, s, p) <= BD.BlockEnd(j.outHeight, s, p) * NRows(j)
    {
      BD.BlockBeginMonotone(j.outHeight, s, p - 1, p);
      BD.BlockLength(j.outHeight, s, p);
      BD.MulMonotone(BD.BlockBegin(j.outHeight, s, p), BD.BlockBegin(j.outHeight, p - 1, p), NRows(j));
      BD.MulMonotone(BD.BlockBegin(j.outHeight, s, p), BD.BlockEnd(j.outHeight, s, p), NRows(j));
    }
    if HeightsOk(j, p) {
      assert PartY1(j, p - 1, p) <= PartY2(j, p - 1, p);
    }
  }

  /** With no more processes than output rows, and the last output row inside the image, all is well. */
  lemma HeightsOkForFewProcesses(j: Job, p: nat)
    requires Proper(j) && 1 <= p <= j.outHeight && (j.outHeight - 1) * NRows(j) < j.height
    ensures BD.BlockBegin(j.outHeight, p - 1, p) * NRows(j) <= j.height && HeightsOk(j, p)
  {
    BD.BlockLength(j.outHeight, p - 1, p);
    BD.BlocksTile(j.outHeight, p, 0, 0);
    BD.DivMod(j.outHeight, p);
    assert j.outHeight / p >= 1;
    BD.MulMonotone(BD.BlockBegin(j.outHeight, p - 1, p), j.outHeight - 1, NRows(j));
    HeightsOkExactly(j, p);
  }

  /** The shape of process `s`'s down-sampling. */
  function ShapeOf(j: Job, s: nat, p: nat): Shape
    requires Proper(j) && 1 <= p && PartY1(j, s, p) <= PartY2(j, s, p)
  {
    Shape(j.width, PartY2(j, s, p) - PartY1(j, s, p), j.outWidth, BD.BlockSize(j.outHeight, s, p), NRows(j), NCols(j))
  }

  /** The rows that process `s` fetches with `dv_get_part`. */
  function PartOf(img: seq<byte>, j: Job, s: nat, p: nat): (r: seq<byte>)
    requires Proper(j) && 1 <= p && Image(img, j.width, j.height) && PartY1(j, s, p) <= PartY2(j, s, p)
    ensures |r| == 3 * Times(PartY2(j, s, p) - PartY1(j, s, p), j.width)
  {
    var y1, y2 := PartY1(j, s, p), PartY2(j, s, p);
    TimesAdds(y1, y2 - y1, j.width);
    TimesMonotone(y2, j.height, j.width);
    img[At(j.width, y1, 0)..At(j.width, y2, 0)]
  }

  /** The one-process job. */
  function WholeShape(j: Job): Shape
    requires Proper(j)
  {
    Shape(j.width, j.height, j.outWidth, j.outHeight, NRows(j), NCols(j))
  }

  /** `band` is rows [top, top + rows) of the image. */
  ghost predicate Band(band: seq<byte>, img: seq<byte>, width: nat, rows: nat, height: nat, top: nat) {
    && Image(img, width, height) && Image(band, width, rows) && top + rows <= height
    && At(width, top, 0) + |band| <= |img| && band == img[At(width, top, 0)..At(width, top, 0) + |band|]
  }

  /** Reading a band of rows is reading the image further down. */
  lemma BandPixel(band: seq<byte>, img: seq<byte>, width: nat, rows: nat, height: nat, top: nat, y: nat, x: nat)
    requires Band(band, img, width, rows, height, top) && y < rows && x < width
    ensures PixelAt(band, width, rows, y, x) == PixelAt(img, width, height, top + y, x)
  {
    PixelInside(width, rows, y, x);
    PixelInside(width, height, top + y, x);
    TimesAdds(top, y, width);
    var i := At(width, y, x);
    assert At(width, top + y, x) == At(width, top, 0) + i;
  }

  lemma BandRow(band: seq<byte>, img: seq<byte>, width: nat, rows: nat, height: nat, top: nat, y: nat, x1: nat, x2: int)
    requires Band(band, img, width, rows, height, top) && y < rows && x2 <= width
    ensures RowPixels(band, width, rows, y, x1, x2) == RowPixels(img, width, height, top + y, x1, x2)
  {
    forall k: nat | k < Span(x1, x2)
      ensures RowPixels(band, width, rows, y, x1, x2)[k] == RowPixels(img, width, height, top + y, x1, x2)[k]
    {
      BandPixel(band, img, width, rows, height, top, y, x1 + k);
    }
  }

  lemma BandBlock(band: seq<byte>, img: seq<byte>, width: nat, rows: nat, height: nat, top: nat, x1: nat, x2: int,
                  y1: nat, y2: int)
    requires Band(band, img, width, rows, height, top) && x2 <= width && y2 <= rows
    ensures BlockPixels(band, width, rows, x1, x2, y1, y2) ==
            BlockPixels(img, width, height, x1, x2, top + y1, top + y2)
  {
    forall k: nat | k < Span(y1, y2)
      ensures BlockPixels(band, width, rows, x1, x2, y1, y2)[k]
           == BlockPixels(img, width, height, x1, x2, top + y1, top + y2)[k]
    {
      BandRow(band, img, width, rows, height, top, y1 + k, x1, x2);
      assert top + (y1 + k) == top + y1 + k;
    }
  }

  lemma PartIsBand(img: seq<byte>, j: Job, s: nat, p: nat)
    requires Proper(j) && 1 <= p && Image(img, j.width, j.height) && PartY1(j, s, p) <= PartY2(j, s, p)
    ensures Band(PartOf(img, j, s, p), img, j.width, PartY2(j, s, p) - PartY1(j, s, p), j.height, PartY1(j, s, p))
  {
    var y1, y2 := PartY1(j, s, p), PartY2(j, s, p);
    TimesAdds(y1, y2 - y1, j.width);
    TimesMonotone(y2, j.height, j.width);
  }

  /** Output row `h` of process `s` is output row `first + h` of the job, and its source rows are the same. */
  lemma PartRows(j: Job, s: nat, p: nat, h: nat)
    requires Proper(j) && s < p && PartY1(j, s, p) <= PartY2(j, s, p)
    requires h < BD.BlockSize(j.outHeight, s, p)
    ensures var n, top := NRows(j), PartY1(j, s, p);
            && (BD.BlockBegin(j.outHeight, s, p) + h) * n == top + h * n
            && Min(top + h * n + n, j.height) == top + Min(h * n + n, PartY2(j, s, p) - top)
  {
    BD.BlockLength(j.outHeight, s, p);
    RowsInside(BD.BlockBegin(j.outHeight, s, p), BD.BlockSize(j.outHeight, s, p), h, NRows(j));
  }

  lemma RowsInside(first: nat, count: nat, h: nat, n: nat)
    requires h < count
    ensures (first + h) * n == first * n + h * n
    ensures first * n + h * n + n <= (first + count) * n
  {
    assert (first + h) * n == first * n + h * n;
    assert (first + h + 1) * n == (first + h) * n + n;
    BD.MulMonotone(first + h + 1, first + count, n);
  }

  /** A block of a band is the block of the image that covers the same rows. */
  lemma BandAverage(band: seq<byte>, img: seq<byte>, sh: Shape, whole: Shape, f: seq<seq<Pixel>> -> byte, top: nat,
                    h: nat, h': nat, w: nat)
    requires Band(band, img, sh.width, sh.rows, whole.rows, top)
    requires whole.width == sh.width && whole.nrows == sh.nrows && whole.ncols == sh.ncols
    requires h' * sh.nrows == top + h * sh.nrows
    requires Min(h' * sh.nrows + sh.nrows, whole.rows) == top + Min(h * sh.nrows + sh.nrows, sh.rows)
    ensures Average(band, sh, f, h, w) == Average(img, whole, f, h', w)
  {
    BandBlockAt(band, img, sh, whole, top, w * sh.ncols, h * sh.nrows);
  }

  lemma BandBlockAt(band: seq<byte>, img: seq<byte>, sh: Shape, whole: Shape, top: nat, x1: nat, y1: nat)
    requires Band(band, img, sh.width, sh.rows, whole.rows, top)
    requires whole.width == sh.width && whole.nrows == sh.nrows && whole.ncols == sh.ncols
    requires Min(top + y1 + sh.nrows, whole.rows) == top + Min(y1 + sh.nrows, sh.rows)
    ensures BlockAt(band, sh, x1, y1) == BlockAt(img, whole, x1, top + y1)
  {
    var x2, y2 := Min(x1 + sh.ncols, sh.width), Min(y1 + sh.nrows, sh.rows);
    BandBlock(band, img, sh.width, sh.rows, whole.rows, top, x1, x2, y1, y2);
  }

  /** The averages a process computes from its rows are those of the whole image, in its rows' places. */
  lemma PartAverage(img: seq<byte>, j: Job, f: seq<seq<Pixel>> -> byte, s: nat, p: nat, h: nat, w: nat)
    requires Proper(j) && s < p && Image(img, j.width, j.height) && PartY1(j, s, p) <= PartY2(j, s, p)
    requires h < BD.BlockSize(j.outHeight, s, p)
    ensures Image(PartOf(img, j, s, p), j.width, PartY2(j, s, p) - PartY1(j, s, p))
    ensures Average(PartOf(img, j, s, p), ShapeOf(j, s, p), f, h, w)
         == Average(img, WholeShape(j), f, BD.BlockBegin(j.outHeight, s, p) + h, w)
  {
    PartIsBand(img, j, s, p);
    PartRows(j, s, p, h);
    var rows := PartY2(j, s, p) - PartY1(j, s, p);
    BandAverage(PartOf(img, j, s, p), img, ShapeOf(j, s, p), WholeShape(j), f, PartY1(j, s, p),
                h, BD.BlockBegin(j.outHeight, s, p) + h, w);
  }

  /** `count` rows of blocks, each with a source row, need at least `count` source rows. */
  lemma RowsSuffice(first: nat, count: nat, n: nat, height: nat)
    requires n >= 1 && count >= 1 && (first + count - 1) * n < height
    ensures first * n + count <= Min((first + count) * n, height)
  {
    assert (first + count - 1) * n == first * n + (count - 1) * n;
    assert (first + count) * n == first * n + count * n;
    BD.MulMonotone(1, n, count - 1);
    BD.MulMonotone(1, n, count);
  }

  lemma AreaFits(outRows: nat, outWidth: nat, rows: nat, width: nat)
    requires outRows <= rows && outWidth <= width
    ensures outRows * outWidth <= rows * width
  {
    BD.MulMonotone(outRows, rows, outWidth);
    BD.MulMonotone(outWidth, width, rows);
  }

  lemma EnoughRows(j: Job, s: nat, p: nat)
    requires Proper(j) && s < p && (j.outHeight - 1) * NRows(j) < j.height
    requires PartY1(j, s, p) <= PartY2(j, s, p)
    ensures BD.BlockSize(j.outHeight, s, p) <= PartY2(j, s, p) - PartY1(j, s, p)
  {
    var n, first, count := NRows(j), BD.BlockBegin(j.outHeight, s, p), BD.BlockSize(j.outHeight, s, p);
    CeilPositive(j.height, j.outHeight);
    if count >= 1 {
      BD.BlockLength(j.outHeight, s, p);
      BD.BlockBeginMonotone(j.outHeight, s + 1, p, p);
      BD.BlocksTile(j.outHeight, p, 0, 0);
      BD.MulMonotone(first + count - 1, j.outHeight - 1, n);
      RowsSuffice(first, count, n, j.height);
    }
  }

  /** The blocks of a process cover its rows. */
  lemma PartCovered(j: Job, s: nat, p: nat)
    requires Proper(j) && s < p && PartY1(j, s, p) <= PartY2(j, s, p)
    ensures PartY2(j, s, p) - PartY1(j, s, p) <= BD.BlockSize(j.outHeight, s, p) * NRows(j)
  {
    BD.BlockLength(j.outHeight, s, p);
    var first, count := BD.BlockBegin(j.outHeight, s, p), BD.BlockSize(j.outHeight, s, p);
    assert (first + count) * NRows(j) == first * NRows(j) + count * NRows(j);
  }

  /** The output of process `s` is no longer than its part of the image. */
  predicate OutputFits(j: Job, s: nat, p: nat)
    requires Proper(j) && 1 <= p
  {
    BD.BlockSize(j.outHeight, s, p) * j.outWidth <= 3 * ((PartY2(j, s, p) - PartY1(j, s, p)) * j.width)
  }

  /** An output that fits is all that the loop needs. */
  lemma FittingPart(j: Job, s: nat, p: nat)
    requires Proper(j) && s < p && PartY1(j, s, p) <= PartY2(j, s, p) && OutputFits(j, s, p)
    ensures var sh := ShapeOf(j, s, p);
            Sensible(sh) && RoomPerRow(sh) && sh.outRows * sh.outWidth <= 3 * Times(sh.rows, sh.width)
  {
    var sh := ShapeOf(j, s, p);
    CeilPositive(j.height, j.outHeight);
    CeilPositive(j.width, j.outWidth);
    PartCovered(j, s, p);
    FittingOutputHasRoom(sh);
    TimesIsProduct(sh.rows, sh.width);
  }

  /** An image no wider when compressed, whose last output row has a source row, fits on every process. */
  lemma NarrowerOutputFits(j: Job, s: nat, p: nat)
    requires Proper(j) && s < p && j.outWidth <= j.width && (j.outHeight - 1) * NRows(j) < j.height
    requires PartY1(j, s, p) <= PartY2(j, s, p)
    ensures OutputFits(j, s, p)
  {
    var sh := ShapeOf(j, s, p);
    EnoughRows(j, s, p);
    AreaFits(sh.outRows, sh.outWidth, sh.rows, sh.width);
  }

  /** What process `s` of `p` hands to `register_single_part_result`. */
  ghost predicate Compressed(data: seq<byte>, offset: nat, img: seq<byte>, j: Job, f: seq<seq<Pixel>> -> byte, s: nat,
                             p: nat)
    requires Proper(j) && 1 <= p && Image(img, j.width, j.height)
  {
    && |data| == BD.BlockSize(j.outHeight, s, p) * j.outWidth
    && offset == BD.BlockBegin(j.outHeight, s, p) * j.outWidth
    && forall h: nat, w: nat :: h < BD.BlockSize(j.outHeight, s, p) && w < j.outWidth ==>
         && OutIndex(WholeShape(j), h, w) < |data|
         && data[OutIndex(WholeShape(j), h, w)]
            == Average(img, WholeShape(j), f, BD.BlockBegin(j.outHeight, s, p) + h, w)
  }

  /** `bsp_compress` on one process. */
  method BspCompress(img: seq<byte>, j: Job, f: seq<seq<Pixel>> -> byte, s: nat, p: nat)
    returns (data: seq<byte>, offset: nat)
    requires Proper(j) && s < p && BD.Partitions(j.outHeight, p) && Image(img, j.width, j.height)
    requires BD.BlockBegin(j.outHeight, p - 1, p) * NRows(j) <= j.height
    requires OutputFits(j, s, p)
    ensures Compressed(data, offset, img, j, f, s, p)
  {
    var y1, y2 := BD.DivideRange(j.outHeight, s, p);
    HeightsOkExactly(j, p);
    FittingPart(j, s, p);
    PartIsBand(img, j, s, p);
    var part := PartOf(img, j, s, p);
    var buf := new byte[|part|](i requires 0 <= i < |part| => part[i]);
    assert buf[..] == part;
    var sh := ShapeOf(j, s, p);
    DownsampleInPlace(buf, sh, f);
    data := buf[..(y2 - y1) * j.outWidth];
    offset := y1 * j.outWidth;
    forall h: nat, w: nat | h < BD.BlockSize(j.outHeight, s, p) && w < j.outWidth
      ensures OutIndex(WholeShape(j), h, w) < |data|
      ensures data[OutIndex(WholeShape(j), h, w)]
           == Average(img, WholeShape(j), f, BD.BlockBegin(j.outHeight, s, p) + h, w)
    {
      OutIndexInside(sh, h, w);
      assert OutIndex(sh, h, w) == OutIndex(WholeShape(j), h, w);
      PartAverage(img, j, f, s, p, h, w);
    }
  }

  // ----- the result does not depend on the number of processes -----

  /** The compressed image, byte by byte, with no process in sight. */
  function CompressedImage(img: seq<byte>, j: Job, f: seq<seq<Pixel>> -> byte): (r: seq<byte>)
    requires Proper(j) && Image(img, j.width, j.height)
  {
    seq(j.outHeight * j.outWidth, i requires 0 <= i < j.outHeight * j.outWidth =>
      Average(img, WholeShape(j), f, i / j.outWidth, i % j.outWidth))
  }

  lemma RowAndColumn(first: nat, count: nat, width: nat, i: nat)
    requires width >= 1 && i < count * width
    ensures i / width < count && i == (i / width) * width + i % width
    ensures (first * width + i) / width == first + i / width
    ensures (first * width + i) % width == i % width
  {
    var h, w := i / width, i % width;
    BD.DivMod(i, width);
    if h >= count {
      BD.MulMonotone(count, h, width);
    }
    BD.DivMod(first * width + i, width);
    var h', w' := (first * width + i) / width, (first * width + i) % width;
    assert (first + h) * width == first * width + h * width;
    SameQuotient(h', w', first + h, w, width);
  }

  lemma SameQuotient(h: int, w: nat, h': int, w': nat, width: nat)
    requires w < width && w' < width && h * width + w == h' * width + w'
    ensures h == h' && w == w'
  {
    if h < h' {
      BD.MulMonotone(h + 1, h', width);
    } else if h' < h {
      BD.MulMonotone(h' + 1, h, width);
    }
  }

  lemma BlockInside(j: Job, s: nat, p: nat)
    requires s < p
    ensures BD.BlockBegin(j.outHeight, s, p) * j.outWidth + BD.BlockSize(j.outHeight, s, p) * j.outWidth
         == BD.BlockBegin(j.outHeight, s + 1, p) * j.outWidth <= j.outHeight * j.outWidth
  {
    var first, count := BD.BlockBegin(j.outHeight, s, p), BD.BlockSize(j.outHeight, s, p);
    BD.BlockLength(j.outHeight, s, p);
    BD.BlockBeginMonotone(j.outHeight, s + 1, p, p);
    BD.BlocksTile(j.outHeight, p, 0, 0);
    assert (first + count) * j.outWidth == first * j.outWidth + count * j.outWidth;
    BD.MulMonotone(first + count, j.outHeight, j.outWidth);
  }

  /** Process `s` holds its stretch of the compressed image. */
  lemma PieceOfTheResult(img: seq<byte>, j: Job, f: seq<seq<Pixel>> -> byte, s: nat, p: nat, data: seq<byte>,
                         offset: nat)
    requires Proper(j) && s < p && Image(img, j.width, j.height)
    requires Compressed(data, offset, img, j, f, s, p)
    ensures offset + |data| == BD.BlockBegin(j.outHeight, s + 1, p) * j.outWidth <= j.outHeight * j.outWidth
    ensures data == CompressedImage(img, j, f)[offset..offset + |data|]
  {
    BlockInside(j, s, p);
    forall i: nat | i < |data|
      ensures data[i] == CompressedImage(img, j, f)[offset + i]
    {
      RowAndColumn(BD.BlockBegin(j.outHeight, s, p), BD.BlockSize(j.outHeight, s, p), j.outWidth, i);
      assert i == OutIndex(WholeShape(j), i / j.outWidth, i % j.outWidth);
    }
  }

  /** The pieces of the first `n` processes, one after the other. */
  function Gather(datas: seq<seq<byte>>, n: nat): seq<byte>
    requires n <= |datas|
  {
    if n == 0 then [] else Gather(datas, n - 1) + datas[n - 1]
  }

  lemma PrefixAndSlice(r: seq<byte>, lo: nat, hi: nat)
    requires lo <= hi <= |r|
    ensures r[..lo] + r[lo..hi] == r[..hi]
  {
  }

  lemma {:induction false} GatheredSoFar(img: seq<byte>, j: Job, f: seq<seq<Pixel>> -> byte, datas: seq<seq<byte>>,
                                         offsets: seq<nat>, n: nat)
    requires Proper(j) && n <= |datas| == |offsets| && |datas| >= 1 && Image(img, j.width, j.height)
    requires forall s: nat :: s < |datas| ==> Compressed(datas[s], offsets[s], img, j, f, s, |datas|)
    ensures BD.BlockBegin(j.outHeight, n, |datas|) * j.outWidth <= j.outHeight * j.outWidth
    ensures Gather(datas, n) == CompressedImage(img, j, f)[..BD.BlockBegin(j.outHeight, n, |datas|) * j.outWidth]
  {
    if n == 0 {
      BD.BlocksTile(j.outHeight, |datas|, 0, 0);
    } else {
      GatheredSoFar(img, j, f, datas, offsets, n - 1);
      PieceOfTheResult(img, j, f, n - 1, |datas|, datas[n - 1], offsets[n - 1]);
      var lo, hi := offsets[n - 1], offsets[n - 1] + |datas[n - 1]|;
      PrefixAndSlice(CompressedImage(img, j, f), lo, hi);
    }
  }

  /** Whatever the number of processes, their pieces together are the same compressed image; with one process it
      is that process's piece alone. */
  lemma SameResultForEveryP(img: seq<byte>, j: Job, f: seq<seq<Pixel>> -> byte, datas: seq<seq<byte>>,
                            offsets: seq<nat>)
    requires Proper(j) && |datas| == |offsets| && |datas| >= 1 && Image(img, j.width, j.height)
    requires forall s: nat :: s < |datas| ==> Compressed(datas[s], offsets[s], img, j, f, s, |datas|)
    ensures Gather(datas, |datas|) == CompressedImage(img, j, f)
    ensures |datas| == 1 ==> datas[0] == CompressedImage(img, j, f)
  {
    GatheredSoFar(img, j, f, datas, offsets, |datas|);
    BD.BlocksTile(j.outHeight, |datas|, 0, 0);
    var r := CompressedImage(img, j, f);
    assert r[..|r|] == r;
    if |datas| == 1 {
      assert Gather(datas, 1) == [] + datas[0];
    }
  }

  /** The parts that the processes register tile the compressed image. */
  lemma RegisteredPartsTile(img: seq<byte>, j: Job, f: seq<seq<Pixel>> -> byte, pids: seq<int>,
                            keys: seq<int>, datas: seq<seq<byte>>, offsets: seq<nat>, dv: seq<Part>)
    requires Proper(j) && Image(img, j.width, j.height)
    requires |pids| == |keys| == |datas| == |offsets| == |dv| >= 1
    requires forall s: nat :: s < |datas| ==> Compressed(datas[s], offsets[s], img, j, f, s, |datas|)
    requires forall s: nat :: s < |dv| ==> dv[s] == Part(pids[s], keys[s], |datas[s]|, offsets[s])
    ensures Tiles(dv, j.outHeight * j.outWidth)
  {
    forall s: nat | s < |dv|
      ensures dv[s].offset + dv[s].size == BD.BlockBegin(j.outHeight, s + 1, |dv|) * j.outWidth
      ensures dv[s].offset == BD.BlockBegin(j.outHeight, s, |dv|) * j.outWidth
    {
      PieceOfTheResult(img, j, f, s, |datas|, datas[s], offsets[s]);
    }
    BD.BlocksTile(j.outHeight, |dv|, 0, 0);
    ConsecutiveTile(dv, j.outHeight * j.outWidth);
  }

  // ----- which pixels a byte averages -----

  predicate InRectangle(x1: nat, x2: int, y1: nat, y2: int, y: nat, x: nat) {
    y1 <= y < y2 && x1 <= x < x2
  }

  /** Pixel (y, x) of the image is averaged into byte (h, w). */
  predicate InBlock(sh: Shape, h: nat, w: nat, y: nat, x: nat) {
    var x1, y1 := w * sh.ncols, h * sh.nrows;
    InRectangle(x1, Min(x1 + sh.ncols, sh.width), y1, Min(y1 + sh.nrows, sh.rows), y, x)
  }

  /** `block` are exactly the pixels of [x1, x2) x [y1, y2), row by row. */
  ghost predicate ShowsRectangle(block: seq<seq<Pixel>>, img: seq<byte>, width: nat, rows: nat,
                                 x1: nat, x2: int, y1: nat, y2: int)
    requires Image(img, width, rows) && x2 <= width && y2 <= rows
  {
    && |block| == Span(y1, y2) && (forall k :: 0 <= k < |block| ==> |block[k]| == Span(x1, x2))
    && forall y: nat, x: nat :: InRectangle(x1, x2, y1, y2, y, x) ==>
         block[y - y1][x - x1] == PixelAt(img, width, rows, y, x)
  }

  /** `block` are exactly the pixels that are averaged into byte (h, w), row by row. */
  ghost predicate Shows(block: seq<seq<Pixel>>, img: seq<byte>, sh: Shape, h: nat, w: nat)
    requires Image(img, sh.width, sh.rows)
  {
    var x1, y1 := w * sh.ncols, h * sh.nrows;
    ShowsRectangle(block, img, sh.width, sh.rows, x1, Min(x1 + sh.ncols, sh.width), y1, Min(y1 + sh.nrows, sh.rows))
  }

  /** Byte (h, w) of the compressed image is the average of exactly the pixels of its block. */
  lemma ByteAverages(img: seq<byte>, j: Job, f: seq<seq<Pixel>> -> byte, h: nat, w: nat)
    returns (block: seq<seq<Pixel>>)
    requires Proper(j) && Image(img, j.width, j.height) && h < j.outHeight && w < j.outWidth
    ensures OutIndex(WholeShape(j), h, w) < |CompressedImage(img, j, f)|
    ensures CompressedImage(img, j, f)[OutIndex(WholeShape(j), h, w)] == f(block)
    ensures Shows(block, img, WholeShape(j), h, w)
  {
    var sh := WholeShape(j);
    block := BlockAt(img, sh, w * sh.ncols, h * sh.nrows);
    BlockShows(img, sh.width, sh.rows, w * sh.ncols, Min(w * sh.ncols + sh.ncols, sh.width),
               h * sh.nrows, Min(h * sh.nrows + sh.nrows, sh.rows));
    OutIndexInside(sh, h, w);
    SameQuotientOf(h, w, j.outWidth);
    assert f(block) == Average(img, sh, f, h, w);
  }

  lemma RowOfBlock(img: seq<byte>, width: nat, rows: nat, x1: nat, x2: int, y1: nat, y2: int, k: nat)
    requires Image(img, width, rows) && x2 <= width && y2 <= rows && k < Span(y1, y2)
    ensures |BlockPixels(img, width, rows, x1, x2, y1, y2)| == Span(y1, y2)
    ensures BlockPixels(img, width, rows, x1, x2, y1, y2)[k] == RowPixels(img, width, rows, y1 + k, x1, x2)
    ensures |RowPixels(img, width, rows, y1 + k, x1, x2)| == Span(x1, x2)
  {
  }

  lemma PixelOfRow(img: seq<byte>, width: nat, rows: nat, x1: nat, x2: int, y: nat, x: nat)
    requires Image(img, width, rows) && x1 <= x < x2 <= width && y < rows
    ensures |RowPixels(img, width, rows, y, x1, x2)| == Span(x1, x2)
    ensures RowPixels(img, width, rows, y, x1, x2)[x - x1] == PixelAt(img, width, rows, y, x)
  {
    assert x1 + (x - x1) == x;
  }

  lemma BlockShows(img: seq<byte>, width: nat, rows: nat, x1: nat, x2: int, y1: nat, y2: int)
    requires Image(img, width, rows) && x2 <= width && y2 <= rows
    ensures ShowsRectangle(BlockPixels(img, width, rows, x1, x2, y1, y2), img, width, rows, x1, x2, y1, y2)
  {
    var block := BlockPixels(img, width, rows, x1, x2, y1, y2);
    forall k | 0 <= k < |block|
      ensures |block[k]| == Span(x1, x2)
    {
      RowOfBlock(img, width, rows, x1, x2, y1, y2, k);
    }
    forall y: nat, x: nat | InRectangle(x1, x2, y1, y2, y, x)
      ensures y - y1 < |block| && x - x1 < |block[y - y1]|
      ensures block[y - y1][x - x1] == PixelAt(img, width, rows, y, x)
    {
      RowOfBlock(img, width, rows, x1, x2, y1, y2, y - y1);
      PixelOfRow(img, width, rows, x1, x2, y, x);
    }
  }

  lemma SameQuotientOf(h: nat, w: nat, width: nat)
    requires w < width
    ensures (h * width + w) / width == h && (h * width + w) % width == w
  {
    BD.DivMod(h * width + w, width);
    SameQuotient((h * width + w) / width, (h * width + w) % width, h, w, width);
  }

  /** A block of least size such that `count` of them cover `total`. */
  lemma LeastCeiling(total: nat, count: nat, k: nat)
    requires count >= 1
    ensures CeilDiv(total, count) <= k <==> total <= count * k
  {
    BD.DivMod(total + count - 1, count);
    var q := CeilDiv(total, count);
    if q <= k {
      BD.MulMonotone(q, k, count);
    } else {
      BD.MulMonotone(k + 1, q, count);
    }
  }

  /** The blocks are as small as they can be for the compressed size. */
  lemma LeastBlocks(j: Job, k: nat)
    requires Proper(j)
    ensures WholeShape(j).nrows <= k <==> j.height <= j.outHeight * k
    ensures WholeShape(j).ncols <= k <==> j.width <= j.outWidth * k
    ensures var sh := WholeShape(j);
            sh.width == j.width && sh.rows == j.height && sh.outWidth == j.outWidth && sh.outRows == j.outHeight
  {
    LeastCeiling(j.height, j.outHeight, k);
    LeastCeiling(j.width, j.outWidth, k);
  }

  /** The stretch of length `n`, out of those that start at its multiples, that holds `y`. */
  lemma StretchOf(y: nat, n: nat, count: nat, total: nat) returns (h: nat)
    requires n >= 1 && y < total <= count * n
    ensures h < count && h * n <= y < Min(h * n + n, total)
  {
    h := y / n;
    BD.DivMod(y, n);
    if h >= count {
      BD.MulMonotone(count, h, n);
    }
  }

  /** Every pixel of the image is averaged into exactly one byte of the compressed image. */
  lemma EveryPixelOnce(j: Job, y: nat, x: nat) returns (h: nat, w: nat)
    requires Proper(j) && y < j.height && x < j.width
    ensures h < j.outHeight && w < j.outWidth && InBlock(WholeShape(j), h, w, y, x)
    ensures forall h': nat, w': nat :: InBlock(WholeShape(j), h', w', y, x) ==> h' == h && w' == w
  {
    var sh := WholeShape(j);
    CeilPositive(j.height, j.outHeight);
    CeilPositive(j.width, j.outWidth);
    h := StretchOf(y, sh.nrows, j.outHeight, j.height);
    w := StretchOf(x, sh.ncols, j.outWidth, j.width);
    forall h': nat, w': nat | InBlock(sh, h', w', y, x)
      ensures h' == h && w' == w
    {
      SameQuotient(h, y - h * sh.nrows, h', y - h' * sh.nrows, sh.nrows);
      SameQuotient(w, x - w * sh.ncols, w', x - w' * sh.ncols, sh.ncols);
    }
  }
}
