/** The bit-packed monochrome framebuffer shared by the panel drivers.

    One bit per pixel, most significant bit first within a byte, rows stored
    one after another, each row `stride` bytes long: pixel (x, y) is bit
    `x % 8` (counted from the top bit) of byte `y * stride + x / 8`.  A row
    holds `8 * stride` pixel columns; columns at or beyond the panel's width
    are padding. */
module Framebuffer {

  /** `0x80 >> i`: the mask that selects pixel column `i` of a byte. */
  function Mask(i: nat): (m: bv8)
    requires i < 8
    ensures m == 0x80 >> i
  {
    match i
    case 0 => 0x80 case 1 => 0x40 case 2 => 0x20 case 3 => 0x10
    case 4 => 0x08 case 5 => 0x04 case 6 => 0x02 case _ => 0x01
  }

  predicate BitAt(b: bv8, i: nat)
    requires i < 8
  {
    b & Mask(i) != 0
  }

  /** `b` with pixel column `i` set (`b | mask`) or cleared (`b &^ mask`). */
  function WithBit(b: bv8, i: nat, on: bool): (r: bv8)
    requires i < 8
    ensures BitAt(r, i) == on
    ensures forall j :: 0 <= j < 8 && j != i ==> BitAt(r, j) == BitAt(b, j)
  {
    var r := if on then b | Mask(i) else b & !Mask(i);
    forall j | 0 <= j < 8 && j != i
      ensures BitAt(r, j) == BitAt(b, j)
    {
      MasksDisjoint(i, j);
    }
    r
  }

  lemma MasksDisjoint(i: nat, j: nat)
    requires i < 8 && j < 8 && i != j
    ensures Mask(i) & Mask(j) == 0
  {
  }

  /** A byte is determined by its eight pixel bits. */
  lemma BitsDetermineByte(a: bv8, b: bv8)
    requires forall i :: 0 <= i < 8 ==> BitAt(a, i) == BitAt(b, i)
    ensures a == b
  {
    assert BitAt(a, 0) == BitAt(b, 0) && BitAt(a, 1) == BitAt(b, 1);
    assert BitAt(a, 2) == BitAt(b, 2) && BitAt(a, 3) == BitAt(b, 3);
    assert BitAt(a, 4) == BitAt(b, 4) && BitAt(a, 5) == BitAt(b, 5);
    assert BitAt(a, 6) == BitAt(b, 6) && BitAt(a, 7) == BitAt(b, 7);
  }

  predicate InCanvas(stride: nat, rows: nat, x: int, y: int) {
    0 <= x < 8 * stride && 0 <= y < rows
  }

  function ByteIndex(stride: nat, x: nat, y: nat): nat {
    y * stride + x / 8
  }

  /** `n * m` as repeated addition.  Buffer sizes in contracts are written
      with it so that the solver reasons about them linearly; TimesIsProduct
      relates it to `*`. */
  function Times(n: nat, m: nat): nat {
    if n == 0 then 0 else Times(n - 1, m) + m
  }

  lemma {:induction false} TimesIsProduct(n: nat, m: nat)
    ensures Times(n, m) == n * m
  {
    if n > 0 {
      TimesIsProduct(n - 1, m);
    }
  }

  lemma {:induction false} TimesMonotone(a: nat, b: nat, m: nat)
    requires a <= b
    ensures Times(a, m) <= Times(b, m)
    decreases b
  {
    if a < b {
      TimesMonotone(a, b - 1, m);
    }
  }

  lemma MulMonotone(a: nat, b: nat, c: nat)
    requires a <= b
    ensures a * c <= b * c
  {
  }

  /** Every pixel of the canvas lies inside a buffer of `rows` rows of `stride` bytes. */
  lemma ByteIndexInBounds(stride: nat, rows: nat, x: nat, y: nat)
    requires InCanvas(stride, rows, x, y)
    ensures ByteIndex(stride, x, y) < Times(rows, stride)
  {
    TimesIsProduct(rows, stride);
    MulMonotone(y + 1, rows, stride);
  }

  /** Distinct pixels own distinct bits. */
  lemma {:induction false} PixelBitsDistinct(stride: nat, rows: nat, x: nat, y: nat, px: nat, py: nat)
    requires InCanvas(stride, rows, x, y) && InCanvas(stride, rows, px, py)
    requires ByteIndex(stride, x, y) == ByteIndex(stride, px, py) && x % 8 == px % 8
    ensures x == px && y == py
  {
    if y < py {
      MulMonotone(y + 1, py, stride);
    } else if py < y {
      MulMonotone(py + 1, y, stride);
    }
  }

  /** The value of pixel (x, y). */
  predicate Pixel(buf: seq<bv8>, stride: nat, rows: nat, x: int, y: int)
    requires |buf| == Times(rows, stride) && InCanvas(stride, rows, x, y)
  {
    ByteIndexInBounds(stride, rows, x, y);
    BitAt(buf[ByteIndex(stride, x, y)], x % 8)
  }

  /** The buffer with pixel (x, y) set to `on` and every other bit kept. */
  function WritePixel(buf: seq<bv8>, stride: nat, rows: nat, x: int, y: int, on: bool): (r: seq<bv8>)
    requires |buf| == Times(rows, stride) && InCanvas(stride, rows, x, y)
    ensures |r| == |buf|
  {
    var k := ByteIndex(stride, x, y);
    // By ByteIndexInBounds the test always holds; writing it out keeps
    // that proof out of every unfolding of this function.
    if k < |buf| then buf[k := WithBit(buf[k], x % 8, on)] else buf
  }

  /** Writing a pixel changes that pixel and no other. */
  lemma WritePixelEffect(buf: seq<bv8>, stride: nat, rows: nat, x: int, y: int, on: bool, px: int, py: int)
    requires |buf| == Times(rows, stride) && InCanvas(stride, rows, x, y) && InCanvas(stride, rows, px, py)
    ensures Pixel(WritePixel(buf, stride, rows, x, y, on), stride, rows, px, py)
         == if px == x && py == y then on else Pixel(buf, stride, rows, px, py)
  {
    ByteIndexInBounds(stride, rows, x, y);
    ByteIndexInBounds(stride, rows, px, py);
    var k, pk := ByteIndex(stride, x, y), ByteIndex(stride, px, py);
    var r := WritePixel(buf, stride, rows, x, y, on);
    assert r == buf[k := WithBit(buf[k], x % 8, on)];
    assert Pixel(r, stride, rows, px, py) == BitAt(r[pk], px % 8);
    assert Pixel(buf, stride, rows, px, py) == BitAt(buf[pk], px % 8);
    if k == pk && x % 8 == px % 8 {
      PixelBitsDistinct(stride, rows, x, y, px, py);
    } else if k == pk {
      assert r[pk] == WithBit(buf[k], x % 8, on);
    } else {
      assert r[pk] == buf[pk];
    }
  }

  /** A buffer is determined by its pixels, padding columns included. */
  lemma SamePixelsSameBuffer(a: seq<bv8>, b: seq<bv8>, stride: nat, rows: nat)
    requires |a| == |b| == Times(rows, stride)
    requires forall x, y :: InCanvas(stride, rows, x, y) ==> Pixel(a, stride, rows, x, y) == Pixel(b, stride, rows, x, y)
    ensures a == b
  {
    forall k | 0 <= k < |a|
      ensures a[k] == b[k]
    {
      var y, q := RowAndColumn(k, stride, rows);
      SamePixelsSameByte(a, b, stride, rows, y, q);
    }
  }

  /** Byte `y * stride + q` of two buffers with the same pixels. */
  lemma SamePixelsSameByte(a: seq<bv8>, b: seq<bv8>, stride: nat, rows: nat, y: nat, q: nat)
    requires |a| == |b| == Times(rows, stride)
    requires forall x, y :: InCanvas(stride, rows, x, y) ==> Pixel(a, stride, rows, x, y) == Pixel(b, stride, rows, x, y)
    requires y < rows && q < stride
    ensures y * stride + q < |a| && a[y * stride + q] == b[y * stride + q]
  {
    var k := y * stride + q;
    assert (q * 8) / 8 == q;
    ByteIndexInBounds(stride, rows, q * 8, y);
    forall i | 0 <= i < 8
      ensures BitAt(a[k], i) == BitAt(b[k], i)
    {
      var x := q * 8 + i;
      assert x / 8 == q && x % 8 == i;
      assert InCanvas(stride, rows, x, y);
      ByteIndexInBounds(stride, rows, x, y);
      assert Pixel(a, stride, rows, x, y) == Pixel(b, stride, rows, x, y);
    }
    BitsDetermineByte(a[k], b[k]);
  }

  /** The row and the byte within the row of byte `k`, found without division. */
  lemma {:induction false} RowAndColumn(k: nat, stride: nat, rows: nat) returns (y: nat, q: nat)
    requires k < Times(rows, stride)
    ensures y < rows && q < stride && y * stride + q == k
  {
    if k < Times(rows - 1, stride) {
      y, q := RowAndColumn(k, stride, rows - 1);
    } else {
      TimesIsProduct(rows - 1, stride);
      y, q := rows - 1, k - Times(rows - 1, stride);
    }
  }

  /** Columns [x0, x1) of a rectangle are inside the canvas (or the range is
      empty). */
  predicate ColumnsFit(stride: nat, x0: int, x1: int) {
    x1 <= x0 || (0 <= x0 && x1 <= 8 * stride)
  }

  predicate RowsFit(rows: nat, y0: int, y1: int) {
    y1 <= y0 || (0 <= y0 && y1 <= rows)
  }

  /** Pixels x0, x0+1, ..., x1-1 of row y written to `on`, left to right. */
  function FillRow(buf: seq<bv8>, stride: nat, rows: nat, x0: int, x1: int, y: int, on: bool): (r: seq<bv8>)
    requires |buf| == Times(rows, stride) && ColumnsFit(stride, x0, x1) && 0 <= y < rows
    ensures |r| == |buf|
    decreases x1 - x0
  {
    if x1 <= x0 then buf
    else WritePixel(FillRow(buf, stride, rows, x0, x1 - 1, y, on), stride, rows, x1 - 1, y, on)
  }

  /** Rows y0, ..., y1-1 filled in turn over columns [x0, x1). */
  function FillRows(buf: seq<bv8>, stride: nat, rows: nat, x0: int, x1: int, y0: int, y1: int, on: bool): (r: seq<bv8>)
    requires |buf| == Times(rows, stride) && ColumnsFit(stride, x0, x1) && RowsFit(rows, y0, y1)
    ensures |r| == |buf|
    decreases y1 - y0
  {
    if y1 <= y0 then buf
    else FillRow(FillRows(buf, stride, rows, x0, x1, y0, y1 - 1, on), stride, rows, x0, x1, y1 - 1, on)
  }

  predicate InRect(x0: int, x1: int, y0: int, y1: int, x: int, y: int) {
    x0 <= x < x1 && y0 <= y < y1
  }

  lemma {:induction false} FillRowPixel(buf: seq<bv8>, stride: nat, rows: nat, x0: int, x1: int, y: int, on: bool, px: int, py: int)
    requires |buf| == Times(rows, stride) && ColumnsFit(stride, x0, x1) && 0 <= y < rows
    requires InCanvas(stride, rows, px, py)
    ensures Pixel(FillRow(buf, stride, rows, x0, x1, y, on), stride, rows, px, py)
         == if InRect(x0, x1, y, y + 1, px, py) then on else Pixel(buf, stride, rows, px, py)
    decreases x1 - x0
  {
    if x0 < x1 {
      var prev := FillRow(buf, stride, rows, x0, x1 - 1, y, on);
      FillRowPixel(buf, stride, rows, x0, x1 - 1, y, on, px, py);
      WritePixelEffect(prev, stride, rows, x1 - 1, y, on, px, py);
    }
  }

  /** The rectangle fill, pixel by pixel: every pixel of [x0, x1) x [y0, y1)
      takes the value `on`, every other pixel keeps its value. */
  lemma {:induction false} FillRowsPixel(buf: seq<bv8>, stride: nat, rows: nat, x0: int, x1: int, y0: int, y1: int, on: bool, px: int, py: int)
    requires |buf| == Times(rows, stride) && ColumnsFit(stride, x0, x1) && RowsFit(rows, y0, y1)
    requires InCanvas(stride, rows, px, py)
    ensures Pixel(FillRows(buf, stride, rows, x0, x1, y0, y1, on), stride, rows, px, py)
         == if InRect(x0, x1, y0, y1, px, py) then on else Pixel(buf, stride, rows, px, py)
    decreases y1 - y0
  {
    if y0 < y1 {
      var prev := FillRows(buf, stride, rows, x0, x1, y0, y1 - 1, on);
      FillRowsPixel(buf, stride, rows, x0, x1, y0, y1 - 1, on, px, py);
      FillRowPixel(prev, stride, rows, x0, x1, y1 - 1, on, px, py);
    }
  }

  /** Filling the same rectangle twice is the same as filling it once: each
      covered bit is overwritten, never toggled. */
  lemma FillRowsIdempotent(buf: seq<bv8>, stride: nat, rows: nat, x0: int, x1: int, y0: int, y1: int, on: bool)
    requires |buf| == Times(rows, stride) && ColumnsFit(stride, x0, x1) && RowsFit(rows, y0, y1)
    ensures FillRows(FillRows(buf, stride, rows, x0, x1, y0, y1, on), stride, rows, x0, x1, y0, y1, on)
         == FillRows(buf, stride, rows, x0, x1, y0, y1, on)
  {
    var once := FillRows(buf, stride, rows, x0, x1, y0, y1, on);
    var twice := FillRows(once, stride, rows, x0, x1, y0, y1, on);
    forall x, y | InCanvas(stride, rows, x, y)
      ensures Pixel(twice, stride, rows, x, y) == Pixel(once, stride, rows, x, y)
    {
      FillRowsPixel(buf, stride, rows, x0, x1, y0, y1, on, x, y);
      FillRowsPixel(once, stride, rows, x0, x1, y0, y1, on, x, y);
    }
    SamePixelsSameBuffer(twice, once, stride, rows);
  }

  /** A 1x1 rectangle fill writes exactly one pixel. */
  lemma FillUnit(buf: seq<bv8>, stride: nat, rows: nat, x: int, y: int, on: bool)
    requires |buf| == Times(rows, stride) && InCanvas(stride, rows, x, y)
    ensures FillRows(buf, stride, rows, x, x + 1, y, y + 1, on) == WritePixel(buf, stride, rows, x, y, on)
  {
    assert FillRows(buf, stride, rows, x, x + 1, y, y, on) == buf;
    assert FillRow(buf, stride, rows, x, x, y, on) == buf;
  }

  /** Painting the whole canvas `bg` and then a sub-rectangle `fg` leaves
      exactly the sub-rectangle's pixels `fg` and every other pixel `bg`. */
  lemma FillOverFill(buf: seq<bv8>, stride: nat, rows: nat, w: nat, x0: int, x1: int, y0: int, y1: int, bg: bool, fg: bool, px: int, py: int)
    requires |buf| == Times(rows, stride) && w <= 8 * stride
    requires ColumnsFit(stride, x0, x1) && RowsFit(rows, y0, y1)
    requires InCanvas(stride, rows, px, py) && px < w
    ensures Pixel(FillRows(FillRows(buf, stride, rows, 0, w, 0, rows, bg), stride, rows, x0, x1, y0, y1, fg), stride, rows, px, py)
         == if InRect(x0, x1, y0, y1, px, py) then fg else bg
  {
    var painted := FillRows(buf, stride, rows, 0, w, 0, rows, bg);
    FillRowsPixel(buf, stride, rows, 0, w, 0, rows, bg, px, py);
    FillRowsPixel(painted, stride, rows, x0, x1, y0, y1, fg, px, py);
  }
}
