/**
 * The packed monochrome framebuffer of the ST7306: ROWS x COLS cells of
 * three bytes each, a cell covering 12 pixel columns and 2 pixel rows, one
 * bit per pixel (set = black). The buffer is kept flat, in the row-major
 * order of `[[[u8; 3]; COLS]; ROWS]`: cell (row, col) occupies bytes
 * (row * COLS + col) * 3 .. + 3.
 */
module Pixels {
  import opened Instructions

  type u32 = v: int | 0 <= v < 0x1_0000_0000
  type i32 = v: int | -0x8000_0000 <= v < 0x8000_0000

  /** The const-generic dimensions of the buffer, in cells. */
  datatype Geometry = Geometry(rows: nat, cols: nat)
  {
    /** Number of bytes in the buffer. */
    function Size(): nat
    {
      rows * cols * 3
    }

    /** (x, y) lies in a cell of the buffer, so indexing it does not panic. */
    predicate Contains(x: int, y: int)
    {
      0 <= x && 0 <= y && x / 12 < cols && y / 2 < rows
    }
  }

  /**
   * The controller's RAM bit assignment as the driver tabulates it: for a
   * pixel at column x % 12 and row y % 2 of its cell, the byte of the cell
   * and the mask of its bit. Any other pair is the panicking arm.
   */
  function BitTable(xm: int, ym: int): Option<(nat, bv8)>
  {
    match (xm, ym)
    case (0, 0) => Some((0, 0x80))
    case (0, 1) => Some((0, 0x40))
    case (1, 0) => Some((0, 0x20))
    case (1, 1) => Some((0, 0x10))
    case (2, 0) => Some((0, 0x08))
    case (2, 1) => Some((0, 0x04))
    case (3, 0) => Some((0, 0x02))
    case (3, 1) => Some((0, 0x01))
    case (4, 0) => Some((1, 0x80))
    case (4, 1) => Some((1, 0x40))
    case (5, 0) => Some((1, 0x20))
    case (5, 1) => Some((1, 0x10))
    case (6, 0) => Some((1, 0x08))
    case (6, 1) => Some((1, 0x04))
    case (7, 0) => Some((1, 0x02))
    case (7, 1) => Some((1, 0x01))
    case (8, 0) => Some((2, 0x80))
    case (8, 1) => Some((2, 0x40))
    case (9, 0) => Some((2, 0x20))
    case (9, 1) => Some((2, 0x10))
    case (10, 0) => Some((2, 0x08))
    case (10, 1) => Some((2, 0x04))
    case (11, 0) => Some((2, 0x02))
    case (11, 1) => Some((2, 0x01))
    case _ => None
  }

  /** Position of a pixel's bit within its byte, counted from the most significant bit. */
  function BitIndex(x: nat, y: nat): (k: nat)
    ensures k < 8
  {
    2 * (x % 4) + y % 2
  }

  /** The eight single-bit masks, from the most significant bit down. */
  const MASKS: seq<bv8> := [0x80, 0x40, 0x20, 0x10, 0x08, 0x04, 0x02, 0x01]

  /** The single bit of a byte that holds pixel (x, y). */
  function Mask(x: nat, y: nat): bv8
  {
    MASKS[BitIndex(x, y)]
  }

  /** Which of the three bytes of its cell holds pixel (x, y). */
  function ByteOfCell(x: nat): (b: nat)
    ensures b < 3
  {
    (x % 12) / 4
  }

  /** Index into the flat buffer of the first byte of cell (row, col). */
  function CellStart(g: Geometry, row: nat, col: nat): nat
  {
    (row * g.cols + col) * 3
  }

  /** Index into the flat buffer of the byte holding pixel (x, y). */
  function Offset(g: Geometry, x: nat, y: nat): (i: nat)
    requires g.Contains(x, y)
    ensures i < g.Size()
  {
    CellBounds(g, y / 2, x / 12, ByteOfCell(x));
    CellStart(g, y / 2, x / 12) + ByteOfCell(x)
  }

  lemma CellBounds(g: Geometry, row: nat, col: nat, b: nat)
    requires row < g.rows && col < g.cols && b < 3
    ensures CellStart(g, row, col) + b < g.Size()
  {
    assert row * g.cols + col < g.rows * g.cols by {
      assert row * g.cols + col < (row + 1) * g.cols;
      MulMonotone(row + 1, g.rows, g.cols);
    }
    assert (row * g.cols + col + 1) * 3 <= g.rows * g.cols * 3;
  }

  /** Index into the flat buffer of byte b of cell (row, col). */
  function CellByte(g: Geometry, row: nat, col: nat, b: nat): (i: nat)
    ensures row < g.rows && col < g.cols && b < 3 ==> i < g.Size()
  {
    if row < g.rows && col < g.cols && b < 3 then CellBounds(g, row, col, b); CellStart(g, row, col) + b
    else CellStart(g, row, col) + b
  }

  /** Every byte of the buffer is byte b of some cell (row, col): the row-major layout leaves no gaps. */
  lemma CellOfIndex(g: Geometry, j: nat)
    requires j < g.Size()
    ensures g.cols > 0
    ensures j / 3 / g.cols < g.rows && (j / 3) % g.cols < g.cols
    ensures CellByte(g, j / 3 / g.cols, (j / 3) % g.cols, j % 3) == j
  {
    var cell := j / 3;
    assert cell < g.rows * g.cols;
    assert g.cols > 0;
    var r, c := cell / g.cols, cell % g.cols;
    assert cell == r * g.cols + c;
    if r >= g.rows {
      MulMonotone(g.rows, r, g.cols);
    }
  }

  /** Distinct (row, col, byte) triples of the buffer occupy distinct bytes. */
  lemma CellDistinct(g: Geometry, r1: nat, c1: nat, b1: nat, r2: nat, c2: nat, b2: nat)
    requires c1 < g.cols && c2 < g.cols && b1 < 3 && b2 < 3
    requires (r1, c1, b1) != (r2, c2, b2)
    ensures CellByte(g, r1, c1, b1) != CellByte(g, r2, c2, b2)
  {
    if CellByte(g, r1, c1, b1) == CellByte(g, r2, c2, b2) {
      SplitUnique(r1 * g.cols + c1, b1, r2 * g.cols + c2, b2);
      CellUnique(g.cols, r1, c1, r2, c2);
    }
  }

  /** Row-major traversal: a row's cells end where the next row begins, and the last row ends at the buffer's end. */
  lemma CellStartLimits(g: Geometry, row: nat, col: nat)
    requires row <= g.rows && col <= g.cols
    requires row == g.rows ==> col == 0
    ensures CellStart(g, row, col) <= g.Size()
    ensures CellStart(g, row, g.cols) == CellStart(g, row + 1, 0)
    ensures CellStart(g, g.rows, 0) == g.Size()
  {
    assert (row + 1) * g.cols == row * g.cols + g.cols;
    if row < g.rows {
      MulMonotone(row + 1, g.rows, g.cols);
    }
  }

  lemma MulMonotone(a: nat, b: nat, c: nat)
    requires a <= b
    ensures a * c <= b * c
  {
  }

  /** The mask is the most significant bit shifted right by the bit position. */
  lemma MaskIsShift(x: nat, y: nat)
    ensures Mask(x, y) == (0x80 as bv8) >> BitIndex(x, y)
  {
    var k := BitIndex(x, y);
    if k == 0 {} else if k == 1 {} else if k == 2 {} else if k == 3 {}
    else if k == 4 {} else if k == 5 {} else if k == 6 {} else {}
  }

  lemma MaskNonZero(x: nat, y: nat)
    ensures Mask(x, y) != 0
  {
    MaskBits(x, y, x, y);
  }

  /** Every mask selects a bit, and the masks of different bit positions share none. */
  lemma MaskBits(x1: nat, y1: nat, x2: nat, y2: nat)
    ensures Mask(x1, y1) != 0
    ensures BitIndex(x1, y1) != BitIndex(x2, y2) ==> Mask(x1, y1) & Mask(x2, y2) == 0
  {
    MasksDisjoint(BitIndex(x1, y1), BitIndex(x2, y2));
  }

  lemma MasksDisjoint(k1: nat, k2: nat)
    requires k1 < 8 && k2 < 8
    ensures MASKS[k1] != 0
    ensures k1 != k2 ==> MASKS[k1] & MASKS[k2] == 0
  {
    if k1 == 0 {} else if k1 == 1 {} else if k1 == 2 {} else if k1 == 3 {}
    else if k1 == 4 {} else if k1 == 5 {} else if k1 == 6 {} else {}
  }

  /** Two pixels share a mask exactly when they share a bit position. */
  lemma MaskInjective(x1: nat, y1: nat, x2: nat, y2: nat)
    ensures Mask(x1, y1) == Mask(x2, y2) <==> BitIndex(x1, y1) == BitIndex(x2, y2)
  {
  }

  /**
   * The 24-entry table is the closed form: byte (x % 12) / 4 and mask
   * 0x80 >> (2 * (x % 4) + y % 2). In particular its panicking arm is
   * unreachable for every pixel.
   */
  lemma BitTableClosedForm(x: nat, y: nat)
    ensures BitTable(x % 12, y % 2) == Some(((x % 12) / 4, (0x80 as bv8) >> (2 * (x % 4) + y % 2)))
    ensures BitTable(x % 12, y % 2) == Some((ByteOfCell(x), Mask(x, y)))
  {
    var xm, ym := x % 12, y % 2;
    assert x % 4 == xm % 4;
    MaskIsShift(x, y);
    if xm == 0 {} else if xm == 1 {} else if xm == 2 {} else if xm == 3 {}
    else if xm == 4 {} else if xm == 5 {} else if xm == 6 {} else if xm == 7 {}
    else if xm == 8 {} else if xm == 9 {} else if xm == 10 {} else {}
  }

  /** The table entry of a pixel is the byte of its cell and its mask. */
  lemma BitTableLookup(x: nat, y: nat)
    ensures BitTable(x % 12, y % 2) == Some((ByteOfCell(x), Mask(x, y)))
  {
    BitTableClosedForm(x, y);
  }

  /** Distinct pixels of the buffer never share a bit: the encoding is injective. */
  lemma LocationInjective(g: Geometry, x1: nat, y1: nat, x2: nat, y2: nat)
    requires g.Contains(x1, y1) && g.Contains(x2, y2)
    requires Offset(g, x1, y1) == Offset(g, x2, y2) && Mask(x1, y1) == Mask(x2, y2)
    ensures x1 == x2 && y1 == y2
  {
    var b1, b2 := ByteOfCell(x1), ByteOfCell(x2);
    var c1, c2 := (y1 / 2) * g.cols + x1 / 12, (y2 / 2) * g.cols + x2 / 12;
    SplitUnique(c1, b1, c2, b2);
    CellUnique(g.cols, y1 / 2, x1 / 12, y2 / 2, x2 / 12);
    MaskInjective(x1, y1, x2, y2);
    CoordinateUnique(x1, y1, x2, y2);
  }

  lemma SplitUnique(c1: nat, b1: nat, c2: nat, b2: nat)
    requires b1 < 3 && b2 < 3 && c1 * 3 + b1 == c2 * 3 + b2
    ensures c1 == c2 && b1 == b2
  {
  }

  /** A pixel is determined by its cell, its byte in the cell and its bit position. */
  lemma CoordinateUnique(x1: nat, y1: nat, x2: nat, y2: nat)
    requires x1 / 12 == x2 / 12 && y1 / 2 == y2 / 2
    requires ByteOfCell(x1) == ByteOfCell(x2) && BitIndex(x1, y1) == BitIndex(x2, y2)
    ensures x1 == x2 && y1 == y2
  {
    assert x1 % 12 == 4 * ByteOfCell(x1) + x1 % 4;
    assert x2 % 12 == 4 * ByteOfCell(x2) + x2 % 4;
  }

  lemma CellUnique(cols: nat, r1: nat, c1: nat, r2: nat, c2: nat)
    requires c1 < cols && c2 < cols
    requires r1 * cols + c1 == r2 * cols + c2
    ensures r1 == r2 && c1 == c2
  {
    if r1 < r2 {
      MulMonotone(r1 + 1, r2, cols);
      assert false;
    } else if r2 < r1 {
      MulMonotone(r2 + 1, r1, cols);
      assert false;
    }
  }

  /** The pixel that a bit of the buffer holds: byte i, bit k counted from the most significant. */
  function PixelAt(g: Geometry, i: nat, k: nat): (p: (nat, nat))
    requires i < g.Size() && k < 8
    ensures g.Contains(p.0, p.1)
  {
    var cell, b := i / 3, i % 3;
    var row, col := cell / g.cols, cell % g.cols;
    assert row < g.rows by {
      assert cell < g.rows * g.cols;
      if row >= g.rows {
        MulMonotone(g.rows, row, g.cols);
      }
    }
    (col * 12 + b * 4 + k / 2, row * 2 + k % 2)
  }

  /** Every bit of the buffer holds exactly one pixel: PixelAt inverts (Offset, BitIndex). */
  lemma PixelAtLocates(g: Geometry, i: nat, k: nat)
    requires i < g.Size() && k < 8
    ensures var (x, y) := PixelAt(g, i, k); Offset(g, x, y) == i && BitIndex(x, y) == k
  {
    var (x, y) := PixelAt(g, i, k);
    var cell, b := i / 3, i % 3;
    var row, col := cell / g.cols, cell % g.cols;
    assert x / 12 == col && x % 12 == b * 4 + k / 2;
    assert y / 2 == row && y % 2 == k % 2;
    assert ByteOfCell(x) == b;
    assert x % 4 == k / 2;
    assert CellStart(g, row, col) == cell * 3;
  }

  /** Whether pixel (x, y) is black (its bit set) in buffer `fb`. */
  predicate IsBlack(fb: seq<bv8>, g: Geometry, x: nat, y: nat)
    requires |fb| == g.Size() && g.Contains(x, y)
  {
    fb[Offset(g, x, y)] & Mask(x, y) != 0
  }

  /** The colour byte is binarised: only 0 is black. */
  predicate Black(color: int)
  {
    color < 1
  }

  /** A byte with the bit `m` set (`|=`) or cleared (`&= !`). */
  function SetBit(v: bv8, m: bv8, on: bool): (w: bv8)
    requires m != 0
    ensures w & !m == v & !m
    ensures (w & m != 0) <==> on
  {
    if on then v | m else v & !m
  }

  /** Buffer `fb` with bit `m` of byte `i` set or cleared, all else kept. */
  function UpdateByte(fb: seq<bv8>, i: nat, m: bv8, on: bool): (r: seq<bv8>)
    requires i < |fb| && m != 0
    ensures |r| == |fb|
    ensures forall j :: 0 <= j < |fb| && j != i ==> r[j] == fb[j]
    ensures r[i] & !m == fb[i] & !m
    ensures (r[i] & m != 0) <==> on
  {
    fb[i := SetBit(fb[i], m, on)]
  }

  /**
   * The buffer after `set_pixel(x, y, color)`: the pixel's bit is set for a
   * black colour and cleared otherwise; every other bit is kept.
   */
  function ApplyPixel(fb: seq<bv8>, g: Geometry, x: nat, y: nat, color: u8): (r: seq<bv8>)
    requires |fb| == g.Size() && g.Contains(x, y)
    ensures |r| == |fb|
    ensures forall j :: 0 <= j < |fb| && j != Offset(g, x, y) ==> r[j] == fb[j]
    ensures IsBlack(r, g, x, y) <==> color == 0
  {
    MaskBits(x, y, x, y);
    UpdateByte(fb, Offset(g, x, y), Mask(x, y), Black(color))
  }

  /** Setting a pixel keeps the other seven bits of its byte. */
  lemma ApplyPixelByte(fb: seq<bv8>, g: Geometry, x: nat, y: nat, color: u8)
    requires |fb| == g.Size() && g.Contains(x, y)
    ensures ApplyPixel(fb, g, x, y, color)[Offset(g, x, y)] & !Mask(x, y) == fb[Offset(g, x, y)] & !Mask(x, y)
  {
    var i, m := Offset(g, x, y), Mask(x, y);
    MaskBits(x, y, x, y);
    assert ApplyPixel(fb, g, x, y, color) == UpdateByte(fb, i, m, Black(color));
  }

  /** Setting a pixel does not change the colour of any other pixel. */
  lemma ApplyPixelOthers(fb: seq<bv8>, g: Geometry, x: nat, y: nat, color: u8, x': nat, y': nat)
    requires |fb| == g.Size() && g.Contains(x, y) && g.Contains(x', y')
    requires (x', y') != (x, y)
    ensures IsBlack(ApplyPixel(fb, g, x, y, color), g, x', y') == IsBlack(fb, g, x', y')
  {
    PixelBitsDistinct(g, x, y, x', y');
    MaskBits(x, y, x, y);
    assert ApplyPixel(fb, g, x, y, color) == UpdateByte(fb, Offset(g, x, y), Mask(x, y), Black(color));
    UpdateKeepsPixel(fb, Offset(g, x, y), Mask(x, y), Black(color), g, x', y');
  }

  /** Updating bit `m` of byte `i` keeps the colour of every pixel that does not live in that bit. */
  lemma UpdateKeepsPixel(fb: seq<bv8>, i: nat, m: bv8, on: bool, g: Geometry, x: nat, y: nat)
    requires |fb| == g.Size() && g.Contains(x, y) && i < |fb| && m != 0
    requires i != Offset(g, x, y) || m & Mask(x, y) == 0
    ensures IsBlack(UpdateByte(fb, i, m, on), g, x, y) == IsBlack(fb, g, x, y)
  {
    var r := UpdateByte(fb, i, m, on);
    if i == Offset(g, x, y) {
      MaskedAgree(r[i], fb[i], m, Mask(x, y));
    }
    BlackAgree(r, fb, g, x, y);
  }

  /** Two bytes that agree outside bit `m` agree on every bit disjoint from it. */
  lemma MaskedAgree(a: bv8, b: bv8, m: bv8, m': bv8)
    requires a & !m == b & !m && m & m' == 0
    ensures a & m' == b & m'
  {
  }

  lemma BlackAgree(r: seq<bv8>, fb: seq<bv8>, g: Geometry, x: nat, y: nat)
    requires |r| == |fb| == g.Size() && g.Contains(x, y)
    requires r[Offset(g, x, y)] & Mask(x, y) == fb[Offset(g, x, y)] & Mask(x, y)
    ensures IsBlack(r, g, x, y) == IsBlack(fb, g, x, y)
  {
  }

  /** Two different pixels of the buffer lie in different bytes or under disjoint masks. */
  lemma PixelBitsDistinct(g: Geometry, x: nat, y: nat, x': nat, y': nat)
    requires g.Contains(x, y) && g.Contains(x', y')
    requires (x', y') != (x, y)
    ensures Offset(g, x, y) != Offset(g, x', y') || Mask(x, y) & Mask(x', y') == 0
  {
    MaskBits(x, y, x', y');
    MaskInjective(x, y, x', y');
    if Offset(g, x, y) == Offset(g, x', y') && Mask(x, y) == Mask(x', y') {
      LocationInjective(g, x, y, x', y');
    }
  }


  /** Setting a pixel twice to the same colour is the same as setting it once. */
  lemma ApplyPixelIdempotent(fb: seq<bv8>, g: Geometry, x: nat, y: nat, color: u8)
    requires |fb| == g.Size() && g.Contains(x, y)
    ensures ApplyPixel(ApplyPixel(fb, g, x, y, color), g, x, y, color) == ApplyPixel(fb, g, x, y, color)
  {
    var i, m := Offset(g, x, y), Mask(x, y);
    MaskBits(x, y, x, y);
    var once := UpdateByte(fb, i, m, Black(color));
    assert ApplyPixel(fb, g, x, y, color) == once;
    assert ApplyPixel(once, g, x, y, color) == UpdateByte(once, i, m, Black(color));
    assert SetBit(SetBit(fb[i], m, Black(color)), m, Black(color)) == SetBit(fb[i], m, Black(color));
  }

  /** Setting two different pixels can be done in either order. */
  lemma ApplyPixelCommute(fb: seq<bv8>, g: Geometry, x1: nat, y1: nat, c1: u8, x2: nat, y2: nat, c2: u8)
    requires |fb| == g.Size() && g.Contains(x1, y1) && g.Contains(x2, y2)
    requires (x1, y1) != (x2, y2)
    ensures ApplyPixel(ApplyPixel(fb, g, x1, y1, c1), g, x2, y2, c2)
         == ApplyPixel(ApplyPixel(fb, g, x2, y2, c2), g, x1, y1, c1)
  {
    var i1, m1, i2, m2 := Offset(g, x1, y1), Mask(x1, y1), Offset(g, x2, y2), Mask(x2, y2);
    MaskBits(x1, y1, x2, y2);
    MaskBits(x2, y2, x1, y1);
    if i1 == i2 && m1 == m2 {
      LocationInjective(g, x1, y1, x2, y2);
    }
    var a := UpdateByte(fb, i1, m1, Black(c1));
    var b := UpdateByte(fb, i2, m2, Black(c2));
    assert ApplyPixel(fb, g, x1, y1, c1) == a;
    assert ApplyPixel(fb, g, x2, y2, c2) == b;
    assert ApplyPixel(a, g, x2, y2, c2) == UpdateByte(a, i2, m2, Black(c2));
    assert ApplyPixel(b, g, x1, y1, c1) == UpdateByte(b, i1, m1, Black(c1));
    UpdateByteCommute(fb, i1, m1, Black(c1), i2, m2, Black(c2));
  }

  /** Updates of two different bits of a buffer commute. */
  lemma UpdateByteCommute(fb: seq<bv8>, i1: nat, m1: bv8, on1: bool, i2: nat, m2: bv8, on2: bool)
    requires i1 < |fb| && m1 != 0 && i2 < |fb| && m2 != 0
    requires i1 != i2 || m1 & m2 == 0
    ensures UpdateByte(UpdateByte(fb, i1, m1, on1), i2, m2, on2)
         == UpdateByte(UpdateByte(fb, i2, m2, on2), i1, m1, on1)
  {
    if i1 == i2 {
      SetBitCommute(fb[i1], m1, on1, m2, on2);
    }
  }

  lemma SetBitCommute(v: bv8, m1: bv8, on1: bool, m2: bv8, on2: bool)
    requires m1 != 0 && m2 != 0 && m1 & m2 == 0
    ensures SetBit(SetBit(v, m1, on1), m2, on2) == SetBit(SetBit(v, m2, on2), m1, on1)
  {
    CommuteBits(v, m1, m2);
  }

  lemma CommuteBits(v: bv8, m1: bv8, m2: bv8)
    requires m1 & m2 == 0
    ensures (v | m1) | m2 == (v | m2) | m1
    ensures (v & !m1) & !m2 == (v & !m2) & !m1
    ensures (v | m1) & !m2 == (v & !m2) | m1
    ensures (v & !m1) | m2 == (v | m2) & !m1
  {
  }

  /** The three channels of an Rgb565 colour: 5 bits of red, 6 of green, 5 of blue. */
  type u5 = v: int | 0 <= v < 0x20
  type u6 = v: int | 0 <= v < 0x40

  datatype Rgb565 = Rgb565(r: u5, g: u6, b: u5)

  /** The packed 16-bit storage of a colour: red in bits 15..11, green in 10..5, blue in 4..0. */
  function Raw(c: Rgb565): (v: u16)
    ensures v / 2048 == c.r && (v / 32) % 64 == c.g && v % 32 == c.b
  {
    c.r * 2048 + c.g * 32 + c.b
  }

  /** The colour byte `draw_pixels` passes on: the raw value truncated to its low byte. */
  function ColorByte(c: Rgb565): u8
  {
    Raw(c) % 256
  }

  /**
   * The low byte holds the low three bits of green and all of blue, so a
   * colour is drawn black exactly when those bits are all zero; red never matters.
   */
  lemma ColorByteBlack(c: Rgb565)
    ensures ColorByte(c) == (c.g % 8) * 32 + c.b
    ensures ColorByte(c) == 0 <==> c.g % 8 == 0 && c.b == 0
  {
    var hi := c.r * 8 + c.g / 8;
    assert Raw(c) == hi * 256 + ((c.g % 8) * 32 + c.b);
    assert (c.g % 8) * 32 + c.b < 256;
    ModOfMultiple(hi, (c.g % 8) * 32 + c.b);
  }

  lemma ModOfMultiple(q: nat, r: nat)
    requires r < 256
    ensures (q * 256 + r) % 256 == r
  {
  }

  /**
   * `col_to_bright`: the sum r + g + b / 3 (only blue is divided), truncated
   * to a byte. With 5/6/5-bit channels the sum is at most 104, so the
   * truncation never changes it.
   */
  function ColToBright(c: Rgb565): (v: u8)
    ensures v == c.r + c.g + c.b / 3
    ensures v <= 31 + 63 + 10
  {
    (c.r + c.g + c.b / 3) % 256
  }

  /** The byte `clear` writes to every cell: 0xFF (all black) for a dark colour, 0x00 otherwise. */
  function ClearFill(c: Rgb565): (b: bv8)
    ensures b == 0xFF
  {
    if ColToBright(c) < 128 then 0xFF else 0x00
  }

  /** A buffer of n copies of byte v. */
  function Filled(n: nat, v: bv8): (r: seq<bv8>)
    ensures |r| == n
    ensures forall j :: 0 <= j < n ==> r[j] == v
  {
    seq(n, _ => v)
  }

  /** Whatever colour is given, `clear` leaves every pixel of the buffer black. */
  lemma ClearAllBlack(g: Geometry, c: Rgb565, x: nat, y: nat)
    requires g.Contains(x, y)
    ensures IsBlack(Filled(g.Size(), ClearFill(c)), g, x, y)
  {
    MaskBits(x, y, x, y);
    FullByte(Mask(x, y));
  }

  lemma FullByte(m: bv8)
    requires m != 0
    ensures 0xFF & m != 0
  {
  }

  /** A drawable pixel: signed 32-bit coordinates and a colour. */
  datatype Pixel = Pixel(x: i32, y: i32, color: Rgb565)

  /** `width as i32`: the two's-complement reinterpretation of a u32. */
  function AsI32(w: u32): (v: i32)
    ensures v % 0x1_0000_0000 == w
    ensures v <= w
  {
    if w < 0x8000_0000 then w else w - 0x1_0000_0000
  }

  /** The clip test of `draw_pixels`. */
  predicate OnScreen(p: Pixel, width: u32, height: u32)
  {
    p.x >= 0 && p.y >= 0 && p.x < AsI32(width) && p.y < AsI32(height)
  }

  /** `coord.x as u16` and `coord.y as u16`: each coordinate truncated to 16 bits. */
  function Target(p: Pixel): (u16, u16)
  {
    (p.x % 0x1_0000, p.y % 0x1_0000)
  }

  /** Every pixel that passes the clip lands in the buffer, so `set_pixel` never panics. */
  predicate AllFit(g: Geometry, ps: seq<Pixel>, width: u32, height: u32)
  {
    forall p :: p in ps && OnScreen(p, width, height) ==> g.Contains(Target(p).0, Target(p).1)
  }

  /** One step of `draw_pixels`: a clipped pixel is skipped, any other is set. */
  function Draw1(fb: seq<bv8>, g: Geometry, p: Pixel, width: u32, height: u32): (r: seq<bv8>)
    requires |fb| == g.Size()
    requires OnScreen(p, width, height) ==> g.Contains(Target(p).0, Target(p).1)
    ensures |r| == |fb|
    ensures !OnScreen(p, width, height) ==> r == fb
  {
    if OnScreen(p, width, height) then
      ApplyPixel(fb, g, Target(p).0, Target(p).1, ColorByte(p.color))
    else fb
  }

  /** The buffer after drawing the pixels in order. */
  function DrawAll(fb: seq<bv8>, g: Geometry, ps: seq<Pixel>, width: u32, height: u32): (r: seq<bv8>)
    requires |fb| == g.Size() && AllFit(g, ps, width, height)
    ensures |r| == |fb|
    decreases |ps|
  {
    if ps == [] then fb
    else
      var last := ps[|ps| - 1];
      assert last in ps;
      assert AllFit(g, ps[..|ps| - 1], width, height) by {
        forall p | p in ps[..|ps| - 1] ensures p in ps {
        }
      }
      Draw1(DrawAll(fb, g, ps[..|ps| - 1], width, height), g, last, width, height)
  }

  /**
   * The colour a drawing run leaves at pixel (x, y): the shade of the last
   * unclipped pixel aimed at it, or None when none is.
   */
  function LastShade(ps: seq<Pixel>, x: nat, y: nat, width: u32, height: u32): Option<bool>
    decreases |ps|
  {
    if ps == [] then None
    else
      var p := ps[|ps| - 1];
      if OnScreen(p, width, height) && Target(p) == (x, y) then Some(ColorByte(p.color) == 0)
      else LastShade(ps[..|ps| - 1], x, y, width, height)
  }

  /**
   * `draw_pixels` against its reference: each pixel of the buffer ends up
   * black exactly when the last unclipped pixel drawn at it had a zero
   * colour byte, and keeps its previous colour when no such pixel exists.
   */
  lemma {:induction false} DrawAllPixel(fb: seq<bv8>, g: Geometry, ps: seq<Pixel>, width: u32, height: u32, x: nat, y: nat)
    requires |fb| == g.Size() && AllFit(g, ps, width, height) && g.Contains(x, y)
    ensures IsBlack(DrawAll(fb, g, ps, width, height), g, x, y)
         == match LastShade(ps, x, y, width, height)
            case None => IsBlack(fb, g, x, y)
            case Some(black) => black
    decreases |ps|
  {
    if ps != [] {
      var init, p := ps[..|ps| - 1], ps[|ps| - 1];
      assert p in ps;
      assert AllFit(g, init, width, height) by {
        forall q | q in init ensures q in ps {
        }
      }
      DrawAllPixel(fb, g, init, width, height, x, y);
      var before := DrawAll(fb, g, init, width, height);
      if OnScreen(p, width, height) && Target(p) != (x, y) {
        ApplyPixelOthers(before, g, Target(p).0, Target(p).1, ColorByte(p.color), x, y);
      }
    }
  }

  /** A run of pixels that are all off screen leaves the buffer as it was. */
  lemma {:induction false} DrawAllClipped(fb: seq<bv8>, g: Geometry, ps: seq<Pixel>, width: u32, height: u32)
    requires |fb| == g.Size()
    requires forall p :: p in ps ==> !OnScreen(p, width, height)
    ensures AllFit(g, ps, width, height)
    ensures DrawAll(fb, g, ps, width, height) == fb
    decreases |ps|
  {
    if ps != [] {
      var init := ps[..|ps| - 1];
      assert forall q :: q in init ==> q in ps;
      DrawAllClipped(fb, g, init, width, height);
    }
  }

  /**
   * When the panel given to the driver is no larger than its buffer
   * (width <= 12 * COLS, height <= 2 * ROWS), every pixel stream fits: the
   * clip test alone keeps `set_pixel` in bounds.
   */
  lemma FitsImpliesAllFit(g: Geometry, ps: seq<Pixel>, width: u32, height: u32)
    requires width <= 12 * g.cols && height <= 2 * g.rows
    ensures AllFit(g, ps, width, height)
  {
    forall p | p in ps && OnScreen(p, width, height)
      ensures g.Contains(Target(p).0, Target(p).1)
    {
      assert Target(p).0 <= p.x < width;
      assert Target(p).1 <= p.y < height;
    }
  }
}
