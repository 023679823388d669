/**
 * Grid geometry of the remote layout: the block grid, cell coordinates,
 * button sizes and the left margin that centres a grid of a given number
 * of columns on the device.
 */
module Geometry {

  function Abs(a: int): (r: int)
    ensures r >= 0 && (r == a || r == -a)
  {
    if a < 0 then -a else a
  }

  /**
   * Java's integer division, which truncates toward zero (Dafny's `/`
   * rounds so that the remainder is never negative).
   */
  function JavaDiv(a: int, b: int): (q: int)
    requires b != 0
    ensures a >= 0 ==> 0 <= a - q * b < Abs(b)
    ensures a < 0 ==> -Abs(b) < a - q * b <= 0
  {
    var q0 := Abs(a) / Abs(b);
    TruncatedQuotient(a, b, q0);
    if (a < 0) == (b < 0) then q0 else -q0
  }

  lemma TruncatedQuotient(a: int, b: int, q0: int)
    requires b != 0 && q0 == Abs(a) / Abs(b)
    ensures var q := if (a < 0) == (b < 0) then q0 else -q0;
            (a >= 0 ==> 0 <= a - q * b < Abs(b)) && (a < 0 ==> -Abs(b) < a - q * b <= 0)
  {
    var bb := Abs(b);
    var r0 := Abs(a) % bb;
    assert Abs(a) == q0 * bb + r0 && 0 <= r0 < bb;
    var q := if (a < 0) == (b < 0) then q0 else -q0;
    // in every case q * b is q0 * |b| with the sign of a
    if b > 0 {
      assert bb == b;
      if a < 0 { NegateProduct(q0, b); }
    } else {
      assert bb == -b;
      if a < 0 { NegateProduct(q0, bb); } else { NegateProduct(-q0, bb); }
    }
    assert q * b == if a < 0 then -(q0 * bb) else q0 * bb;
  }

  lemma NegateProduct(x: int, y: int)
    ensures (-x) * y == -(x * y) && x * (-y) == -(x * y)
  {
  }

  /**
   * The geometry the organizer works with, all in pixels except the block
   * counts: left and top margin, block size, spacing between buttons,
   * blocks per button and the number of columns in use.
   */
  datatype Grid = Grid(
    marginLeft: int, marginTop: int,
    sizeX: int, sizeY: int,
    spacingX: int, spacingY: int,
    blocksX: int, blocksY: int,
    cols: int)

  /** Horizontal pixel position of column `col` (a button offset of `col` buttons). */
  function CellX(g: Grid, col: int): int
  {
    g.marginLeft + col * g.sizeX * g.blocksX
  }

  /** Vertical pixel position of row `row`. */
  function RowY(g: Grid, row: int): int
  {
    g.marginTop + row * g.blocksY * g.sizeY
  }

  /**
   * Width of a button spanning `blocks` blocks of `sizeX` pixels: one
   * spacing is taken out of the button's box, so with it the button fills
   * its blocks exactly.
   */
  function BlocksWidth(sizeX: int, spacingX: int, blocks: int): (px: int)
    ensures px + spacingX == blocks * sizeX
  {
    blocks * sizeX - spacingX
  }

  /** Height of a button spanning `blocks` blocks of `sizeY` pixels. */
  function BlocksHeight(sizeY: int, spacingY: int, blocks: int): (px: int)
    ensures px + spacingY == blocks * sizeY
  {
    blocks * sizeY - spacingY
  }

  /**
   * Buttons of the standard size in neighbouring cells are separated by
   * exactly the grid spacing, horizontally and vertically.
   */
  lemma NeighbourGap(g: Grid, col: int, row: int)
    ensures CellX(g, col + 1) - (CellX(g, col) + BlocksWidth(g.sizeX, g.spacingX, g.blocksX)) == g.spacingX
    ensures RowY(g, row + 1) - (RowY(g, row) + BlocksHeight(g.sizeY, g.spacingY, g.blocksY)) == g.spacingY
  {
    assert (col + 1) * g.sizeX * g.blocksX == col * g.sizeX * g.blocksX + g.sizeX * g.blocksX;
    assert (row + 1) * g.blocksY * g.sizeY == row * g.blocksY * g.sizeY + g.blocksY * g.sizeY;
  }

  /** Width of the content of a grid of `cols` columns: from the first cell's left edge to the last button's right edge. */
  function ContentWidth(sizeX: int, blocksX: int, spacingX: int, cols: int): int
  {
    sizeX * cols * blocksX - spacingX
  }

  /** The left margin `useCols` sets: half of what the content leaves free, truncated toward zero. */
  function CentredMargin(deviceWidth: int, sizeX: int, blocksX: int, spacingX: int, cols: int): int
  {
    JavaDiv(deviceWidth - ContentWidth(sizeX, blocksX, spacingX, cols), 2)
  }

  /**
   * The margin centres the content: the space left on the right differs
   * from the left margin by at most one pixel, and not at all when the
   * free space is even. When the content is wider than the device, the
   * left margin is at most 0.
   */
  lemma CentredWithinOnePixel(deviceWidth: int, sizeX: int, blocksX: int, spacingX: int, cols: int)
    ensures var m := CentredMargin(deviceWidth, sizeX, blocksX, spacingX, cols);
            var right := deviceWidth - (m + ContentWidth(sizeX, blocksX, spacingX, cols));
            -1 <= right - m <= 1 &&
            ((deviceWidth - ContentWidth(sizeX, blocksX, spacingX, cols)) % 2 == 0 <==> right == m) &&
            (deviceWidth >= ContentWidth(sizeX, blocksX, spacingX, cols) ==> m >= 0) &&
            (deviceWidth < ContentWidth(sizeX, blocksX, spacingX, cols) ==> m <= 0)
  {
    var free := deviceWidth - ContentWidth(sizeX, blocksX, spacingX, cols);
    var m := CentredMargin(deviceWidth, sizeX, blocksX, spacingX, cols);
    assert -1 <= free - 2 * m <= 1;
    if free % 2 == 0 {
      assert free == 2 * (free / 2);
      assert free - 2 * m == 2 * (free / 2 - m);
    }
  }

  /** On a non-negative dividend and a positive divisor Java's division agrees with Dafny's. */
  lemma JavaDivAgreesOnNonNegative(a: int, b: int)
    requires a >= 0 && b > 0
    ensures JavaDiv(a, b) == a / b
  {
  }

  /**
   * On a negative dividend and a positive divisor Java's quotient is
   * Dafny's when the division is exact and one more otherwise: truncating
   * rounds up where Dafny's division rounds down.
   */
  lemma JavaDivOnNegative(a: int, b: int)
    requires a < 0 && b > 0
    ensures JavaDiv(a, b) == a / b + (if a % b == 0 then 0 else 1)
  {
    var q := JavaDiv(a, b);
    var d := a / b;
    var r := a % b;
    var k := d - q;
    assert a - q * b == k * b + r;
    // -b - r < k * b <= -r, so k is 0 when r is 0 and -1 otherwise
    ScaleBounds(k, b);
  }

  lemma ScaleBounds(k: int, b: int)
    requires b > 0
    ensures k >= 1 ==> k * b >= b
    ensures k <= -1 ==> k * b <= -b
    ensures k <= -2 ==> k * b <= -2 * b
  {
    if k >= 1 {
      assert k * b - b == (k - 1) * b;
    } else if k <= -1 {
      assert k * b + b == (k + 1) * b;
      assert k * b + 2 * b == (k + 2) * b;
    }
  }
}
