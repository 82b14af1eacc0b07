/** Pixels, strided pixel grids and the size guard shared by all software filters. */
module Raster {
  import opened Arithmetic

  /** The bits of a `jint` pixel, read as an unsigned number. */
  type Pixel = p: int | 0 <= p < 0x1_0000_0000

  const INT_MAX := 0x7fff_ffff

  /** Channel numbers as in SSEUtils.h. */
  const R := 0
  const G := 1
  const B := 2
  const A := 3

  predicate IsByte(v: int) {
    0 <= v < 256
  }

  /** `(p >> s) & 0xff` for the shift s of channel k; each division is a shift by 8. */
  function Channel(p: Pixel, k: int): (v: int)
    ensures IsByte(v)
  {
    var b, g, r := p % 256, p / 256 % 256, p / 256 / 256 % 256;
    if k == A then p / 256 / 256 / 256 else if k == R then r else if k == G then g else b
  }

  /** `(a << 24) + (r << 16) + (g << 8) + b`; the fields must not run into each other. */
  function Pack(a: int, r: int, g: int, b: int): (p: Pixel)
    requires IsByte(a) && IsByte(r) && IsByte(g) && IsByte(b)
    ensures Channel(p, A) == a && Channel(p, R) == r && Channel(p, G) == g && Channel(p, B) == b
  {
    var ar := a * 256 + r;
    var arg := ar * 256 + g;
    var argb := arg * 256 + b;
    Digit(arg, b);
    Digit(ar, g);
    Digit(a, r);
    argb
  }

  lemma Digit(x: int, d: int)
    requires IsByte(d)
    ensures (x * 256 + d) / 256 == x && (x * 256 + d) % 256 == d
  {
  }

  /** Unpacking and packing again gives the pixel back. */
  lemma PackOfChannels(p: Pixel)
    ensures Pack(Channel(p, A), Channel(p, R), Channel(p, G), Channel(p, B)) == p
  {
    var q := p / 256;
    var s := q / 256;
    assert p == q * 256 + p % 256 && q == s * 256 + q % 256 && s == s / 256 * 256 + s % 256;
  }

  /** Which bits a channel is: alpha the highest eight, then red, green and blue. */
  lemma ChannelsAreBits(p: Pixel)
    ensures p == Channel(p, A) * 0x100_0000 + Channel(p, R) * 0x1_0000 + Channel(p, G) * 0x100 + Channel(p, B)
  {
    var q := p / 256;
    var s := q / 256;
    assert p == q * 256 + p % 256 && q == s * 256 + q % 256 && s == s / 256 * 256 + s % 256;
  }

  lemma PackBits(a: int, r: int, g: int, b: int)
    requires IsByte(a) && IsByte(r) && IsByte(g) && IsByte(b)
    ensures Pack(a, r, g, b) == a * 0x100_0000 + r * 0x1_0000 + g * 0x100 + b
  {
    hide Channel, Pack;
    ChannelsAreBits(Pack(a, r, g, b));
  }

  /**
   * `checkRange`: true means that the sizes are refused. Sizes are `jint`, so the products must not be formed too
   * early.
   */
  predicate CheckRange(dstLength: nat, dstw: int, dsth: int, srcLength: nat, srcw: int, srch: int) {
    || srcw <= 0
    || srch <= 0
    || srcw > INT_MAX / srch
    || dstw <= 0
    || dsth <= 0
    || dstw > INT_MAX / dsth
    || srcw * srch > srcLength
    || dstw * dsth > dstLength
  }

  lemma QuotientGuard(a: int, b: int)
    requires b > 0
    ensures a > INT_MAX / b <==> a * b > INT_MAX
  {
    var q := INT_MAX / b;
    assert q * b <= INT_MAX < q * b + b;
    MultipleAtLeast(a - q, b);
    assert (a - q) * b == a * b - q * b;
  }

  lemma AcceptedSizes(dstLength: nat, dstw: int, dsth: int, srcLength: nat, srcw: int, srch: int)
    requires !CheckRange(dstLength, dstw, dsth, srcLength, srcw, srch)
    ensures srcw > 0 && srch > 0 && dstw > 0 && dsth > 0
  {
  }

  /** The guard accepts exactly the positive sizes whose areas fit a `jint` and the arrays. */
  lemma CheckRangeExact(dstLength: nat, dstw: int, dsth: int, srcLength: nat, srcw: int, srch: int)
    ensures !CheckRange(dstLength, dstw, dsth, srcLength, srcw, srch) <==>
            && srcw > 0 && srch > 0 && dstw > 0 && dsth > 0
            && srcw * srch <= INT_MAX && srcw * srch <= srcLength
            && dstw * dsth <= INT_MAX && dstw * dsth <= dstLength
  {
    if srch > 0 && dsth > 0 {
      QuotientGuard(srcw, srch);
      QuotientGuard(dstw, dsth);
    }
  }

  // ---------- Grids ----------

  /** Pixels at offset `line * lineInc + col * colInc`: the rows (or the columns) of an image kept in an array. */
  datatype Grid = Grid(lines: nat, lineInc: nat, cols: nat, colInc: nat)

  /** The rows of an image. */
  function Rows(w: nat, h: nat, scan: nat): Grid {
    Grid(h, scan, w, 1)
  }

  /** The columns of an image. */
  function Columns(w: nat, h: nat, scan: nat): Grid {
    Grid(w, 1, h, scan)
  }

  function Cell(g: Grid, r: int, c: int): int {
    r * g.lineInc + c * g.colInc
  }

  lemma CellSteps(g: Grid, r: int, c: int)
    ensures Cell(g, r + 1, c) == Cell(g, r, c) + g.lineInc
    ensures Cell(g, r, c + 1) == Cell(g, r, c) + g.colInc
    ensures Cell(g, 0, 0) == 0
    ensures g.lineInc == 1 ==> Cell(g, r, 0) == r
  {
  }

  /** The lines do not overlap and every cell lies in an array of the given length. */
  predicate Fits(g: Grid, length: nat) {
    && ((g.colInc == 1 && g.cols <= g.lineInc) || (g.lineInc == 1 && g.lines <= g.colInc))
    && (g.lines > 0 && g.cols > 0 ==> Cell(g, g.lines - 1, g.cols - 1) < length)
  }

  /** An image of w by h pixels kept row by row in an array of the given length. */
  predicate HoldsImage(length: nat, w: int, h: int, scan: nat) {
    0 <= w <= scan && 0 <= h && Fits(Rows(w, h, scan), length)
  }

  lemma ColumnsFit(length: nat, w: int, h: int, scan: nat)
    requires HoldsImage(length, w, h, scan)
    ensures Fits(Columns(w, h, scan), length)
  {
    if w > 0 && h > 0 {
      assert Cell(Columns(w, h, scan), w - 1, h - 1) == Cell(Rows(w, h, scan), h - 1, w - 1);
    }
  }

  lemma CellInRange(g: Grid, length: nat, r: int, c: int)
    requires Fits(g, length) && 0 <= r < g.lines && 0 <= c < g.cols
    ensures 0 <= Cell(g, r, c) < length
  {
    ProductMonotone(0, r, g.lineInc);
    ProductMonotone(r, g.lines - 1, g.lineInc);
    ProductMonotone(0, c, g.colInc);
    ProductMonotone(c, g.cols - 1, g.colInc);
  }

  lemma CellInjective(g: Grid, length: nat, r: int, c: int, r': int, c': int)
    requires Fits(g, length)
    requires 0 <= r < g.lines && 0 <= c < g.cols && 0 <= r' < g.lines && 0 <= c' < g.cols
    requires Cell(g, r, c) == Cell(g, r', c')
    ensures r == r' && c == c'
  {
    if g.colInc == 1 && g.cols <= g.lineInc {
      UniqueDigits(g.lineInc, r, c, r', c');
    } else {
      UniqueDigits(g.colInc, c, r, c', r');
    }
  }

  ghost predicate InBounds(g: Grid, length: nat) {
    forall r, c :: 0 <= r < g.lines && 0 <= c < g.cols ==> 0 <= Cell(g, r, c) < length
  }

  lemma FitsInBounds(g: Grid, length: nat)
    requires Fits(g, length)
    ensures InBounds(g, length)
  {
    forall r, c | 0 <= r < g.lines && 0 <= c < g.cols
      ensures 0 <= Cell(g, r, c) < length
    {
      CellInRange(g, length, r, c);
    }
  }

  /** The rows stay in the array exactly if the last pixel of the last row does. */
  lemma RowsStayInBounds(length: nat, w: nat, h: nat, scan: nat)
    requires 0 < w && 0 < h
    ensures InBounds(Rows(w, h, scan), length) <==> (h - 1) * scan + w <= length
    ensures w <= scan ==> (HoldsImage(length, w, h, scan) <==> (h - 1) * scan + w <= length)
  {
    var g := Rows(w, h, scan);
    assert Cell(g, h - 1, w - 1) == (h - 1) * scan + w - 1;
    if (h - 1) * scan + w <= length {
      forall r, c | 0 <= r < h && 0 <= c < w
        ensures 0 <= Cell(g, r, c) < length
      {
        ProductMonotone(0, r, scan);
        ProductMonotone(r, h - 1, scan);
      }
    }
  }

  /** Of the calls the guard lets through, those without padding stay in bounds. */
  lemma UnpaddedStaysInBounds(dstLength: nat, dstw: int, dsth: int, srcLength: nat, srcw: int, srch: int)
    requires !CheckRange(dstLength, dstw, dsth, srcLength, srcw, srch)
    ensures HoldsImage(dstLength, dstw, dsth, dstw) && HoldsImage(srcLength, srcw, srch, srcw)
  {
    hide CheckRange;
    CheckRangeExact(dstLength, dstw, dsth, srcLength, srcw, srch);
    RowsStayInBounds(dstLength, dstw, dsth, dstw);
    RowsStayInBounds(srcLength, srcw, srch, srcw);
    assert (dsth - 1) * dstw + dstw == dstw * dsth && (srch - 1) * srcw + srcw == srcw * srch;
  }

  /** With padding the guard is not enough: it accepts a 2 by 2 image in 4 pixels, which stride 3 leaves. */
  lemma GuardIgnoresStride()
    ensures !CheckRange(4, 2, 2, 4, 2, 2) && !InBounds(Rows(2, 2, 3), 4)
  {
    RowsStayInBounds(4, 2, 2, 3);
  }

  type Line = seq<Pixel>
  type Image = seq<Line>

  /** The pixel at any integer position of a line, transparent black outside. */
  function Padded(line: Line, x: int): Pixel {
    if 0 <= x < |line| then line[x] else 0
  }

  ghost function LineOf(pix: seq<Pixel>, g: Grid, r: int): (line: Line)
    requires InBounds(g, |pix|) && 0 <= r < g.lines
    ensures |line| == g.cols
  {
    seq(g.cols, c requires 0 <= c < g.cols => pix[Cell(g, r, c)])
  }

  lemma LineCell(pix: seq<Pixel>, g: Grid, r: int, c: int)
    requires InBounds(g, |pix|) && 0 <= r < g.lines && 0 <= c < g.cols
    ensures Cell(g, r, c) == Cell(g, r, 0) + c * g.colInc
    ensures 0 <= Cell(g, r, c) < |pix| && LineOf(pix, g, r)[c] == pix[Cell(g, r, c)]
  {
  }

  /** The image seen through a grid, line by line. */
  ghost function ImageOf(pix: seq<Pixel>, g: Grid): (img: Image)
    requires InBounds(g, |pix|)
    ensures Rect(img, g.cols, g.lines)
  {
    seq(g.lines, r requires 0 <= r < g.lines => LineOf(pix, g, r))
  }

  /** Row y of an image at pixel x is the array's entry y * scan + x, and so is column x at y. */
  lemma PixelOffsets(pix: seq<Pixel>, w: nat, h: nat, scan: nat, x: int, y: int)
    requires HoldsImage(|pix|, w, h, scan) && 0 <= x < w && 0 <= y < h
    ensures InBounds(Rows(w, h, scan), |pix|) && InBounds(Columns(w, h, scan), |pix|)
    ensures 0 <= y * scan + x < |pix|
    ensures ImageOf(pix, Rows(w, h, scan))[y][x] == ImageOf(pix, Columns(w, h, scan))[x][y] == pix[y * scan + x]
  {
    ColumnsFit(|pix|, w, h, scan);
    FitsInBounds(Rows(w, h, scan), |pix|);
    FitsInBounds(Columns(w, h, scan), |pix|);
    LineCell(pix, Rows(w, h, scan), y, x);
    LineCell(pix, Columns(w, h, scan), x, y);
  }

  ghost predicate Rect(img: Image, w: nat, h: nat) {
    |img| == h && forall y :: 0 <= y < h ==> |img[y]| == w
  }

  ghost function Transpose(img: Image, w: nat, h: nat): (t: Image)
    requires Rect(img, w, h)
    ensures Rect(t, h, w)
    ensures forall x, y :: 0 <= x < w && 0 <= y < h ==> t[x][y] == img[y][x]
  {
    seq(w, x requires 0 <= x < w => seq(h, y requires 0 <= y < h => img[y][x]))
  }

  lemma ColumnsAreTransposedRows(pix: seq<Pixel>, w: nat, h: nat, scan: nat)
    requires HoldsImage(|pix|, w, h, scan)
    ensures InBounds(Rows(w, h, scan), |pix|) && InBounds(Columns(w, h, scan), |pix|)
    ensures ImageOf(pix, Columns(w, h, scan)) == Transpose(ImageOf(pix, Rows(w, h, scan)), w, h)
  {
    var gr, gc := Rows(w, h, scan), Columns(w, h, scan);
    ColumnsFit(|pix|, w, h, scan);
    FitsInBounds(gr, |pix|);
    FitsInBounds(gc, |pix|);
    var a, b := ImageOf(pix, gc), Transpose(ImageOf(pix, gr), w, h);
    forall x | 0 <= x < w
      ensures a[x] == b[x]
    {
      forall y | 0 <= y < h
        ensures a[x][y] == b[x][y]
      {
        assert Cell(gc, x, y) == Cell(gr, y, x);
      }
    }
  }

  // ---------- Writing a grid line by line ----------

  ghost predicate OnGrid(g: Grid, i: int) {
    exists r, c :: 0 <= r < g.lines && 0 <= c < g.cols && Cell(g, r, c) == i
  }

  ghost predicate OnLine(g: Grid, r: int, i: int) {
    exists c :: 0 <= c < g.cols && Cell(g, r, c) == i
  }

  /** The first n cells of line r hold `want`. */
  ghost predicate LineStarts(g: Grid, a: seq<Pixel>, r: int, want: Line, n: int)
    requires InBounds(g, |a|) && 0 <= r < g.lines && |want| == g.cols && n <= g.cols
  {
    forall c :: 0 <= c < n ==> a[Cell(g, r, c)] == want[c]
  }

  /** Nothing but line r differs between a and b. */
  ghost predicate OnlyLine(g: Grid, r: int, a: seq<Pixel>, b: seq<Pixel>) {
    |a| == |b| && forall i :: 0 <= i < |a| && !OnLine(g, r, i) ==> a[i] == b[i]
  }

  /** Nothing but the grid differs between a and b. */
  ghost predicate OnlyGrid(g: Grid, a: seq<Pixel>, b: seq<Pixel>) {
    |a| == |b| && forall i :: 0 <= i < |a| && !OnGrid(g, i) ==> a[i] == b[i]
  }

  ghost predicate LinesDone(g: Grid, a: seq<Pixel>, want: Image, n: int)
    requires InBounds(g, |a|) && Rect(want, g.cols, g.lines) && n <= g.lines
  {
    forall r :: 0 <= r < n ==> LineStarts(g, a, r, want[r], g.cols)
  }

  lemma NoCell(g: Grid, a: seq<Pixel>, r: int, want: Line)
    requires InBounds(g, |a|) && 0 <= r < g.lines && |want| == g.cols
    ensures LineStarts(g, a, r, want, 0) && OnlyLine(g, r, a, a)
  {
  }

  lemma NoLine(g: Grid, a: seq<Pixel>, want: Image)
    requires InBounds(g, |a|) && Rect(want, g.cols, g.lines)
    ensures LinesDone(g, a, want, 0) && OnlyGrid(g, a, a)
  {
  }

  /** One more cell of a line. */
  lemma NextCell(g: Grid, a: seq<Pixel>, r: int, want: Line, n: int, b: seq<Pixel>, b0: seq<Pixel>)
    requires Fits(g, |a|) && InBounds(g, |a|) && 0 <= r < g.lines && |want| == g.cols && 0 <= n < g.cols
    requires LineStarts(g, a, r, want, n) && OnlyLine(g, r, a, b0)
    requires b == a[Cell(g, r, n) := want[n]]
    ensures LineStarts(g, b, r, want, n + 1) && OnlyLine(g, r, b, b0)
  {
    forall c | 0 <= c < n + 1
      ensures b[Cell(g, r, c)] == want[c]
    {
      if c < n && Cell(g, r, c) == Cell(g, r, n) {
        CellInjective(g, |a|, r, c, r, n);
      }
    }
    assert OnLine(g, r, Cell(g, r, n));
  }

  /** One more line of an image. */
  lemma NextLine(g: Grid, a: seq<Pixel>, want: Image, n: int, b: seq<Pixel>, a0: seq<Pixel>)
    requires Fits(g, |a|) && InBounds(g, |a|) && Rect(want, g.cols, g.lines) && 0 <= n < g.lines
    requires LinesDone(g, a, want, n) && OnlyGrid(g, a, a0)
    requires OnlyLine(g, n, b, a) && LineStarts(g, b, n, want[n], g.cols)
    ensures LinesDone(g, b, want, n + 1) && OnlyGrid(g, b, a0)
  {
    forall r, c | 0 <= r < n && 0 <= c < g.cols
      ensures b[Cell(g, r, c)] == want[r][c]
    {
      assert LineStarts(g, a, r, want[r], g.cols);
      if OnLine(g, n, Cell(g, r, c)) {
        var c' :| 0 <= c' < g.cols && Cell(g, n, c') == Cell(g, r, c);
        CellInjective(g, |a|, r, c, n, c');
      }
    }
    assert forall i :: OnLine(g, n, i) ==> OnGrid(g, i);
  }

  lemma AllLinesDone(g: Grid, a: seq<Pixel>, want: Image)
    requires InBounds(g, |a|) && Rect(want, g.cols, g.lines) && LinesDone(g, a, want, g.lines)
    ensures ImageOf(a, g) == want
  {
    forall r | 0 <= r < g.lines
      ensures LineOf(a, g, r) == want[r]
    {
      assert LineStarts(g, a, r, want[r], g.cols);
    }
  }
}
