/** The box blur filters: a sliding window sum scaled in fixed point. */
module BoxBlur {
  import opened Arithmetic
  import opened Raster

  // ---------- Window sums ----------

  function At(s: seq<int>, i: int): int {
    if 0 <= i < |s| then s[i] else 0
  }

  /** The sum of s over lo..hi, with zeros outside the sequence. */
  ghost function WindowSum(s: seq<int>, lo: int, hi: int): int
    decreases hi - lo
  {
    if hi <= lo then 0 else WindowSum(s, lo, hi - 1) + At(s, hi - 1)
  }

  lemma {:induction false} DropFirst(s: seq<int>, lo: int, hi: int)
    requires lo < hi
    ensures WindowSum(s, lo, hi) == At(s, lo) + WindowSum(s, lo + 1, hi)
    decreases hi - lo
  {
    if lo + 1 < hi {
      DropFirst(s, lo, hi - 1);
    }
  }

  /** Values between m and M sum to something between (hi - lo) times m and M. */
  lemma {:induction false} WindowSumBounds(s: seq<int>, lo: int, hi: int, m: int, M: int)
    requires lo <= hi && forall i :: lo <= i < hi ==> m <= At(s, i) <= M
    ensures (hi - lo) * m <= WindowSum(s, lo, hi) <= (hi - lo) * M
    decreases hi - lo
  {
    if lo < hi {
      WindowSumBounds(s, lo, hi - 1, m, M);
      assert (hi - lo) * m == (hi - 1 - lo) * m + m && (hi - lo) * M == (hi - 1 - lo) * M + M;
    }
  }

  lemma {:induction false} WindowSumMonotone(s: seq<int>, t: seq<int>, lo: int, hi: int)
    requires forall i :: lo <= i < hi ==> At(s, i) <= At(t, i)
    ensures WindowSum(s, lo, hi) <= WindowSum(t, lo, hi)
    decreases hi - lo
  {
    if lo < hi {
      WindowSumMonotone(s, t, lo, hi - 1);
    }
  }

  lemma {:induction false} WindowSumMirror(s: seq<int>, t: seq<int>, n: int, lo: int, hi: int)
    requires lo <= hi && forall i :: lo <= i < hi ==> At(t, i) == At(s, n - 1 - i)
    ensures WindowSum(t, lo, hi) == WindowSum(s, n - hi, n - lo)
    decreases hi - lo
  {
    if lo < hi {
      WindowSumMirror(s, t, n, lo, hi - 1);
      DropFirst(s, n - hi, n - lo);
    }
  }

  // ---------- Fixed-point scaling ----------

  const ONE := 0x80_0000 // 2^23

  /** `0x7fffffff / (size * 255)` */
  function KScale(size: int): (k: int)
    requires size > 0
    ensures 0 <= k
  {
    QuotientNonNegative(INT_MAX, size * 255);
    INT_MAX / (size * 255)
  }

  /** `(sum * kscale) >> 23`, within a `jint` */
  function Scale(sum: int, kscale: int): int
    requires 0 <= sum * kscale <= INT_MAX
  {
    sum * kscale / ONE
  }

  /** The defining property of the scale factor. */
  lemma KScaleExact(size: int)
    requires size > 0
    ensures 0 <= 255 * (size * KScale(size)) <= INT_MAX < 255 * (size * (KScale(size) + 1))
  {
    var k, d := KScale(size), size * 255;
    QuotientNonNegative(INT_MAX, d);
    assert k * d == 255 * (size * k) && k * d + d == 255 * (size * (k + 1));
  }

  lemma QuotientMonotone(v: int, v': int)
    requires v <= v'
    ensures v / ONE <= v' / ONE
  {
  }

  lemma ScaledByte(v: int)
    requires 0 <= v <= INT_MAX
    ensures IsByte(v / ONE)
  {
  }

  /** No window sum overflows when scaled, and the result is a byte. */
  lemma ScaleIsByte(sum: int, size: int)
    requires size > 0 && 0 <= sum <= 255 * size
    ensures 0 <= sum * KScale(size) <= INT_MAX && IsByte(Scale(sum, KScale(size)))
  {
    var k := KScale(size);
    KScaleExact(size);
    assert (255 * size) * k == 255 * (size * k);
    ProductMonotone(0, sum, k);
    ProductMonotone(sum, 255 * size, k);
    ScaledByte(sum * k);
  }

  lemma ScaleMonotone(sum: int, sum': int, size: int)
    requires size > 0 && 0 <= sum <= sum' <= 255 * size
    ensures 0 <= sum * KScale(size) <= sum' * KScale(size) <= INT_MAX
    ensures Scale(sum, KScale(size)) <= Scale(sum', KScale(size))
  {
    hide KScale;
    ScaleIsByte(sum, size);
    ScaleIsByte(sum', size);
    ProductMonotone(sum, sum', KScale(size));
    QuotientMonotone(sum * KScale(size), sum' * KScale(size));
  }

  /** A window of this size is scaled by at least one: what the blur needs to keep the brightness of an image. */
  predicate FullScale(size: int)
    requires size > 0
  {
    size * KScale(size) >= ONE
  }

  /** Every window up to 33025 is of full scale. */
  lemma SmallWindowsAreFullScale(size: int)
    requires 0 < size <= 33025
    ensures FullScale(size)
  {
    KScaleExact(size);
    var k := KScale(size);
    assert size * (k + 1) == size * k + size;
    if size > 32896 {
      ScaleOfLargeWindow(size, k);
    }
  }

  lemma ScaleOfLargeWindow(size: int, k: int)
    requires 32896 < size <= 33025 && INT_MAX < 255 * (size * (k + 1))
    ensures size * k >= ONE
  {
    assert size * 255 <= 33025 * 255;
    MultipleAtLeast(k - 254, size);
    MultipleAtLeast(254 - k, size);
    assert (k - 254) * size == size * k - 254 * size && (254 - k) * size == 254 * size - size * k;
    assert size * (k + 1) == size * k + size;
  }

  /** The next window is not: it is the smallest that darkens an image. */
  lemma FirstDarkeningWindow()
    ensures !FullScale(33026)
    ensures Scale(255 * 33026, KScale(33026)) == 254
  {
    assert KScale(33026) == 254;
  }

  lemma ScaledConstant(c: int, u: int)
    requires IsByte(c) && 0 <= 255 * u <= INT_MAX
    ensures c * u / ONE <= c
    ensures u >= ONE ==> c * u / ONE == c
    ensures c > 0 && u < ONE ==> c * u / ONE < c
  {
    if u >= ONE {
      var e := u - ONE;
      assert c * u == c * ONE + c * e;
      ProductMonotone(0, c, e);
      ProductMonotone(c, 255, e);
    } else {
      ProductMonotone(u + 1, ONE, c);
      assert (u + 1) * c == c * u + c;
    }
  }

  /** A window holding only the value c > 0 comes out as c if the window is of full scale, and darker if it is not. */
  lemma ConstantsReproduced(c: int, size: int)
    requires size > 0 && IsByte(c)
    ensures 0 <= c * size * KScale(size) <= INT_MAX
    ensures c > 0 ==> (FullScale(size) <==> Scale(c * size, KScale(size)) == c)
    ensures Scale(c * size, KScale(size)) <= c
  {
    var k := KScale(size);
    ProductMonotone(0, c, size);
    ProductMonotone(c, 255, size);
    ScaleIsByte(c * size, size);
    KScaleExact(size);
    assert c * size * k == c * (size * k);
    ScaledConstant(c, size * k);
  }

  /** The scaled sum is the mean rounded down, or one more. */
  lemma ScaleIsMean(sum: int, size: int)
    requires size > 0 && 0 <= sum <= 255 * size && FullScale(size)
    ensures 0 <= sum * KScale(size) <= INT_MAX
    ensures sum / size <= Scale(sum, KScale(size)) <= sum / size + 1
  {
    MeanBounds(sum, size, sum / size);
  }

  lemma MeanBounds(sum: int, size: int, q: int)
    requires size > 0 && 0 <= sum <= 255 * size && FullScale(size)
    requires q * size <= sum < (q + 1) * size
    ensures 0 <= sum * KScale(size) <= INT_MAX
    ensures q <= Scale(sum, KScale(size)) <= q + 1
  {
    ScaleIsByte(sum, size);
    QuotientIsByte(sum, size, q);
    ConstantsReproduced(q, size);
    ProductMonotone(0, q, size);
    ScaleMonotone(q * size, sum, size);
    if q < 255 {
      ConstantsReproduced(q + 1, size);
      ProductMonotone(q + 1, 255, size);
      ScaleMonotone(sum, (q + 1) * size, size);
    }
  }

  lemma QuotientIsByte(sum: int, size: int, q: int)
    requires size > 0 && 0 <= sum <= 255 * size && q * size <= sum < (q + 1) * size
    ensures IsByte(q)
  {
    MultipleAtLeast(q + 1, size);
    MultipleAtLeast(q - 255, size);
    assert (q - 255) * size == q * size - 255 * size;
  }

  // ---------- The filter on one line ----------

  function Bytes(line: Line, k: int): (s: seq<int>)
    ensures |s| == |line| && forall i :: 0 <= i < |s| ==> s[i] == Channel(line[i], k) && IsByte(s[i])
  {
    seq(|line|, i requires 0 <= i < |line| => Channel(line[i], k))
  }

  /** The window sum of channel k that ends at position x. */
  ghost function Window(line: Line, k: int, size: int, x: int): (v: int)
    requires size > 0
    ensures 0 <= v <= 255 * size
  {
    WindowSumBounds(Bytes(line, k), x + 1 - size, x + 1, 0, 255);
    WindowSum(Bytes(line, k), x + 1 - size, x + 1)
  }

  ghost function BlurChannel(line: Line, k: int, size: int, x: int): (v: int)
    requires size > 0
    ensures IsByte(v)
  {
    ScaleIsByte(Window(line, k, size, x), size);
    Scale(Window(line, k, size, x), KScale(size))
  }

  ghost function BlurPixel(line: Line, size: int, x: int): (p: Pixel)
    requires size > 0
    ensures Channel(p, A) == BlurChannel(line, A, size, x) && Channel(p, R) == BlurChannel(line, R, size, x)
    ensures Channel(p, G) == BlurChannel(line, G, size, x) && Channel(p, B) == BlurChannel(line, B, size, x)
  {
    Pack(BlurChannel(line, A, size, x), BlurChannel(line, R, size, x),
         BlurChannel(line, G, size, x), BlurChannel(line, B, size, x))
  }

  /** A line blurred to length n; the growth of the line gives the window. */
  ghost function BlurLine(line: Line, n: int): (out: Line)
    requires |line| <= n
    ensures |out| == n
  {
    seq(n, x requires 0 <= x < n => BlurPixel(line, n - |line| + 1, x))
  }

  ghost function BlurLines(img: Image, n: nat): (out: Image)
    requires forall y :: 0 <= y < |img| ==> |img[y]| <= n
    ensures Rect(out, n, |img|)
  {
    seq(|img|, y requires 0 <= y < |img| => BlurLine(img[y], n))
  }

  // ---------- The filters ----------

  /** Sizes the filters do not refuse; `across` is the size that must not grow. */
  predicate Accepted(dstLength: nat, dstw: int, dsth: int, srcLength: nat, srcw: int, srch: int,
                     dstAcross: int, srcAcross: int) {
    !CheckRange(dstLength, dstw, dsth, srcLength, srcw, srch) && dstAcross <= srcAcross
  }

  /**
   * What the callers guarantee: the blurred direction does not shrink and its window is small enough for
   * `size * 255`.
   */
  predicate Grows(dstAlong: int, srcAlong: int) {
    srcAlong <= dstAlong && 255 * (dstAlong - srcAlong + 1) <= INT_MAX
  }

  method FilterHorizontal(dst: array<Pixel>, dstw: int, dsth: int, dstscan: nat,
                          src: seq<Pixel>, srcw: int, srch: int, srcscan: nat)
    requires Accepted(dst.Length, dstw, dsth, |src|, srcw, srch, dsth, srch) ==>
               && Grows(dstw, srcw) && HoldsImage(dst.Length, dstw, dsth, dstscan)
               && HoldsImage(|src|, srcw, srch, srcscan)
    modifies dst
    ensures !Accepted(dst.Length, dstw, dsth, |src|, srcw, srch, dsth, srch) ==> dst[..] == old(dst[..])
    ensures Accepted(dst.Length, dstw, dsth, |src|, srcw, srch, dsth, srch) ==>
              var dg, sg := Rows(dstw, dsth, dstscan), Rows(srcw, srch, srcscan);
              && InBounds(dg, dst.Length) && InBounds(sg, |src|)
              && ImageOf(dst[..], dg) == BlurLines(ImageOf(src, sg)[..dsth], dstw)
              && OnlyGrid(dg, dst[..], old(dst[..]))
  {
    hide CheckRange, Cell, OnlyGrid, OnlyLine, LineStarts, LinesDone, InBounds, BlurLine, LineOf;
    if CheckRange(dst.Length, dstw, dsth, |src|, srcw, srch) || dsth > srch {
      return;
    }
    AcceptedSizes(dst.Length, dstw, dsth, |src|, srcw, srch);
    ghost var dg, sg := Rows(dstw, dsth, dstscan), Rows(srcw, srch, srcscan);
    FitsInBounds(dg, dst.Length);
    FitsInBounds(sg, |src|);
    ghost var want := BlurLines(ImageOf(src, sg)[..dsth], dstw);
    NoLine(dg, dst[..], want);
    var hsize := dstw - srcw + 1;
    var kscale := INT_MAX / (hsize * 255);
    var srcoff, dstoff := 0, 0;
    var y := 0;
    CellSteps(sg, 0, 0);
    CellSteps(dg, 0, 0);
    while y < dsth
      invariant 0 <= y <= dsth && srcoff == Cell(sg, y, 0) && dstoff == Cell(dg, y, 0)
      invariant LinesDone(dg, dst[..], want, y) && OnlyGrid(dg, dst[..], old(dst[..]))
    {
      ghost var before := dst[..];
      BlurRow(dst, dstoff, dstw, src, srcoff, srcw, hsize, kscale, dg, sg, y);
      NextLine(dg, before, want, y, dst[..], old(dst[..]));
      CellSteps(sg, y, 0);
      CellSteps(dg, y, 0);
      srcoff := srcoff + srcscan;
      dstoff := dstoff + dstscan;
      y := y + 1;
    }
    AllLinesDone(dg, dst[..], want);
  }

  /** The inner loop of `filterHorizontal`. */
  method BlurRow(dst: array<Pixel>, dstoff: nat, dstw: int, src: seq<Pixel>, srcoff: nat, srcw: int,
                 hsize: int, kscale: int, ghost dg: Grid, ghost sg: Grid, ghost y: int)
    requires Fits(dg, dst.Length) && InBounds(dg, dst.Length) && InBounds(sg, |src|)
    requires dg.colInc == sg.colInc == 1 && dg.cols == dstw && sg.cols == srcw && 0 <= y < dg.lines && y < sg.lines
    requires srcoff == Cell(sg, y, 0) && dstoff == Cell(dg, y, 0)
    requires hsize == dstw - srcw + 1 > 0 && kscale == KScale(hsize)
    modifies dst
    ensures LineStarts(dg, dst[..], y, BlurLine(LineOf(src, sg, y), dg.cols), dg.cols)
    ensures OnlyLine(dg, y, dst[..], old(dst[..]))
  {
    hide Channel, Pack, KScale, Scale, Sums, OnlyLine, LineStarts, LineOf, InBounds, Fits, Cell, BlurPixel;
    ghost var line := LineOf(src, sg, y);
    ghost var want := BlurLine(line, dg.cols);
    var suma, sumr, sumg, sumb := 0, 0, 0, 0;
    var x := 0;
    EmptyWindow(line, hsize);
    NoCell(dg, dst[..], y, want);
    while x < dstw
      invariant 0 <= x <= dstw
      invariant Sums(line, hsize, x - 1, suma, sumr, sumg, sumb)
      invariant LineStarts(dg, dst[..], y, want, x) && OnlyLine(dg, y, dst[..], old(dst[..]))
    {
      ghost var before := dst[..];
      LineCell(before, dg, y, x);
      if x < srcw {
        LineCell(src, sg, y, x);
      }
      if x >= hsize {
        LineCell(src, sg, y, x - hsize);
      }
      var left: Pixel := if x >= hsize then src[srcoff + x - hsize] else 0;
      suma, sumr := suma - Channel(left, A), sumr - Channel(left, R);
      sumg, sumb := sumg - Channel(left, G), sumb - Channel(left, B);
      var entered: Pixel := if x < srcw then src[srcoff + x] else 0;
      suma, sumr := suma + Channel(entered, A), sumr + Channel(entered, R);
      sumg, sumb := sumg + Channel(entered, G), sumb + Channel(entered, B);
      SlideSums(line, hsize, x, left, entered, suma, sumr, sumg, sumb);
      dst[dstoff + x] := Pack(Scale(suma, kscale), Scale(sumr, kscale), Scale(sumg, kscale), Scale(sumb, kscale));
      NextCell(dg, before, y, want, x, dst[..], old(dst[..]));
      x := x + 1;
    }
  }

  /** `srcoff >= voff` tests for y >= vsize although both sides are flat offsets. */
  lemma FlatTest(x: int, y: int, scan: nat, vsize: int)
    requires 0 <= x < scan
    ensures x + y * scan >= vsize * scan <==> y >= vsize
  {
    MultipleAtLeast(y - vsize, scan);
    MultipleAtLeast(vsize - y, scan);
    assert (y - vsize) * scan == y * scan - vsize * scan;
  }

  /** Columns are blurred as `FilterHorizontal` blurs rows: this is that filter on the transposed image. */
  method FilterVertical(dst: array<Pixel>, dstw: int, dsth: int, dstscan: nat,
                        src: seq<Pixel>, srcw: int, srch: int, srcscan: nat)
    requires Accepted(dst.Length, dstw, dsth, |src|, srcw, srch, dstw, srcw) ==>
               && Grows(dsth, srch) && HoldsImage(dst.Length, dstw, dsth, dstscan)
               && HoldsImage(|src|, srcw, srch, srcscan)
    modifies dst
    ensures !Accepted(dst.Length, dstw, dsth, |src|, srcw, srch, dstw, srcw) ==> dst[..] == old(dst[..])
    ensures Accepted(dst.Length, dstw, dsth, |src|, srcw, srch, dstw, srcw) ==>
              var dg, sg := Rows(dstw, dsth, dstscan), Rows(srcw, srch, srcscan);
              && InBounds(dg, dst.Length) && InBounds(sg, |src|)
              && Transpose(ImageOf(dst[..], dg), dstw, dsth)
                 == BlurLines(Transpose(ImageOf(src, sg), srcw, srch)[..dstw], dsth)
              && OnlyGrid(Columns(dstw, dsth, dstscan), dst[..], old(dst[..]))
  {
    hide CheckRange, Fits, Cell, OnlyGrid, OnlyLine, LineStarts, LinesDone, InBounds, BlurLine, LineOf;
    if CheckRange(dst.Length, dstw, dsth, |src|, srcw, srch) || dstw > srcw {
      return;
    }
    AcceptedSizes(dst.Length, dstw, dsth, |src|, srcw, srch);
    ghost var dg, sg := Columns(dstw, dsth, dstscan), Columns(srcw, srch, srcscan);
    ColumnsFit(dst.Length, dstw, dsth, dstscan);
    ColumnsAreTransposedRows(src, srcw, srch, srcscan);
    FitsInBounds(dg, dst.Length);
    ghost var want := BlurLines(ImageOf(src, sg)[..dstw], dsth);
    NoLine(dg, dst[..], want);
    var vsize := dsth - srch + 1;
    var kscale := INT_MAX / (vsize * 255);
    var voff := vsize * srcscan;
    var x := 0;
    while x < dstw
      invariant 0 <= x <= dstw
      invariant LinesDone(dg, dst[..], want, x) && OnlyGrid(dg, dst[..], old(dst[..]))
    {
      ghost var before := dst[..];
      BlurColumn(dst, x, dsth, dstscan, src, srch, srcscan, vsize, kscale, voff, dg, sg);
      NextLine(dg, before, want, x, dst[..], old(dst[..]));
      x := x + 1;
    }
    AllLinesDone(dg, dst[..], want);
    ColumnsAreTransposedRows(dst[..], dstw, dsth, dstscan);
  }

  /** The inner loop of `filterVertical`. */
  method BlurColumn(dst: array<Pixel>, x: nat, dsth: nat, dstscan: nat, src: seq<Pixel>, srch: nat, srcscan: nat,
                    vsize: int, kscale: int, voff: int, ghost dg: Grid, ghost sg: Grid)
    requires Fits(dg, dst.Length) && InBounds(dg, dst.Length) && InBounds(sg, |src|) && x < dg.lines && x < sg.lines
    requires dg == Grid(dg.lines, 1, dsth, dstscan) && sg == Grid(sg.lines, 1, srch, srcscan) && x < srcscan
    requires vsize == dsth - srch + 1 > 0 && kscale == KScale(vsize) && voff == vsize * srcscan
    modifies dst
    ensures LineStarts(dg, dst[..], x, BlurLine(LineOf(src, sg, x), dg.cols), dg.cols)
    ensures OnlyLine(dg, x, dst[..], old(dst[..]))
  {
    hide Channel, Pack, KScale, Scale, Sums, OnlyLine, LineStarts, LineOf, InBounds, Fits, Cell, BlurPixel;
    ghost var line := LineOf(src, sg, x);
    ghost var want := BlurLine(line, dg.cols);
    var suma, sumr, sumg, sumb := 0, 0, 0, 0;
    var srcoff, dstoff: nat := x, x;
    var y := 0;
    CellSteps(sg, x, 0);
    CellSteps(dg, x, 0);
    EmptyWindow(line, vsize);
    NoCell(dg, dst[..], x, want);
    while y < dsth
      invariant 0 <= y <= dsth && srcoff == Cell(sg, x, y) && dstoff == Cell(dg, x, y)
      invariant Sums(line, vsize, y - 1, suma, sumr, sumg, sumb)
      invariant LineStarts(dg, dst[..], x, want, y) && OnlyLine(dg, x, dst[..], old(dst[..]))
    {
      ghost var before := dst[..];
      LineCell(before, dg, x, y);
      if y < srch {
        LineCell(src, sg, x, y);
      }
      Leaving(src, sg, x, y, vsize);
      var left: Pixel := if srcoff >= voff then src[srcoff - voff] else 0;
      suma, sumr := suma - Channel(left, A), sumr - Channel(left, R);
      sumg, sumb := sumg - Channel(left, G), sumb - Channel(left, B);
      var entered: Pixel := if y < srch then src[srcoff] else 0;
      suma, sumr := suma + Channel(entered, A), sumr + Channel(entered, R);
      sumg, sumb := sumg + Channel(entered, G), sumb + Channel(entered, B);
      SlideSums(line, vsize, y, left, entered, suma, sumr, sumg, sumb);
      dst[dstoff] := Pack(Scale(suma, kscale), Scale(sumr, kscale), Scale(sumg, kscale), Scale(sumb, kscale));
      NextCell(dg, before, x, want, y, dst[..], old(dst[..]));
      CellSteps(sg, x, y);
      CellSteps(dg, x, y);
      srcoff := srcoff + srcscan;
      dstoff := dstoff + dstscan;
      y := y + 1;
    }
  }

  /** The pixel that leaves the window of column x when row y enters. */
  lemma Leaving(src: seq<Pixel>, g: Grid, x: nat, y: nat, vsize: int)
    requires InBounds(g, |src|) && g.lineInc == 1 && x < g.lines && x < g.colInc && 0 < vsize && y - vsize < g.cols
    ensures Cell(g, x, y) >= vsize * g.colInc <==> y >= vsize
    ensures y >= vsize ==> 0 <= Cell(g, x, y) - vsize * g.colInc < |src|
    ensures y >= vsize ==> src[Cell(g, x, y) - vsize * g.colInc] == LineOf(src, g, x)[y - vsize]
  {
    FlatTest(x, y, g.colInc, vsize);
    if y >= vsize {
      LineCell(src, g, x, y - vsize);
      assert (y - vsize) * g.colInc == y * g.colInc - vsize * g.colInc;
    }
  }

  ghost predicate Sums(line: Line, size: int, x: int, suma: int, sumr: int, sumg: int, sumb: int)
    requires size > 0
  {
    && suma == Window(line, A, size, x) && sumr == Window(line, R, size, x)
    && sumg == Window(line, G, size, x) && sumb == Window(line, B, size, x)
  }

  lemma EmptyWindow(line: Line, size: int)
    requires size > 0
    ensures Sums(line, size, -1, 0, 0, 0, 0)
  {
    forall k {
      WindowSumBounds(Bytes(line, k), -size, 0, 0, 0);
    }
  }

  /** Moving the window of one channel one position on. */
  lemma Slide(line: Line, k: int, size: int, x: int)
    requires size > 0 && R <= k <= A
    ensures Window(line, k, size, x) == Window(line, k, size, x - 1)
                                        - Channel(Padded(line, x - size), k) + Channel(Padded(line, x), k)
    ensures 0 <= Window(line, k, size, x) * KScale(size) <= INT_MAX
    ensures IsByte(Scale(Window(line, k, size, x), KScale(size)))
  {
    hide Scale, KScale;
    DropFirst(Bytes(line, k), x - size, x + 1);
    ScaleIsByte(Window(line, k, size, x), size);
  }

  /** Moving all four windows; the new sums can be scaled and packed into the blurred pixel. */
  lemma SlideSums(line: Line, size: int, x: int, left: Pixel, entered: Pixel,
                  suma: int, sumr: int, sumg: int, sumb: int)
    requires size > 0 && left == Padded(line, x - size) && entered == Padded(line, x)
    requires Sums(line, size, x - 1,
                  suma + Channel(left, A) - Channel(entered, A), sumr + Channel(left, R) - Channel(entered, R),
                  sumg + Channel(left, G) - Channel(entered, G), sumb + Channel(left, B) - Channel(entered, B))
    ensures Sums(line, size, x, suma, sumr, sumg, sumb)
    ensures var k := KScale(size);
            && 0 <= suma * k <= INT_MAX && 0 <= sumr * k <= INT_MAX
            && 0 <= sumg * k <= INT_MAX && 0 <= sumb * k <= INT_MAX
            && IsByte(Scale(suma, k)) && IsByte(Scale(sumr, k)) && IsByte(Scale(sumg, k)) && IsByte(Scale(sumb, k))
            && Pack(Scale(suma, k), Scale(sumr, k), Scale(sumg, k), Scale(sumb, k)) == BlurPixel(line, size, x)
  {
    hide Channel, Pack, Window, KScale, Scale;
    Slide(line, A, size, x);
    Slide(line, R, size, x);
    Slide(line, G, size, x);
    Slide(line, B, size, x);
  }
}
