/** The filters agree: sampled and ring-buffered convolution exactly, convolution and box blur up to rounding. */
module ConvolveAgreement {
  import opened Arithmetic
  import opened Raster
  import opened Sums
  import opened Sampling
  import opened LinearConvolve
  import opened BoxBlur

  // ---------- filterVector and filterHV ----------

  /** Sampling at the centre of a pixel gives that pixel. */
  lemma TentAtCentre(f: Plane, w: int, h: int, i: int, j: int)
    requires ZeroOutside(f, w, h)
    ensures TentSum(f, w, h, i as real + 0.5, j as real + 0.5) == f(i, j)
  {
    hide TentSum, FourTaps;
    TapsAreTents(f, w, h, i as real + 0.5, j as real + 0.5);
    var x, y := (i + 1) as real, (j + 1) as real;
    assert i as real + 0.5 + 0.5 == x && j as real + 0.5 + 0.5 == y;
    if x > 0.0 && y > 0.0 {
      assert Trunc(x) == i + 1 && Trunc(y) == j + 1;
      NoFraction(f(i + 1, j + 1), f(i, j + 1), f(i + 1, j), f(i, j));
    }
  }

  lemma NoFraction(a: real, b: real, c: real, d: real)
    ensures FourTaps(a, b, c, d, 0.0, 0.0) == d
  {
  }

  /** Planes that hold the channels of an image, given line by line. */
  ghost predicate Shows(planes: seq<Plane>, img: Image, w: int, h: int) {
    && Planes(planes, w, h) && |img| == h
    && forall k, i, r :: 0 <= k < 4 && 0 <= r < h ==> planes[k](i, r) == Level(img[r], k, i)
  }

  lemma ImageShown(src: seq<Pixel>, w: nat, h: nat, scan: nat)
    requires HoldsImage(|src|, w, h, scan) && InBounds(Rows(w, h, scan), |src|)
    ensures Shows(ImagePlanes(src, w, h, scan), ImageOf(src, Rows(w, h, scan)), w, h)
  {
    hide Level, InBounds, HoldsImage, Planes;
    forall k, i, r | 0 <= k < 4 && 0 <= r < h
      ensures ImagePlanes(src, w, h, scan)[k](i, r) == Level(ImageOf(src, Rows(w, h, scan))[r], k, i)
    {
      PlaneIsLevel(src, w, h, scan, k, i, r);
    }
  }

  lemma PlaneIsLevel(src: seq<Pixel>, w: int, h: int, scan: nat, k: int, i: int, r: int)
    requires HoldsImage(|src|, w, h, scan) && 0 <= k < 4 && 0 <= r < h
    requires InBounds(Rows(w, h, scan), |src|)
    ensures ImagePlanes(src, w, h, scan)[k](i, r) == Level(LineOf(src, Rows(w, h, scan), r), k, i)
  {
    if 0 <= i < w {
      LineCell(src, Rows(w, h, scan), r, i);
    }
  }

  /** Unit steps along the rows, the last tap on the pixel itself. */
  function AlongRows(count: int): Geometry {
    Geometry(0.0, 0.0, -((count - 1) as real), 0.0, 1.0, 0.0, 1.0, 0.0, 0.0, 1.0)
  }

  /** Unit steps down the columns, the last tap on the pixel itself. */
  function AlongColumns(count: int): Geometry {
    Geometry(0.0, 0.0, 0.0, -((count - 1) as real), 0.0, 1.0, 1.0, 0.0, 0.0, 1.0)
  }

  lemma AlignedTrack(count: int, r: int, c: int, i: int)
    ensures var t := TrackOf(AlongRows(count), r, c);
            Along(t.x, t.dx, i) == (c - (count - 1) + i) as real + 0.5 && Along(t.y, t.dy, i) == r as real + 0.5
  {
  }

  lemma VectorIsConv(planes: seq<Plane>, img: Image, w: int, h: int, weights: seq<real>, r: int, c: int, k: int)
    requires Shows(planes, img, w, h) && 0 <= k < 4 && 0 <= r < h
    ensures Vector(weights, planes[k], w, h, TrackOf(AlongRows(|weights|), r, c)) == Conv(weights, img[r], k, c)
  {
    hide TentSum, TrackOf, Along, Level, ZeroOutside;
    var n := |weights|;
    var f, g := VectorTerm(weights, planes[k], w, h, TrackOf(AlongRows(n), r, c)), ConvTerm(weights, img[r], k, c);
    forall i | 0 <= i < n
      ensures f(i) == g(0 + n - 1 - i)
    {
      var x := c - (n - 1) + i;
      AlignedTrack(n, r, c, i);
      TentAtCentre(planes[k], w, h, x, r);
      assert planes[k](x, r) == Level(img[r], k, x);
    }
    SumReversed(f, g, 0, n, 0);
  }

  lemma SamePixel(planes: seq<Plane>, img: Image, w: int, h: int, weights: seq<real>, r: int, c: int)
    requires Shows(planes, img, w, h) && 0 <= r < h
    ensures VectorPixel(weights, planes, w, h, TrackOf(AlongRows(|weights|), r, c)) == ConvPixel(weights, img[r], c)
  {
    hide Vector, Conv, ToByte, Pack, TrackOf;
    VectorIsConv(planes, img, w, h, weights, r, c, A);
    VectorIsConv(planes, img, w, h, weights, r, c, R);
    VectorIsConv(planes, img, w, h, weights, r, c, G);
    VectorIsConv(planes, img, w, h, weights, r, c, B);
  }

  lemma SameLines(planes: seq<Plane>, img: Image, w: int, h: int, weights: seq<real>, n: nat, lines: nat)
    requires Shows(planes, img, w, h) && lines <= h
    ensures VectorLines(weights, planes, w, h, AlongRows(|weights|), n, lines) == ConvLines(weights, img[..lines], n)
  {
    hide VectorPixel, ConvPixel;
    forall r | 0 <= r < lines
      ensures VectorLine(weights, planes, w, h, AlongRows(|weights|), r, n) == ConvLine(weights, img[r], n)
    {
      forall c | 0 <= c < n
        ensures VectorPixel(weights, planes, w, h, TrackOf(AlongRows(|weights|), r, c))
                == ConvPixel(weights, img[r], c)
      {
        SamePixel(planes, img, w, h, weights, r, c);
      }
    }
  }

  /**
   * With unit steps along the rows, `FilterVector` writes the image that `FilterHV` writes, for every image, size and
   * kernel.
   */
  lemma VectorAgreesWithHV(src: seq<Pixel>, w: int, h: int, scan: nat, weights: seq<real>, n: nat, lines: nat)
    requires HoldsImage(|src|, w, h, scan) && lines <= h && InBounds(Rows(w, h, scan), |src|)
    ensures VectorLines(weights, ImagePlanes(src, w, h, scan), w, h, AlongRows(|weights|), n, lines)
            == ConvLines(weights, ImageOf(src, Rows(w, h, scan))[..lines], n)
  {
    hide VectorLines, ConvLines, ImagePlanes, ImageOf, InBounds, HoldsImage, Shows;
    ImageShown(src, w, h, scan);
    SameLines(ImagePlanes(src, w, h, scan), ImageOf(src, Rows(w, h, scan)), w, h, weights, n, lines);
  }

  // ---------- Exchanging rows and columns ----------

  ghost function Flipped(planes: seq<Plane>): (flipped: seq<Plane>)
    requires |planes| == 4
    ensures |flipped| == 4 && forall k, i, j :: 0 <= k < 4 ==> flipped[k](i, j) == planes[k](j, i)
  {
    seq(4, k requires 0 <= k < 4 => (i, j) => planes[k](j, i))
  }

  /** The same call with x and y, and the rows and columns of the destination, exchanged. */
  function FlippedGeometry(g: Geometry): Geometry {
    Geometry(g.srcy0, g.srcx0, g.offsety, g.offsetx, g.deltay, g.deltax, g.dyrow, g.dxrow, g.dycol, g.dxcol)
  }

  lemma FourTapsFlip(a: real, b: real, c: real, d: real, fx: real, fy: real)
    ensures FourTaps(a, b, c, d, fx, fy) == FourTaps(a, c, b, d, fy, fx)
  {
    assert fx * fy == fy * fx;
  }

  /** The tent is the same in both directions. */
  lemma TentFlip(f: Plane, g: Plane, w: int, h: int, x: real, y: real)
    requires ZeroOutside(f, w, h) && ZeroOutside(g, h, w) && forall i, j :: g(i, j) == f(j, i)
    ensures TentSum(g, h, w, y, x) == TentSum(f, w, h, x, y)
  {
    hide TentSum, FourTaps, ZeroOutside, Trunc;
    TapsAreTents(f, w, h, x, y);
    TapsAreTents(g, h, w, y, x);
    var x', y' := x + 0.5, y + 0.5;
    var p, q := Trunc(x'), Trunc(y');
    FourTapsFlip(f(p, q), f(p - 1, q), f(p, q - 1), f(p - 1, q - 1), x' - p as real, y' - q as real);
  }

  lemma TrackFlip(g: Geometry, r: int, c: int)
    ensures var t := TrackOf(g, r, c);
            TrackOf(FlippedGeometry(g), c, r) == Track(t.y, t.x, t.dy, t.dx)
  {
    hide Along;
    StepsCommute(g.srcx0, g.dxrow, g.dxcol, r, c);
    StepsCommute(g.srcy0, g.dyrow, g.dycol, r, c);
  }

  lemma StepsCommute(start: real, drow: real, dcol: real, r: int, c: int)
    ensures Along(Along(start + (drow + dcol) * 0.5, drow, r), dcol, c)
            == Along(Along(start + (dcol + drow) * 0.5, dcol, c), drow, r)
  {
  }

  lemma VectorFlip(weights: seq<real>, f: Plane, g: Plane, w: int, h: int, t: Track)
    requires ZeroOutside(f, w, h) && ZeroOutside(g, h, w) && forall i, j :: g(i, j) == f(j, i)
    ensures Vector(weights, g, h, w, Track(t.y, t.x, t.dy, t.dx)) == Vector(weights, f, w, h, t)
  {
    hide TentSum, ZeroOutside, Along;
    var a, b := VectorTerm(weights, g, h, w, Track(t.y, t.x, t.dy, t.dx)), VectorTerm(weights, f, w, h, t);
    forall i | 0 <= i < |weights|
      ensures a(i) == 1.0 * b(i)
    {
      TentFlip(f, g, w, h, Along(t.x, t.dx, i), Along(t.y, t.dy, i));
    }
    SumScaled(b, a, 1.0, 0, |weights|);
  }

  lemma PixelFlip(weights: seq<real>, planes: seq<Plane>, w: int, h: int, g: Geometry, r: int, c: int)
    requires Planes(planes, w, h)
    ensures VectorPixel(weights, Flipped(planes), h, w, TrackOf(FlippedGeometry(g), c, r))
            == VectorPixel(weights, planes, w, h, TrackOf(g, r, c))
  {
    hide Vector, ToByte, Pack, TrackOf;
    TrackFlip(g, r, c);
    forall k | 0 <= k < 4
      ensures Vector(weights, Flipped(planes)[k], h, w, TrackOf(FlippedGeometry(g), c, r))
              == Vector(weights, planes[k], w, h, TrackOf(g, r, c))
    {
      VectorFlip(weights, planes[k], Flipped(planes)[k], w, h, TrackOf(g, r, c));
    }
  }

  /** For every geometry: exchanging x and y in the source and in the geometry transposes the result. */
  lemma VectorTransposes(weights: seq<real>, planes: seq<Plane>, w: int, h: int, g: Geometry, n: nat, lines: nat)
    requires Planes(planes, w, h)
    ensures VectorLines(weights, Flipped(planes), h, w, FlippedGeometry(g), lines, n)
            == Transpose(VectorLines(weights, planes, w, h, g, n, lines), n, lines)
  {
    hide VectorPixel, TrackOf, FlippedGeometry, Flipped;
    var a := VectorLines(weights, Flipped(planes), h, w, FlippedGeometry(g), lines, n);
    var b := Transpose(VectorLines(weights, planes, w, h, g, n, lines), n, lines);
    forall c | 0 <= c < n
      ensures a[c] == b[c]
    {
      forall r | 0 <= r < lines
        ensures a[c][r] == b[c][r]
      {
        PixelFlip(weights, planes, w, h, g, r, c);
      }
    }
  }

  lemma FlippedShown(planes: seq<Plane>, img: Image, w: nat, h: nat)
    requires Shows(planes, img, w, h) && Rect(img, w, h)
    ensures Shows(Flipped(planes), Transpose(img, w, h), h, w)
  {
    var t := Transpose(img, w, h);
    forall k, i, r | 0 <= k < 4 && 0 <= r < w
      ensures Flipped(planes)[k](i, r) == Level(t[r], k, i)
    {
      assert Flipped(planes)[k](i, r) == planes[k](r, i);
      if 0 <= i < h {
        assert planes[k](r, i) == Level(img[i], k, r);
      }
    }
  }

  /** With unit steps down the columns the result, transposed, is the convolution of the columns. */
  lemma VectorAgreesWithColumns(src: seq<Pixel>, w: nat, h: nat, scan: nat, weights: seq<real>, n: nat, lines: nat)
    requires HoldsImage(|src|, w, h, scan) && n <= w && InBounds(Rows(w, h, scan), |src|)
    ensures Transpose(VectorLines(weights, ImagePlanes(src, w, h, scan), w, h, AlongColumns(|weights|), n, lines),
                      n, lines)
            == ConvLines(weights, Transpose(ImageOf(src, Rows(w, h, scan)), w, h)[..n], lines)
  {
    hide VectorLines, ConvLines, ImagePlanes, InBounds, HoldsImage, Shows, Transpose;
    var planes, img := ImagePlanes(src, w, h, scan), ImageOf(src, Rows(w, h, scan));
    ImageShown(src, w, h, scan);
    FlippedShown(planes, img, w, h);
    VectorTransposes(weights, planes, w, h, AlongColumns(|weights|), n, lines);
    assert FlippedGeometry(AlongColumns(|weights|)) == AlongRows(|weights|);
    SameLines(Flipped(planes), Transpose(img, w, h), h, w, weights, lines, n);
  }

  // ---------- The filters, called both ways ----------

  /** Both filters, called on buffers of their own with the same kernel, leave the same image. */
  method FilterBothWays(src: seq<Pixel>, srcw: int, srch: int, srcscan: nat, weights: seq<real>,
                        vec: array<Pixel>, hv: array<Pixel>, dstw: nat, dsth: nat, vecscan: nat, hvscan: nat)
    requires vec != hv && 0 < |weights| <= MAX_KERNEL && HoldsImage(|src|, srcw, srch, srcscan)
    requires HoldsImage(vec.Length, dstw, dsth, vecscan) && HoldsImage(hv.Length, dstw, dsth, hvscan)
    requires !CheckRange(hv.Length, dstw, dsth, |src|, srcw, srch) && dsth <= srch
    modifies vec, hv
    ensures InBounds(Rows(dstw, dsth, vecscan), vec.Length) && InBounds(Rows(dstw, dsth, hvscan), hv.Length)
    ensures ImageOf(vec[..], Rows(dstw, dsth, vecscan)) == ImageOf(hv[..], Rows(dstw, dsth, hvscan))
  {
    hide CheckRange, Fits, InBounds, OnlyGrid, ImageOf, VectorLines, ConvLines, ImagePlanes;
    var count := |weights|;
    var kvals := weights + weights;
    FilterVector(vec, dstw, dsth, vecscan, src, srcw, srch, srcscan, weights, count, AlongRows(count));
    FilterHV(hv, dstw, dsth, 1, hvscan, src, srcw, srch, 1, srcscan, kvals);
    assert weights[..count] == weights && kvals[..|kvals| / 2] == weights;
    VectorAgreesWithHV(src, srcw, srch, srcscan, weights, dstw, dsth);
  }

  /** So they do down the columns, where `FilterHV` gets the increments exchanged. */
  method FilterBothWaysDown(src: seq<Pixel>, srcw: int, srch: int, srcscan: nat, weights: seq<real>,
                            vec: array<Pixel>, hv: array<Pixel>, dstw: nat, dsth: nat, vecscan: nat, hvscan: nat)
    requires vec != hv && 0 < |weights| <= MAX_KERNEL && HoldsImage(|src|, srcw, srch, srcscan)
    requires HoldsImage(vec.Length, dstw, dsth, vecscan) && HoldsImage(hv.Length, dstw, dsth, hvscan)
    requires !CheckRange(hv.Length, dsth, dstw, |src|, srch, srcw) && dstw <= srcw
    modifies vec, hv
    ensures InBounds(Rows(dstw, dsth, vecscan), vec.Length) && InBounds(Rows(dstw, dsth, hvscan), hv.Length)
    ensures ImageOf(vec[..], Rows(dstw, dsth, vecscan)) == ImageOf(hv[..], Rows(dstw, dsth, hvscan))
  {
    hide CheckRange, Fits, InBounds, OnlyGrid, ImageOf, VectorLines, ConvLines, ImagePlanes, Transpose, HoldsImage;
    var count := |weights|;
    var kvals := weights + weights;
    FilterVector(vec, dstw, dsth, vecscan, src, srcw, srch, srcscan, weights, count, AlongColumns(count));
    ColumnsFit(hv.Length, dstw, dsth, hvscan);
    ColumnsFit(|src|, srcw, srch, srcscan);
    FilterHV(hv, dsth, dstw, hvscan, 1, src, srch, srcw, srcscan, 1, kvals);
    assert weights[..count] == weights && kvals[..|kvals| / 2] == weights;
    ColumnsAreTransposedRows(src, srcw, srch, srcscan);
    ColumnsAreTransposedRows(hv[..], dstw, dsth, hvscan);
    VectorAgreesWithColumns(src, srcw, srch, srcscan, weights, dstw, dsth);
    SameTransposed(ImageOf(vec[..], Rows(dstw, dsth, vecscan)), ImageOf(hv[..], Rows(dstw, dsth, hvscan)), dstw, dsth);
  }

  lemma SameTransposed(a: Image, b: Image, w: nat, h: nat)
    requires Rect(a, w, h) && Rect(b, w, h) && Transpose(a, w, h) == Transpose(b, w, h)
    ensures a == b
  {
    forall y | 0 <= y < h
      ensures a[y] == b[y]
    {
      forall x | 0 <= x < w
        ensures a[y][x] == b[y][x]
      {
        assert Transpose(a, w, h)[x][y] == a[y][x] && Transpose(b, w, h)[x][y] == b[y][x];
      }
    }
  }

  // ---------- The unit kernel ----------

  /**
   * Within 0..255 the clamp and cast lose less than one, add at most 1/32, and keep bytes. They give 0 exactly below 1
   * and 255 exactly above 255 - 1/32, and cut in between.
   */
  lemma ToByteNear(f: real)
    ensures 0.0 <= f <= 255.0 ==> f - 1.0 < ToByte(f) as real <= f + 1.0 / 32.0
    ensures ToByte(f) == 0 <==> f < 1.0
    ensures ToByte(f) == 255 <==> f > 255.0 - 1.0 / 32.0
    ensures 0.0 <= f <= 255.0 - 1.0 / 32.0 ==> ToByte(f) == f.Floor
    ensures 0.0 <= f <= 255.0 && f.Floor as real == f ==> ToByte(f) as real == f
  {
  }

  /** The kernel 1 copies the line. */
  lemma UnitKernelCopies(line: Line)
    ensures ConvLine([1.0], line, |line|) == line
  {
    hide ConvPixel;
    forall c | 0 <= c < |line|
      ensures ConvPixel([1.0], line, c) == line[c]
    {
      UnitKernelPixel(line, c);
    }
  }

  lemma UnitKernelPixel(line: Line, c: int)
    requires 0 <= c < |line|
    ensures ConvPixel([1.0], line, c) == line[c]
  {
    hide Conv, ToByte, Channel, Pack;
    UnitKernelChannel(line, A, c);
    UnitKernelChannel(line, R, c);
    UnitKernelChannel(line, G, c);
    UnitKernelChannel(line, B, c);
    PackOfChannels(line[c]);
  }

  lemma UnitKernelChannel(line: Line, k: int, c: int)
    requires 0 <= c < |line|
    ensures ToByte(Conv([1.0], line, k, c)) == Channel(line[c], k)
  {
    hide ToByte, Channel, Conv;
    var v := Channel(line[c], k);
    UnitConv(line, k, c);
    assert (v as real).Floor == v;
    ToByteNear(v as real);
  }

  lemma UnitConv(line: Line, k: int, c: int)
    ensures Conv([1.0], line, k, c) == Level(line, k, c)
  {
    hide Level;
    var kernel := [1.0];
    var f := ConvTerm(kernel, line, k, c);
    assert Sum(f, 0, 1) == Sum(f, 0, 0) + f(0);
    assert kernel[0] == 1.0;
    assert f(0) == Level(line, k, c - 0) * kernel[0];
  }

  /** A single pixel spreads out as the kernel, its last weight first. */
  lemma ImpulseResponse(kernel: seq<real>, p: Pixel, k: int, c: int)
    requires 0 <= c < |kernel|
    ensures Conv(kernel, [p], k, c) == Channel(p, k) as real * kernel[|kernel| - 1 - c]
  {
    hide Channel;
    var line, n := [p], |kernel|;
    var f := ConvTerm(kernel, line, k, c);
    forall d | 0 <= d < n && d != c
      ensures f(d) == 0.0
    {
      NoLevel(line, k, c - d);
    }
    SumSplit(f, 0, c, n);
    SumSplit(f, c, c + 1, n);
    SumZero(f, 0, c);
    SumZero(f, c + 1, n);
    assert Sum(f, c, c + 1) == Sum(f, c, c) + f(c);
    assert f(c) == Level(line, k, c - c) * kernel[n - 1 - c];
  }

  lemma NoLevel(line: Line, k: int, x: int)
    requires !(0 <= x < |line|)
    ensures Level(line, k, x) == 0.0
  {
  }

  // ---------- Box blur and uniform convolution ----------

  function Uniform(size: nat): (kernel: seq<real>)
    requires size > 0
    ensures |kernel| == size && forall i :: 0 <= i < size ==> kernel[i] == 1.0 / size as real
  {
    seq(size, _ => 1.0 / size as real)
  }

  ghost function LevelTerm(line: Line, k: int, x: int): int -> real {
    d => Level(line, k, x - d)
  }

  lemma LevelIsAt(line: Line, k: int, x: int)
    ensures Level(line, k, x) == At(Bytes(line, k), x) as real
  {
    if 0 <= x < |line| {
      assert Bytes(line, k)[x] == Channel(line[x], k);
    }
  }

  lemma {:induction false} LevelsAreWindow(line: Line, k: int, x: int, n: nat)
    requires R <= k <= A
    ensures Sum(LevelTerm(line, k, x), 0, n) == WindowSum(Bytes(line, k), x + 1 - n, x + 1) as real
  {
    if n > 0 {
      LevelsAreWindow(line, k, x, n - 1);
      LevelIsAt(line, k, x + 1 - n);
      assert x - (n - 1) == x + 1 - n;
      DropFirst(Bytes(line, k), x + 1 - n, x + 1);
    }
  }

  /** Convolution with a uniform kernel is the mean of the box blur's window. */
  lemma UniformConvIsMean(line: Line, k: int, size: nat, x: int)
    requires size > 0 && R <= k <= A
    ensures Conv(Uniform(size), line, k, x) == Window(line, k, size, x) as real / size as real
  {
    hide Level, WindowSum;
    LevelsAreWindow(line, k, x, size);
    var u := 1.0 / size as real;
    UniformTerms(line, k, size, x, u);
    SumScaled(LevelTerm(line, k, x), ConvTerm(Uniform(size), line, k, x), u, 0, size);
    Inverse(Window(line, k, size, x) as real, size as real);
  }

  lemma UniformTerms(line: Line, k: int, size: nat, x: int, u: real)
    requires size > 0 && u == 1.0 / size as real
    ensures forall d :: 0 <= d < size ==> ConvTerm(Uniform(size), line, k, x)(d) == u * LevelTerm(line, k, x)(d)
  {
    hide Level;
    var kernel := Uniform(size);
    forall d | 0 <= d < size
      ensures ConvTerm(Uniform(size), line, k, x)(d) == u * LevelTerm(line, k, x)(d)
    {
      assert kernel[size - 1 - d] == u;
    }
  }

  lemma Inverse(a: real, b: real)
    requires b != 0.0
    ensures 1.0 / b * a == a / b
  {
  }

  lemma RoundedMean(sum: int, size: int)
    requires size > 0 && 0 <= sum <= 255 * size
    ensures sum / size <= ToByte(sum as real / size as real) <= sum / size + 1
  {
    var q, m := sum / size, sum as real / size as real;
    QuotientIsByte(sum, size, q);
    MeanFloor(sum, size, q);
  }

  lemma MeanFloor(sum: int, size: int, q: int)
    requires size > 0 && q * size <= sum < (q + 1) * size
    ensures q as real <= sum as real / size as real < (q + 1) as real
  {
    assert (q * size) as real == q as real * size as real;
    assert ((q + 1) * size) as real == (q + 1) as real * size as real;
  }

  /** For every line, position and channel, box blur and uniform convolution differ by at most one. */
  lemma BoxNearUniform(line: Line, k: int, size: nat, x: int)
    requires R <= k <= A && 0 < size <= MAX_KERNEL
    ensures var d := Channel(BlurPixel(line, size, x), k) - Channel(ConvPixel(Uniform(size), line, x), k);
            -1 <= d <= 1
  {
    hide KScale, Scale, Window, Conv, ToByte;
    UniformConvIsMean(line, k, size, x);
    SmallWindowsAreFullScale(size);
    ScaleIsMean(Window(line, k, size, x), size);
    RoundedMean(Window(line, k, size, x), size);
  }
}
