/** The linear convolution filters: a ring buffer for rows and columns, sampled taps for any direction. */
module LinearConvolve {
  import opened Arithmetic
  import opened Raster
  import opened Sums
  import opened Sampling

  const MAX_KERNEL := 128

  /** `fvaltobyte` with its bounds `cmin` and `cmax` */
  function ToByte(f: real): (v: int)
    ensures IsByte(v)
  {
    if f < 1.0 then 0 else if f > 255.0 - 1.0 / 32.0 then 255 else Trunc(f)
  }

  // ---------- The reference: direct convolution of a line ----------

  ghost function Level(line: Line, k: int, x: int): real {
    Channel(Padded(line, x), k) as real
  }

  /** The term of the convolution at column c that lies d columns back. */
  ghost function ConvTerm(kernel: seq<real>, line: Line, k: int, c: int): int -> real {
    d => if 0 <= d < |kernel| then Level(line, k, c - d) * kernel[|kernel| - 1 - d] else 0.0
  }

  ghost function Conv(kernel: seq<real>, line: Line, k: int, c: int): real {
    Sum(ConvTerm(kernel, line, k, c), 0, |kernel|)
  }

  ghost function ConvPixel(kernel: seq<real>, line: Line, c: int): Pixel {
    Pack(ToByte(Conv(kernel, line, A, c)), ToByte(Conv(kernel, line, R, c)),
         ToByte(Conv(kernel, line, G, c)), ToByte(Conv(kernel, line, B, c)))
  }

  ghost function ConvLine(kernel: seq<real>, line: Line, n: nat): (out: Line)
    ensures |out| == n
  {
    seq(n, c => ConvPixel(kernel, line, c))
  }

  ghost function ConvLines(kernel: seq<real>, img: Image, n: nat): (out: Image)
    ensures Rect(out, n, |img|)
  {
    seq(|img|, y requires 0 <= y < |img| => ConvLine(kernel, img[y], n))
  }

  // ---------- The ring buffer ----------

  /** A kernel written twice. */
  ghost predicate Doubled(kvals: seq<real>, size: int) {
    |kvals| >= 2 * size && forall i :: 0 <= i < size ==> kvals[i + size] == kvals[i]
  }

  /** How many columns ago slot i was written, when slot `next` is the one to be written now. */
  function Age(size: int, next: int, i: int): int {
    if i < next then next - i else next - i + size
  }

  function NextSlot(size: int, slot: int): int {
    if slot == size - 1 then 0 else slot + 1
  }

  lemma SlotIsColumnModSize(size: int, c: int)
    requires size > 0
    ensures NextSlot(size, c % size) == (c + 1) % size
  {
    NextDigits(size, c);
  }

  /** What the sum over the ring adds for slot i, just after column c was loaded. */
  ghost function SlotTerm(kvals: seq<real>, size: int, line: Line, k: int, c: int, next: int): int -> real {
    i => if 0 <= i < size && 0 <= size - next + i < |kvals|
         then Level(line, k, c + 1 - Age(size, next, i)) * kvals[size - next + i] else 0.0
  }

  lemma SlotIsConvTerm(kvals: seq<real>, size: int, line: Line, k: int, c: int, next: int, i: int)
    requires 0 <= next < size && 0 <= i < size && Doubled(kvals, size)
    ensures SlotTerm(kvals, size, line, k, c, next)(i) == ConvTerm(kvals[..size], line, k, c)(Age(size, next, i) - 1)
  {
    hide Level;
    if i >= next {
      assert kvals[i - next + size] == kvals[i - next];
    }
  }

  /** The sum over the slots, in whatever rotation, is the direct convolution. */
  lemma RingSum(kvals: seq<real>, size: int, line: Line, k: int, c: int, next: int)
    requires 0 <= next < size && Doubled(kvals, size)
    ensures Sum(SlotTerm(kvals, size, line, k, c, next), 0, size) == Conv(kvals[..size], line, k, c)
  {
    hide SlotTerm, ConvTerm;
    var f, g := SlotTerm(kvals, size, line, k, c, next), ConvTerm(kvals[..size], line, k, c);
    forall i | 0 <= i < size
      ensures f(i) == g(Age(size, next, i) - 1)
    {
      SlotIsConvTerm(kvals, size, line, k, c, next, i);
    }
    SumSplit(f, 0, next, size);
    SumReversed(f, g, 0, next, 0);
    SumReversed(f, g, next, size, next);
    SumSplit(g, 0, next, size);
  }

  /** Slot i holds the channels of column x. */
  ghost predicate SlotHolds(cvals: seq<real>, i: int, line: Line, x: int) {
    && 0 <= i && 4 * i + 4 <= |cvals|
    && cvals[4 * i] == Level(line, A, x) && cvals[4 * i + 1] == Level(line, R, x)
    && cvals[4 * i + 2] == Level(line, G, x) && cvals[4 * i + 3] == Level(line, B, x)
  }

  /** Every slot holds the column that was loaded `Age` columns before column c. */
  ghost predicate Ring(cvals: seq<real>, size: int, line: Line, c: int, next: int) {
    forall i :: 0 <= i < size ==> SlotHolds(cvals, i, line, c - Age(size, next, i))
  }

  lemma ClearedRing(cvals: seq<real>, size: int, line: Line)
    requires 4 * size <= |cvals| && forall j :: 0 <= j < 4 * size ==> cvals[j] == 0.0
    ensures Ring(cvals, size, line, 0, 0)
  {
  }

  /** Loading column c into the oldest slot. */
  lemma RingLoads(before: seq<real>, after: seq<real>, size: int, line: Line, c: int, next: int)
    requires 0 <= next < size && Ring(before, size, line, c, next) && |before| == |after|
    requires forall j :: 0 <= j < |before| && !(4 * next <= j < 4 * next + 4) ==> after[j] == before[j]
    requires SlotHolds(after, next, line, c)
    ensures Ring(after, size, line, c + 1, NextSlot(size, next))
  {
    hide Level;
    forall i | 0 <= i < size
      ensures SlotHolds(after, i, line, c + 1 - Age(size, NextSlot(size, next), i))
    {
      assert SlotHolds(before, i, line, c - Age(size, next, i));
    }
  }

  lemma SlotTerms(cvals: seq<real>, kvals: seq<real>, size: int, line: Line, c: int, next: int, i: int)
    requires 0 <= next < size && 0 <= i < size && Doubled(kvals, size) && Ring(cvals, size, line, c + 1, next)
    ensures 4 * i + 4 <= |cvals|
    ensures var factor := kvals[size - next + i];
            && SlotTerm(kvals, size, line, A, c, next)(i) == cvals[4 * i] * factor
            && SlotTerm(kvals, size, line, R, c, next)(i) == cvals[4 * i + 1] * factor
            && SlotTerm(kvals, size, line, G, c, next)(i) == cvals[4 * i + 2] * factor
            && SlotTerm(kvals, size, line, B, c, next)(i) == cvals[4 * i + 3] * factor
  {
    hide Level;
    assert SlotHolds(cvals, i, line, c + 1 - Age(size, next, i));
  }

  /** The innermost loop: the four channel sums over the ring. */
  method RingSums(cvals: array<real>, kvals: seq<real>, size: int, koff: int, ghost line: Line, ghost c: int)
    returns (suma: real, sumr: real, sumg: real, sumb: real)
    requires 0 < koff <= size && |kvals| >= 2 * size && Doubled(kvals, size)
    requires Ring(cvals[..], size, line, c + 1, size - koff)
    ensures suma == Conv(kvals[..size], line, A, c) && sumr == Conv(kvals[..size], line, R, c)
    ensures sumg == Conv(kvals[..size], line, G, c) && sumb == Conv(kvals[..size], line, B, c)
  {
    hide Level, Conv, SlotTerm, Ring, Doubled;
    ghost var next := size - koff;
    ghost var fa, fr := SlotTerm(kvals, size, line, A, c, next), SlotTerm(kvals, size, line, R, c, next);
    ghost var fg, fb := SlotTerm(kvals, size, line, G, c, next), SlotTerm(kvals, size, line, B, c, next);
    suma, sumr, sumg, sumb := 0.0, 0.0, 0.0, 0.0;
    var i := 0;
    while i < size
      invariant 0 <= i <= size
      invariant suma == Sum(fa, 0, i) && sumr == Sum(fr, 0, i) && sumg == Sum(fg, 0, i) && sumb == Sum(fb, 0, i)
    {
      SlotTerms(cvals[..], kvals, size, line, c, next, i);
      var factor := kvals[koff + i];
      suma := suma + cvals[4 * i + 0] * factor;
      sumr := sumr + cvals[4 * i + 1] * factor;
      sumg := sumg + cvals[4 * i + 2] * factor;
      sumb := sumb + cvals[4 * i + 3] * factor;
      i := i + 1;
    }
    RingSum(kvals, size, line, A, c, next);
    RingSum(kvals, size, line, R, c, next);
    RingSum(kvals, size, line, G, c, next);
    RingSum(kvals, size, line, B, c, next);
  }

  // ---------- filterHV ----------

  /** The loop over the columns of one row of `filterHV`. */
  method ConvolveRow(dst: array<Pixel>, dstrow: nat, dstcols: nat, dcolinc: nat,
                     src: seq<Pixel>, srcrow: nat, srccols: nat, scolinc: nat,
                     kvals: seq<real>, size: int, cvals: array<real>, ghost dg: Grid, ghost sg: Grid, ghost r: int)
    requires Fits(dg, dst.Length) && InBounds(dg, dst.Length) && InBounds(sg, |src|)
    requires 0 <= r < dg.lines && r < sg.lines
    requires dg.cols == dstcols && dg.colInc == dcolinc && sg.cols == srccols && sg.colInc == scolinc
    requires dstrow == Cell(dg, r, 0) && srcrow == Cell(sg, r, 0)
    requires 0 < size && |kvals| >= 2 * size && Doubled(kvals, size) && 4 * size <= cvals.Length
    modifies dst, cvals
    ensures LineStarts(dg, dst[..], r, ConvLine(kvals[..size], LineOf(src, sg, r), dg.cols), dg.cols)
    ensures OnlyLine(dg, r, dst[..], old(dst[..]))
  {
    hide Channel, Pack, ConvPixel, Conv, ToByte, Ring, Doubled, OnlyLine, LineStarts, LineOf, InBounds, Fits, Cell;
    ghost var line := LineOf(src, sg, r);
    ghost var want := ConvLine(kvals[..size], line, dg.cols);
    var dstoff, srcoff := dstrow, srcrow;
    Clear(cvals, 4 * size);
    ClearedRing(cvals[..], size, line);
    NoCell(dg, dst[..], r, want);
    var koff := size;
    var c := 0;
    while c < dstcols
      invariant 0 <= c <= dstcols && dstoff == Cell(dg, r, c) && srcoff == Cell(sg, r, c)
      invariant 0 < koff <= size && size - koff == c % size
      invariant Ring(cvals[..], size, line, c, size - koff)
      invariant LineStarts(dg, dst[..], r, want, c) && OnlyLine(dg, r, dst[..], old(dst[..]))
    {
      ghost var before := dst[..];
      LineCell(before, dg, r, c);
      if c < srccols {
        LineCell(src, sg, r, c);
      }
      var rgb: Pixel := if c < srccols then src[srcoff] else 0;
      Load(cvals, size, size - koff, rgb, line, c);
      SlotIsColumnModSize(size, c);
      koff := koff - 1;
      if koff <= 0 {
        koff := koff + size;
      }
      var suma, sumr, sumg, sumb := RingSums(cvals, kvals, size, koff, line, c);
      ConvPixelIs(kvals[..size], line, c);
      dst[dstoff] := Pack(ToByte(suma), ToByte(sumr), ToByte(sumg), ToByte(sumb));
      NextCell(dg, before, r, want, c, dst[..], old(dst[..]));
      CellSteps(dg, r, c);
      CellSteps(sg, r, c);
      dstoff := dstoff + dcolinc;
      srcoff := srcoff + scolinc;
      c := c + 1;
    }
  }

  lemma ConvPixelIs(kernel: seq<real>, line: Line, c: int)
    ensures ConvPixel(kernel, line, c) ==
            Pack(ToByte(Conv(kernel, line, A, c)), ToByte(Conv(kernel, line, R, c)),
                 ToByte(Conv(kernel, line, G, c)), ToByte(Conv(kernel, line, B, c)))
  {
  }

  method Clear(cvals: array<real>, n: nat)
    requires n <= cvals.Length
    modifies cvals
    ensures forall j :: 0 <= j < n ==> cvals[j] == 0.0
  {
    for i := 0 to n
      invariant forall j :: 0 <= j < i ==> cvals[j] == 0.0
    {
      cvals[i] := 0.0;
    }
  }

  /** Loads the pixel of column c into the slot that is due. */
  method Load(cvals: array<real>, ghost size: int, slot: int, rgb: Pixel, ghost line: Line, ghost c: int)
    requires 0 <= slot < size && 4 * size <= cvals.Length && rgb == Padded(line, c)
    requires Ring(cvals[..], size, line, c, slot)
    modifies cvals
    ensures Ring(cvals[..], size, line, c + 1, NextSlot(size, slot))
  {
    hide Channel, Ring;
    ghost var before := cvals[..];
    var i := slot * 4;
    cvals[i] := Channel(rgb, A) as real;
    cvals[i + 1] := Channel(rgb, R) as real;
    cvals[i + 2] := Channel(rgb, G) as real;
    cvals[i + 3] := Channel(rgb, B) as real;
    RingLoads(before, cvals[..], size, line, c, slot);
  }

  /** Sizes and kernels that `filterHV` does not refuse. */
  predicate Accepted(dstLength: nat, dstcols: int, dstrows: int, srcLength: nat, srccols: int, srcrows: int,
                     kvals: seq<real>) {
    && !CheckRange(dstLength, dstcols, dstrows, srcLength, srccols, srcrows)
    && dstrows <= srcrows && |kvals| / 2 <= MAX_KERNEL
  }

  /** Rows or columns, depending on the increments, are convolved with the first half of `kvals`. */
  method FilterHV(dst: array<Pixel>, dstcols: int, dstrows: int, dcolinc: nat, drowinc: nat,
                  src: seq<Pixel>, srccols: int, srcrows: int, scolinc: nat, srowinc: nat, kvals: seq<real>)
    requires Accepted(dst.Length, dstcols, dstrows, |src|, srccols, srcrows, kvals) ==>
               && Fits(Grid(dstrows, drowinc, dstcols, dcolinc), dst.Length)
               && Fits(Grid(srcrows, srowinc, srccols, scolinc), |src|)
               && 0 < |kvals| / 2 && Doubled(kvals, |kvals| / 2)
    modifies dst
    ensures !Accepted(dst.Length, dstcols, dstrows, |src|, srccols, srcrows, kvals) ==> dst[..] == old(dst[..])
    ensures Accepted(dst.Length, dstcols, dstrows, |src|, srccols, srcrows, kvals) ==>
              var dg, sg := Grid(dstrows, drowinc, dstcols, dcolinc), Grid(srcrows, srowinc, srccols, scolinc);
              && InBounds(dg, dst.Length) && InBounds(sg, |src|)
              && ImageOf(dst[..], dg) == ConvLines(kvals[..|kvals| / 2], ImageOf(src, sg)[..dstrows], dstcols)
              && OnlyGrid(dg, dst[..], old(dst[..]))
  {
    hide CheckRange, Fits, Cell, OnlyGrid, OnlyLine, LineStarts, LinesDone, InBounds, ConvLine, LineOf, Doubled;
    if CheckRange(dst.Length, dstcols, dstrows, |src|, srccols, srcrows) || dstrows > srcrows {
      return;
    }
    var kernelSize := |kvals| / 2;
    if kernelSize > MAX_KERNEL {
      return;
    }
    AcceptedSizes(dst.Length, dstcols, dstrows, |src|, srccols, srcrows);
    ghost var dg, sg := Grid(dstrows, drowinc, dstcols, dcolinc), Grid(srcrows, srowinc, srccols, scolinc);
    FitsInBounds(dg, dst.Length);
    FitsInBounds(sg, |src|);
    ghost var want := ConvLines(kvals[..kernelSize], ImageOf(src, sg)[..dstrows], dstcols);
    NoLine(dg, dst[..], want);
    var cvals := new real[MAX_KERNEL * 4];
    var dstrow: nat, srcrow: nat := 0, 0;
    var r := 0;
    CellSteps(sg, 0, 0);
    CellSteps(dg, 0, 0);
    while r < dstrows
      invariant 0 <= r <= dstrows && srcrow == Cell(sg, r, 0) && dstrow == Cell(dg, r, 0)
      invariant LinesDone(dg, dst[..], want, r) && OnlyGrid(dg, dst[..], old(dst[..]))
    {
      ghost var before := dst[..];
      ConvolveRow(dst, dstrow, dstcols, dcolinc, src, srcrow, srccols, scolinc, kvals, kernelSize, cvals, dg, sg, r);
      NextLine(dg, before, want, r, dst[..], old(dst[..]));
      CellSteps(sg, r, 0);
      CellSteps(dg, r, 0);
      srcrow := srcrow + srowinc;
      dstrow := dstrow + drowinc;
      r := r + 1;
    }
    AllLinesDone(dg, dst[..], want);
  }

  // ---------- filterVector ----------

  /** n steps of d from x */
  function Along(x: real, d: real, n: int): real {
    x + n as real * d
  }

  lemma AlongStep(x: real, d: real, n: int)
    ensures Along(x, d, 0) == x && Along(x, d, n + 1) == Along(x, d, n) + d
  {
    assert (n + 1) as real * d == n as real * d + d;
  }

  /** Where the samples of a destination pixel lie: a start and a step for each of the `count` taps. */
  datatype Track = Track(x: real, y: real, dx: real, dy: real)

  ghost function VectorTerm(weights: seq<real>, f: Plane, w: int, h: int, t: Track): int -> real {
    i => if 0 <= i < |weights| then weights[i] * TentSum(f, w, h, Along(t.x, t.dx, i), Along(t.y, t.dy, i)) else 0.0
  }

  ghost function Vector(weights: seq<real>, f: Plane, w: int, h: int, t: Track): real {
    Sum(VectorTerm(weights, f, w, h, t), 0, |weights|)
  }

  ghost function VectorPixel(weights: seq<real>, planes: seq<Plane>, w: int, h: int, t: Track): Pixel
    requires |planes| == 4
  {
    Pack(ToByte(Vector(weights, planes[A], w, h, t)), ToByte(Vector(weights, planes[R], w, h, t)),
         ToByte(Vector(weights, planes[G], w, h, t)), ToByte(Vector(weights, planes[B], w, h, t)))
  }

  /** The geometry of a `filterVector` call. */
  datatype Geometry = Geometry(srcx0: real, srcy0: real, offsetx: real, offsety: real, deltax: real, deltay: real,
                               dxcol: real, dycol: real, dxrow: real, dyrow: real)

  /** The samples for the destination pixel in column c of row r. */
  function TrackOf(g: Geometry, r: int, c: int): Track {
    Track(Along(Along(g.srcx0 + (g.dxrow + g.dxcol) * 0.5, g.dxrow, r), g.dxcol, c) + g.offsetx,
          Along(Along(g.srcy0 + (g.dyrow + g.dycol) * 0.5, g.dyrow, r), g.dycol, c) + g.offsety,
          g.deltax, g.deltay)
  }

  ghost function VectorLine(weights: seq<real>, planes: seq<Plane>, w: int, h: int, g: Geometry,
                            r: int, n: nat): (out: Line)
    requires |planes| == 4
    ensures |out| == n
  {
    seq(n, c => VectorPixel(weights, planes, w, h, TrackOf(g, r, c)))
  }

  ghost function VectorLines(weights: seq<real>, planes: seq<Plane>, w: int, h: int, g: Geometry,
                             n: nat, lines: nat): (out: Image)
    requires |planes| == 4
    ensures Rect(out, n, lines)
  {
    seq(lines, r => VectorLine(weights, planes, w, h, g, r, n))
  }

  /** The loop over the taps of one destination pixel. */
  method SampleTaps(src: seq<Pixel>, srcw: int, srch: int, srcscan: nat, weights: seq<real>, count: int, t: Track)
    returns (p: Pixel)
    requires HoldsImage(|src|, srcw, srch, srcscan) && 0 <= count <= |weights|
    ensures p == VectorPixel(weights[..count], ImagePlanes(src, srcw, srch, srcscan), srcw, srch, t)
  {
    hide TentSum, ImagePlanes, HoldsImage, Planes, ToByte, Pack, Along;
    ghost var planes := ImagePlanes(src, srcw, srch, srcscan);
    ghost var ws := weights[..count];
    var fvals := new real[4] [0.0, 0.0, 0.0, 0.0];
    var sampx, sampy := t.x, t.y;
    var i := 0;
    AlongStep(t.x, t.dx, 0);
    AlongStep(t.y, t.dy, 0);
    while i < count
      invariant 0 <= i <= count && sampx == Along(t.x, t.dx, i) && sampy == Along(t.y, t.dy, i)
      invariant forall k :: 0 <= k < 4 ==> fvals[k] == Sum(VectorTerm(ws, planes[k], srcw, srch, t), 0, i)
    {
      AccumulateSample(src, sampx, sampy, srcw, srch, srcscan, weights[i], fvals);
      AlongStep(t.x, t.dx, i);
      AlongStep(t.y, t.dy, i);
      sampx := sampx + t.dx;
      sampy := sampy + t.dy;
      i := i + 1;
    }
    p := Pack(ToByte(fvals[A]), ToByte(fvals[R]), ToByte(fvals[G]), ToByte(fvals[B]));
  }

  /** The loop over the pixels of one destination row. */
  method VectorRow(dst: array<Pixel>, dstrow: nat, dstw: nat, src: seq<Pixel>, srcw: int, srch: int, srcscan: nat,
                   weights: seq<real>, count: int, rowx: real, rowy: real, g: Geometry, ghost dg: Grid, ghost r: int)
    requires Fits(dg, dst.Length) && InBounds(dg, dst.Length) && 0 <= r < dg.lines && dg.cols == dstw && dg.colInc == 1
    requires dstrow == Cell(dg, r, 0)
    requires HoldsImage(|src|, srcw, srch, srcscan) && 0 <= count <= |weights|
    requires rowx == Along(g.srcx0 + (g.dxrow + g.dxcol) * 0.5, g.dxrow, r)
    requires rowy == Along(g.srcy0 + (g.dyrow + g.dycol) * 0.5, g.dyrow, r)
    modifies dst
    ensures LineStarts(dg, dst[..], r,
                       VectorLine(weights[..count], ImagePlanes(src, srcw, srch, srcscan), srcw, srch, g, r, dstw),
                       dstw)
    ensures OnlyLine(dg, r, dst[..], old(dst[..]))
  {
    hide ImagePlanes, HoldsImage, Planes, VectorPixel, Along, OnlyLine, LineStarts, InBounds, Fits, Cell;
    ghost var want := VectorLine(weights[..count], ImagePlanes(src, srcw, srch, srcscan), srcw, srch, g, r, dstw);
    NoCell(dg, dst[..], r, want);
    var srcx, srcy := rowx, rowy;
    AlongStep(rowx, g.dxcol, 0);
    AlongStep(rowy, g.dycol, 0);
    var dx := 0;
    while dx < dstw
      invariant 0 <= dx <= dstw && srcx == Along(rowx, g.dxcol, dx) && srcy == Along(rowy, g.dycol, dx)
      invariant LineStarts(dg, dst[..], r, want, dx) && OnlyLine(dg, r, dst[..], old(dst[..]))
    {
      ghost var before := dst[..];
      LineCell(before, dg, r, dx);
      var p := SampleTaps(src, srcw, srch, srcscan, weights, count,
                          Track(srcx + g.offsetx, srcy + g.offsety, g.deltax, g.deltay));
      dst[dstrow + dx] := p;
      NextCell(dg, before, r, want, dx, dst[..], old(dst[..]));
      AlongStep(rowx, g.dxcol, dx);
      AlongStep(rowy, g.dycol, dx);
      srcx := srcx + g.dxcol;
      srcy := srcy + g.dycol;
      dx := dx + 1;
    }
  }

  /** Every destination pixel is the weighted sum of bilinear samples along a track across the source. */
  method FilterVector(dst: array<Pixel>, dstw: nat, dsth: nat, dstscan: nat,
                      src: seq<Pixel>, srcw: int, srch: int, srcscan: nat,
                      weights: seq<real>, count: int, g: Geometry)
    requires HoldsImage(dst.Length, dstw, dsth, dstscan) && HoldsImage(|src|, srcw, srch, srcscan)
    requires count <= MAX_KERNEL ==> 0 <= count <= |weights|
    modifies dst
    ensures count > MAX_KERNEL ==> dst[..] == old(dst[..])
    ensures count <= MAX_KERNEL ==>
              var dg := Rows(dstw, dsth, dstscan);
              && InBounds(dg, dst.Length)
              && ImageOf(dst[..], dg)
                 == VectorLines(weights[..count], ImagePlanes(src, srcw, srch, srcscan), srcw, srch, g, dstw, dsth)
              && OnlyGrid(dg, dst[..], old(dst[..]))
    ensures count <= MAX_KERNEL ==>
              forall r, c :: 0 <= r < dsth && 0 <= c < dstw ==>
                var x := g.srcx0 + (r as real + 0.5) * g.dxrow + (c as real + 0.5) * g.dxcol + g.offsetx;
                var y := g.srcy0 + (r as real + 0.5) * g.dyrow + (c as real + 0.5) * g.dycol + g.offsety;
                ImageOf(dst[..], Rows(dstw, dsth, dstscan))[r][c]
                == VectorPixel(weights[..count], ImagePlanes(src, srcw, srch, srcscan), srcw, srch,
                               Track(x, y, g.deltax, g.deltay))
  {
    hide ImagePlanes, Planes, VectorLine, Along, Fits, Cell, OnlyGrid, OnlyLine, LineStarts, LinesDone, InBounds;
    if count > MAX_KERNEL {
      return;
    }
    ghost var dg := Rows(dstw, dsth, dstscan);
    FitsInBounds(dg, dst.Length);
    ghost var want := VectorLines(weights[..count], ImagePlanes(src, srcw, srch, srcscan), srcw, srch, g, dstw, dsth);
    NoLine(dg, dst[..], want);
    var dstrow: nat := 0;
    var rowx, rowy := g.srcx0 + (g.dxrow + g.dxcol) * 0.5, g.srcy0 + (g.dyrow + g.dycol) * 0.5;
    ghost var x0, y0 := rowx, rowy;
    AlongStep(x0, g.dxrow, 0);
    AlongStep(y0, g.dyrow, 0);
    CellSteps(dg, 0, 0);
    var dy := 0;
    while dy < dsth
      invariant 0 <= dy <= dsth && dstrow == Cell(dg, dy, 0)
      invariant rowx == Along(x0, g.dxrow, dy) && rowy == Along(y0, g.dyrow, dy)
      invariant LinesDone(dg, dst[..], want, dy) && OnlyGrid(dg, dst[..], old(dst[..]))
    {
      ghost var before := dst[..];
      VectorRow(dst, dstrow, dstw, src, srcw, srch, srcscan, weights, count, rowx, rowy, g, dg, dy);
      NextLine(dg, before, want, dy, dst[..], old(dst[..]));
      AlongStep(x0, g.dxrow, dy);
      AlongStep(y0, g.dyrow, dy);
      CellSteps(dg, dy, 0);
      rowx := rowx + g.dxrow;
      rowy := rowy + g.dyrow;
      dstrow := dstrow + dstscan;
      dy := dy + 1;
    }
    AllLinesDone(dg, dst[..], want);
    VectorPixels(weights[..count], ImagePlanes(src, srcw, srch, srcscan), srcw, srch, g, dstw, dsth);
  }

  /**
   * Where the samples of a pixel begin: the centre of the pixel, carried into the source by the steps per row and per
   * column.
   */
  lemma VectorPixels(weights: seq<real>, planes: seq<Plane>, w: int, h: int, g: Geometry, n: nat, lines: nat)
    requires |planes| == 4
    ensures forall r, c :: 0 <= r < lines && 0 <= c < n ==>
              var x := g.srcx0 + (r as real + 0.5) * g.dxrow + (c as real + 0.5) * g.dxcol + g.offsetx;
              var y := g.srcy0 + (r as real + 0.5) * g.dyrow + (c as real + 0.5) * g.dycol + g.offsety;
              VectorLines(weights, planes, w, h, g, n, lines)[r][c]
              == VectorPixel(weights, planes, w, h, Track(x, y, g.deltax, g.deltay))
  {
    hide VectorPixel, TrackOf;
    forall r, c | 0 <= r < lines && 0 <= c < n
      ensures TrackOf(g, r, c)
              == Track(g.srcx0 + (r as real + 0.5) * g.dxrow + (c as real + 0.5) * g.dxcol + g.offsetx,
                       g.srcy0 + (r as real + 0.5) * g.dyrow + (c as real + 0.5) * g.dycol + g.offsety,
                       g.deltax, g.deltay)
    {
      TrackStarts(g, r, c);
    }
  }

  lemma TrackStarts(g: Geometry, r: int, c: int)
    ensures TrackOf(g, r, c)
            == Track(g.srcx0 + (r as real + 0.5) * g.dxrow + (c as real + 0.5) * g.dxcol + g.offsetx,
                     g.srcy0 + (r as real + 0.5) * g.dyrow + (c as real + 0.5) * g.dycol + g.offsety,
                     g.deltax, g.deltay)
  {
    hide Along;
    FromCentre(g.srcx0, g.dxrow, g.dxcol, g.offsetx, r, c, TrackOf(g, r, c).x);
    FromCentre(g.srcy0, g.dyrow, g.dycol, g.offsety, r, c, TrackOf(g, r, c).y);
  }

  lemma FromCentre(start: real, drow: real, dcol: real, offset: real, r: int, c: int, v: real)
    requires v == Along(Along(start + (drow + dcol) * 0.5, drow, r), dcol, c) + offset
    ensures v == start + (r as real + 0.5) * drow + (c as real + 0.5) * dcol + offset
  {
    HalfStep(drow, r);
    HalfStep(dcol, c);
  }

  lemma HalfStep(d: real, n: int)
    ensures (n as real + 0.5) * d == n as real * d + d * 0.5
  {
  }
}
