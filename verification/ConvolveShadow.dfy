/** The shadow convolution: a ring buffer of alphas and a table of 256 colours. */
module ConvolveShadow {
  import opened Arithmetic
  import opened Raster
  import opened Sums
  import opened LinearConvolve
  import opened BoxShadow

  // ---------- Rounding ----------

  /** Rounds half up and clamps to a byte. */
  function RoundClamp(v: real): (n: int)
    ensures IsByte(n)
  {
    var n := (v + 0.5).Floor;
    if n < 0 then 0 else if n > 255 then 255 else n
  }

  /** The table `shadowRGBs`. */
  function Table(colour: Colour): (t: seq<Pixel>)
    requires ValidColour(colour)
    ensures |t| == 256
  {
    seq(256, i requires 0 <= i < 256 => ColourPixel(i, colour))
  }

  /** The three-way branch on the biased sum; the table index is always in range. */
  function Select(table: seq<Pixel>, sum: real): Pixel
    requires |table| == 256
  {
    if sum < 0.0 then 0 else if sum >= 254.0 then table[255] else table[Trunc(sum) + 1]
  }

  /** Bias, branches and table together pick the colour at the rounded and clamped convolution, for every real sum. */
  lemma SelectIsRounding(colour: Colour, v: real)
    requires ValidColour(colour)
    ensures Select(Table(colour), v - 0.5) == ColourPixel(RoundClamp(v), colour)
  {
    hide ColourPixel;
    BlackAtZero(colour);
    assert v - 0.5 >= 0.0 ==> (v + 0.5).Floor == (v - 0.5).Floor + 1;
  }

  lemma BlackAtZero(colour: Colour)
    requires ValidColour(colour)
    ensures ColourPixel(0, colour) == 0
  {
  }

  // ---------- The reference ----------

  ghost function ShadowPixel(kernel: seq<real>, line: Line, c: int, colour: Colour): Pixel
    requires ValidColour(colour)
  {
    ColourPixel(RoundClamp(Conv(kernel, line, A, c)), colour)
  }

  ghost function ShadowLine(kernel: seq<real>, line: Line, n: nat, colour: Colour): (out: Line)
    requires ValidColour(colour)
    ensures |out| == n
  {
    seq(n, c => ShadowPixel(kernel, line, c, colour))
  }

  ghost function ShadowLines(kernel: seq<real>, img: Image, n: nat, colour: Colour): (out: Image)
    requires ValidColour(colour)
    ensures Rect(out, n, |img|)
  {
    seq(|img|, y requires 0 <= y < |img| => ShadowLine(kernel, img[y], n, colour))
  }

  // ---------- The ring of alphas ----------

  ghost predicate AlphaRing(avals: seq<real>, size: int, line: Line, c: int, next: int) {
    size <= |avals| && forall i :: 0 <= i < size ==> avals[i] == Level(line, A, c - Age(size, next, i))
  }

  lemma ClearedAlphas(avals: seq<real>, size: int, line: Line)
    requires size <= |avals| && forall j :: 0 <= j < size ==> avals[j] == 0.0
    ensures AlphaRing(avals, size, line, 0, 0)
  {
  }

  lemma AlphaLoads(before: seq<real>, size: int, line: Line, c: int, next: int)
    requires 0 <= next < size && AlphaRing(before, size, line, c, next)
    ensures AlphaRing(before[next := Level(line, A, c)], size, line, c + 1, NextSlot(size, next))
  {
    hide Level;
    var after := before[next := Level(line, A, c)];
    forall i | 0 <= i < size
      ensures after[i] == Level(line, A, c + 1 - Age(size, NextSlot(size, next), i))
    {
      assert before[i] == Level(line, A, c - Age(size, next, i));
    }
  }

  /** The innermost loop: the convolution of alpha, biased by one half. */
  method BiasedSum(avals: array<real>, kvals: seq<real>, size: int, koff: int, ghost line: Line, ghost c: int)
    returns (sum: real)
    requires 0 < koff <= size && |kvals| >= 2 * size && Doubled(kvals, size)
    requires AlphaRing(avals[..], size, line, c + 1, size - koff)
    ensures sum == Conv(kvals[..size], line, A, c) - 0.5
  {
    hide Level, Conv, Doubled;
    ghost var next := size - koff;
    ghost var f := SlotTerm(kvals, size, line, A, c, next);
    sum := -0.5;
    for i := 0 to size
      invariant sum == Sum(f, 0, i) - 0.5
    {
      assert avals[..][i] == Level(line, A, c + 1 - Age(size, next, i));
      sum := sum + avals[i] * kvals[koff + i];
    }
    RingSum(kvals, size, line, A, c, next);
  }

  /** The loop over the columns of one row of `filterHV`. */
  method ShadowRow(dst: array<Pixel>, dstrow: nat, dstcols: nat, dcolinc: nat,
                   src: seq<Pixel>, srcrow: nat, srccols: nat, scolinc: nat,
                   kvals: seq<real>, size: int, avals: array<real>, table: seq<Pixel>, ghost colour: Colour,
                   ghost dg: Grid, ghost sg: Grid, ghost r: int)
    requires Fits(dg, dst.Length) && InBounds(dg, dst.Length) && InBounds(sg, |src|)
    requires 0 <= r < dg.lines && r < sg.lines
    requires dg.cols == dstcols && dg.colInc == dcolinc && sg.cols == srccols && sg.colInc == scolinc
    requires dstrow == Cell(dg, r, 0) && srcrow == Cell(sg, r, 0)
    requires 0 < size <= avals.Length && |kvals| >= 2 * size && Doubled(kvals, size)
    requires ValidColour(colour) && table == Table(colour)
    modifies dst, avals
    ensures LineStarts(dg, dst[..], r, ShadowLine(kvals[..size], LineOf(src, sg, r), dg.cols, colour), dg.cols)
    ensures OnlyLine(dg, r, dst[..], old(dst[..]))
  {
    hide Channel, ColourPixel, Conv, Select, RoundClamp, Table, AlphaRing, Doubled, OnlyLine, LineStarts, LineOf,
         InBounds, Fits, Cell;
    ghost var line := LineOf(src, sg, r);
    ghost var want := ShadowLine(kvals[..size], line, dg.cols, colour);
    var dstoff, srcoff := dstrow, srcrow;
    Clear(avals, size);
    ClearedAlphas(avals[..], size, line);
    NoCell(dg, dst[..], r, want);
    var koff := size;
    var c := 0;
    while c < dstcols
      invariant 0 <= c <= dstcols && dstoff == Cell(dg, r, c) && srcoff == Cell(sg, r, c)
      invariant 0 < koff <= size && size - koff == c % size
      invariant AlphaRing(avals[..], size, line, c, size - koff)
      invariant LineStarts(dg, dst[..], r, want, c) && OnlyLine(dg, r, dst[..], old(dst[..]))
    {
      ghost var before, alphas := dst[..], avals[..];
      LineCell(before, dg, r, c);
      if c < srccols {
        LineCell(src, sg, r, c);
      }
      var rgb: Pixel := if c < srccols then src[srcoff] else 0;
      avals[size - koff] := Channel(rgb, A) as real;
      AlphaLoads(alphas, size, line, c, size - koff);
      assert avals[..] == alphas[size - koff := Level(line, A, c)];
      SlotIsColumnModSize(size, c);
      koff := koff - 1;
      if koff <= 0 {
        koff := koff + size;
      }
      var sum := BiasedSum(avals, kvals, size, koff, line, c);
      SelectIsRounding(colour, Conv(kvals[..size], line, A, c));
      dst[dstoff] := Select(table, sum);
      NextCell(dg, before, r, want, c, dst[..], old(dst[..]));
      CellSteps(dg, r, c);
      CellSteps(sg, r, c);
      dstoff := dstoff + dcolinc;
      srcoff := srcoff + scolinc;
      c := c + 1;
    }
  }

  /** Fills the table of shadow colours. */
  method FillTable(colour: Colour) returns (table: seq<Pixel>)
    requires ValidColour(colour)
    ensures table == Table(colour)
  {
    hide ColourPixel;
    var shadowRGBs := new Pixel[256];
    for i := 0 to 256
      invariant forall j :: 0 <= j < i ==> shadowRGBs[j] == ColourPixel(j, colour)
    {
      shadowRGBs[i] := ColourPixel(i, colour);
    }
    table := shadowRGBs[..];
  }

  method FilterHV(dst: array<Pixel>, dstcols: int, dstrows: int, dcolinc: nat, drowinc: nat,
                  src: seq<Pixel>, srccols: int, srcrows: int, scolinc: nat, srowinc: nat,
                  kvals: seq<real>, colour: Colour)
    requires ValidColour(colour)
    requires LinearConvolve.Accepted(dst.Length, dstcols, dstrows, |src|, srccols, srcrows, kvals) ==>
               && Fits(Grid(dstrows, drowinc, dstcols, dcolinc), dst.Length)
               && Fits(Grid(srcrows, srowinc, srccols, scolinc), |src|)
               && 0 < |kvals| / 2 && Doubled(kvals, |kvals| / 2)
    modifies dst
    ensures !LinearConvolve.Accepted(dst.Length, dstcols, dstrows, |src|, srccols, srcrows, kvals) ==>
              dst[..] == old(dst[..])
    ensures LinearConvolve.Accepted(dst.Length, dstcols, dstrows, |src|, srccols, srcrows, kvals) ==>
              var dg, sg := Grid(dstrows, drowinc, dstcols, dcolinc), Grid(srcrows, srowinc, srccols, scolinc);
              && InBounds(dg, dst.Length) && InBounds(sg, |src|)
              && ImageOf(dst[..], dg) == ShadowLines(kvals[..|kvals| / 2], ImageOf(src, sg)[..dstrows], dstcols, colour)
              && OnlyGrid(dg, dst[..], old(dst[..]))
  {
    hide CheckRange, Fits, Cell, OnlyGrid, OnlyLine, LineStarts, LinesDone, InBounds, ShadowLine, LineOf, Doubled,
         Table;
    if CheckRange(dst.Length, dstcols, dstrows, |src|, srccols, srcrows) || dstrows > srcrows {
      return;
    }
    var kernelSize := |kvals| / 2;
    if kernelSize > MAX_KERNEL {
      return;
    }
    AcceptedSizes(dst.Length, dstcols, dstrows, |src|, srccols, srcrows);
    var table := FillTable(colour);
    ghost var dg, sg := Grid(dstrows, drowinc, dstcols, dcolinc), Grid(srcrows, srowinc, srccols, scolinc);
    FitsInBounds(dg, dst.Length);
    FitsInBounds(sg, |src|);
    ghost var want := ShadowLines(kvals[..kernelSize], ImageOf(src, sg)[..dstrows], dstcols, colour);
    NoLine(dg, dst[..], want);
    var avals := new real[MAX_KERNEL];
    var dstrow: nat, srcrow: nat := 0, 0;
    var r := 0;
    CellSteps(sg, 0, 0);
    CellSteps(dg, 0, 0);
    while r < dstrows
      invariant 0 <= r <= dstrows && srcrow == Cell(sg, r, 0) && dstrow == Cell(dg, r, 0)
      invariant LinesDone(dg, dst[..], want, r) && OnlyGrid(dg, dst[..], old(dst[..]))
    {
      ghost var before := dst[..];
      ShadowRow(dst, dstrow, dstcols, dcolinc, src, srcrow, srccols, scolinc, kvals, kernelSize, avals, table, colour,
                dg, sg, r);
      NextLine(dg, before, want, r, dst[..], old(dst[..]));
      CellSteps(sg, r, 0);
      CellSteps(dg, r, 0);
      srcrow := srcrow + srowinc;
      dstrow := dstrow + drowinc;
      r := r + 1;
    }
    AllLinesDone(dg, dst[..], want);
  }
}
