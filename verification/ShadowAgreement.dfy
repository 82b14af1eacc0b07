/** The two kinds of shadow agree: convolution with a uniform kernel and the box shadow without spread. */
module ShadowAgreement {
  import opened Arithmetic
  import opened Raster
  import opened BoxBlur
  import opened LinearConvolve
  import opened ConvolveAgreement
  import opened BoxShadow
  import opened ConvolveShadow

  /** Rounding goes to the nearest byte, up from the middle, and clamps outside 0..255. */
  lemma RoundsToNearest(v: real)
    ensures 0.0 <= v <= 255.0 ==> v - 0.5 < RoundClamp(v) as real <= v + 0.5
    ensures v < 0.0 ==> RoundClamp(v) == 0
    ensures v > 255.0 ==> RoundClamp(v) == 255
  {
  }

  /** The kernel 1 paints each pixel in the colour at that pixel's alpha. */
  lemma UnitShadow(line: Line, c: int, colour: Colour)
    requires ValidColour(colour) && 0 <= c < |line|
    ensures ShadowPixel([1.0], line, c, colour) == ColourPixel(Channel(line[c], A), colour)
  {
    hide Channel, ColourPixel, RoundClamp, Conv;
    UnitConv(line, A, c);
    WholeRounds(Channel(line[c], A));
  }

  lemma WholeRounds(n: int)
    requires IsByte(n)
    ensures RoundClamp(n as real) == n
  {
  }

  lemma RoundedMeanNear(sum: int, size: int)
    requires size > 0 && 0 <= sum <= 255 * size
    ensures sum / size <= RoundClamp(sum as real / size as real) <= sum / size + 1
  {
    var q := sum / size;
    QuotientIsByte(sum, size, q);
    MeanFloor(sum, size, q);
  }

  lemma OpaqueBlack(n: int)
    requires IsByte(n)
    ensures var p := ColourPixel(n, Colour(0.0, 0.0, 0.0, 1.0));
            Channel(p, A) == n && Channel(p, R) == Channel(p, G) == Channel(p, B) == 0
  {
    hide Channel;
    WholePart(n);
  }

  /** For every line, window of a kernel's size and position, the two black shadows differ by at most one in alpha. */
  lemma ShadowsNear(line: Line, n: int, x: int)
    requires |line| <= n && n - |line| + 1 <= MAX_KERNEL && 0 <= x < n
    ensures var size := n - |line| + 1;
            var amax := AMax(size, 0.0);
            && amax > 0 && ValidPaint(BlackPaint(amax))
            && var box := ShadeLine(line, n, BlackPaint(amax))[x];
               var conv := ShadowPixel(Uniform(size), line, x, Colour(0.0, 0.0, 0.0, 1.0));
               && -1 <= Channel(box, A) - Channel(conv, A) <= 1
               && Channel(box, R) == Channel(conv, R) && Channel(box, G) == Channel(conv, G)
               && Channel(box, B) == Channel(conv, B)
  {
    hide KScale, Scale, Window, Conv, RoundClamp, Channel, ColourPixel, AMax, BlackPaint, ValidPaint, Emit, ShadowAlpha;
    var size := n - |line| + 1;
    var sum := Window(line, A, size, x);
    ShadowIsBlur(line, n, x);
    BlackEmits(AMax(size, 0.0), sum);
    UniformConvIsMean(line, A, size, x);
    SmallWindowsAreFullScale(size);
    ScaleIsMean(sum, size);
    RoundedMeanNear(sum, size);
    OpaqueBlack(RoundClamp(Conv(Uniform(size), line, A, x)));
  }
}
