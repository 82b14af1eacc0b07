/** The box shadow filters: a sliding window over alpha, sharpened by `spread` and painted in a colour. */
module BoxShadow {
  import opened Arithmetic
  import opened Raster
  import opened BoxBlur

  // ---------- From window sums to alpha ----------

  /** `amax` after `spread` was applied: from 255 * size down to 255. */
  function AMax(size: int, spread: real): int {
    size * 255 + Trunc((255 - size * 255) as real * spread)
  }

  /** `0x7fffffff / amax` */
  function Rate(amax: int): (k: int)
    requires amax > 0
    ensures 0 <= k
  {
    QuotientNonNegative(INT_MAX, amax);
    INT_MAX / amax
  }

  /** The three-way clamp of the black shadow filters. */
  function ShadowAlpha(sum: int, amax: int): int
    requires amax > 0
  {
    if sum < amax / 255 then 0 else if sum >= amax then 255 else sum * Rate(amax) / ONE
  }

  lemma AMaxRange(size: int, spread: real)
    requires size > 0 && 0.0 <= spread <= 1.0
    ensures 255 <= AMax(size, spread) <= 255 * size
  {
    hide Trunc;
    AMaxIs(size, spread);
    PartRange(255 * size - 255, spread);
  }

  /** From 255 times the window at spread 0 to 255 at spread 1 in a straight line, rounded up. */
  lemma AMaxLinear(size: int, spread: real)
    requires size > 0 && 0.0 <= spread <= 1.0
    ensures var line := (255 * size) as real * (1.0 - spread) + 255.0 * spread;
            line <= AMax(size, spread) as real < line + 1.0
  {
    hide AMax;
    AMaxIs(size, spread);
    var n := 255 * size - 255;
    PartIsFloor(n, spread);
    assert (255 * size) as real * (1.0 - spread) == (255 * size) as real - (255 * size) as real * spread;
    assert n as real * spread == (255 * size) as real * spread - 255.0 * spread;
  }

  /** `(jint) (n * v)` */
  function Part(n: int, v: real): int {
    Trunc(n as real * v)
  }

  /** The cast rounds towards zero: a negative product loses the part its opposite has. */
  lemma AMaxIs(size: int, spread: real)
    requires size > 0 && 0.0 <= spread
    ensures AMax(size, spread) == 255 * size - Part(255 * size - 255, spread)
  {
    var n := 255 * size - 255;
    RealProduct(spread, spread, n as real);
    NegativeProduct(n, spread);
    TruncOrder(0.0, n as real * spread);
  }

  lemma NegativeProduct(n: int, v: real)
    ensures (-n) as real * v == -(n as real * v)
  {
  }

  lemma RealProduct(a: real, b: real, k: real)
    requires a <= b && 0.0 <= k
    ensures k * a <= k * b
    ensures 0.0 <= a ==> 0.0 <= k * a
  {
  }

  lemma TruncOrder(a: real, b: real)
    requires 0.0 <= a <= b
    ensures 0 <= Trunc(a) <= Trunc(b) && Trunc(-b) == -Trunc(b)
  {
  }

  lemma PartMonotone(n: int, v: real, v': real)
    requires 0 <= n && 0.0 <= v <= v'
    ensures 0 <= Part(n, v) <= Part(n, v')
  {
    hide Trunc;
    RealProduct(v, v', n as real);
    TruncOrder(n as real * v, n as real * v');
  }

  lemma PartRange(n: int, v: real)
    requires 0 <= n && 0.0 <= v <= 1.0
    ensures 0 <= Part(n, v) <= n
  {
    hide Part;
    PartMonotone(n, v, 1.0);
    WholePart(n);
  }

  lemma WholePart(n: int)
    requires 0 <= n
    ensures Part(n, 1.0) == n
  {
    assert n as real * 1.0 == n as real;
  }

  lemma AMaxDecreases(size: int, spread: real, spread': real)
    requires size > 0 && 0.0 <= spread <= spread' <= 1.0
    ensures AMax(size, spread') <= AMax(size, spread)
  {
    hide AMax, Part;
    AMaxIs(size, spread);
    AMaxIs(size, spread');
    PartMonotone(255 * size - 255, spread, spread');
  }

  /** The scaled branch does not overflow and stays a byte. */
  lemma ScaledAlpha(sum: int, amax: int)
    requires amax > 0 && 0 <= sum <= amax
    ensures 0 <= sum * Rate(amax) <= INT_MAX && IsByte(sum * Rate(amax) / ONE)
  {
    var k := Rate(amax);
    QuotientNonNegative(INT_MAX, amax);
    assert amax * k == k * amax;
    ProductMonotone(0, sum, k);
    ProductMonotone(sum, amax, k);
    ScaledByte(sum * k);
  }

  lemma AlphaIsByte(sum: int, amax: int)
    requires amax > 0 && 0 <= sum
    ensures IsByte(ShadowAlpha(sum, amax))
  {
    hide Rate;
    if sum < amax {
      ScaledAlpha(sum, amax);
    }
  }

  /** More source alpha never gives less shadow, across all three branches. */
  lemma AlphaMonotone(sum: int, sum': int, amax: int)
    requires amax > 0 && 0 <= sum <= sum'
    ensures ShadowAlpha(sum, amax) <= ShadowAlpha(sum', amax)
  {
    hide Rate;
    if sum < amax / 255 {
      AlphaIsByte(sum', amax);
    } else if sum' >= amax {
      AlphaIsByte(sum, amax);
    } else {
      ScaledMonotone(sum, sum', Rate(amax));
    }
  }

  lemma ScaledMonotone(sum: int, sum': int, k: int)
    requires sum <= sum' && 0 <= k
    ensures sum * k / ONE <= sum' * k / ONE
  {
    ProductMonotone(sum, sum', k);
    QuotientMonotone(sum * k, sum' * k);
  }

  lemma QuotientOfSmaller(n: int, d: int, d': int)
    requires 0 <= n && 0 < d <= d'
    ensures n / d' <= n / d
  {
    var q, q' := n / d, n / d';
    assert q' * d' <= n < (q + 1) * d;
    ProductMonotone(d, d', q');
    assert q' * d < (q + 1) * d;
    MultipleAtLeast(q' - q - 1, d);
    assert (q' - (q + 1)) * d == q' * d - (q + 1) * d;
  }

  lemma FieldMonotone(sum: int, k: int, k': int)
    requires 0 <= sum && k <= k'
    ensures sum * k / ONE <= sum * k' / ONE
  {
    ProductMonotone(k, k', sum);
    assert k * sum == sum * k && k' * sum == sum * k';
    QuotientMonotone(sum * k, sum * k');
  }

  lemma RateAntitone(amax: int, amax': int)
    requires 0 < amax' <= amax
    ensures Rate(amax) <= Rate(amax')
  {
    QuotientOfSmaller(INT_MAX, amax', amax);
  }

  /** A smaller `amax` never gives less shadow. */
  lemma AlphaAntitone(sum: int, amax: int, amax': int)
    requires 0 < amax' <= amax && 0 <= sum
    ensures ShadowAlpha(sum, amax) <= ShadowAlpha(sum, amax')
  {
    hide Rate;
    if sum < amax / 255 {
      AlphaIsByte(sum, amax');
    } else if sum >= amax' {
      AlphaIsByte(sum, amax);
    } else {
      RateAntitone(amax, amax');
      FieldMonotone(sum, Rate(amax), Rate(amax'));
    }
  }

  /** More spread never gives less shadow. */
  lemma AlphaGrowsWithSpread(sum: int, size: int, spread: real, spread': real)
    requires size > 0 && 0 <= sum && 0.0 <= spread <= spread' <= 1.0
    ensures AMax(size, spread) > 0 && AMax(size, spread') > 0
    ensures ShadowAlpha(sum, AMax(size, spread)) <= ShadowAlpha(sum, AMax(size, spread'))
  {
    hide AMax;
    AMaxRange(size, spread);
    AMaxRange(size, spread');
    AMaxDecreases(size, spread, spread');
    AlphaAntitone(sum, AMax(size, spread), AMax(size, spread'));
  }

  /** Full spread: the clipped window sum itself. */
  lemma FullSpread(sum: int, size: int)
    requires size > 0 && 0 <= sum
    ensures AMax(size, 1.0) == 255 && ShadowAlpha(sum, 255) == if sum < 255 then sum else 255
  {
    AMaxIs(size, 1.0);
    WholePart(255 * size - 255);
    if 1 <= sum < 255 {
      assert Rate(255) == 8421504;
      assert sum * ONE <= sum * 8421504 < (sum + 1) * ONE;
    }
  }

  /** The window sizes for which a shadow without spread has the alpha of the box blur. */
  predicate SameAsBlur(size: int)
    requires size > 0
  {
    (size - 1) * KScale(size) < ONE <= size * KScale(size)
  }

  /** The sum comes out of the box blur's scaling as it comes out of the shadow without spread. */
  ghost predicate SameAlpha(sum: int, size: int)
    requires size > 0
  {
    0 <= sum * KScale(size) <= INT_MAX && ShadowAlpha(sum, 255 * size) == Scale(sum, KScale(size))
  }

  /** Without spread the shadow is the box blur's alpha for every sum exactly if the window passes this test. */
  lemma NoSpread(size: int)
    requires size > 0
    ensures AMax(size, 0.0) == 255 * size
    ensures SameAsBlur(size) <==> forall sum :: 0 <= sum <= 255 * size ==> SameAlpha(sum, size)
  {
    hide SameAlpha;
    assert (255 - size * 255) as real * 0.0 == 0.0;
    if SameAsBlur(size) {
      forall sum | 0 <= sum <= 255 * size
        ensures SameAlpha(sum, size)
      {
        NoSpreadAt(sum, size);
      }
    } else {
      SumThatDiffers(size);
    }
  }

  lemma NoSpreadAt(sum: int, size: int)
    requires size > 0 && 0 <= sum <= 255 * size && SameAsBlur(size)
    ensures SameAlpha(sum, size)
  {
    hide KScale;
    var k := KScale(size);
    KScaleIs(size);
    ScaleIsByte(sum, size);
    assert 255 * size / 255 == size;
    if sum < size {
      ProductMonotone(0, sum, k);
      ProductMonotone(sum, size - 1, k);
    } else if sum == 255 * size {
      ConstantsReproduced(255, size);
    }
  }

  lemma KScaleIs(size: int)
    requires size > 0
    ensures KScale(size) == Rate(255 * size)
  {
  }

  /** A window that fails the test has a sum that tells the two apart. */
  lemma SumThatDiffers(size: int)
    requires size > 0 && !SameAsBlur(size)
    ensures exists sum :: 0 <= sum <= 255 * size && !SameAlpha(sum, size)
  {
    hide KScale;
    var k := KScale(size);
    assert 255 * size / 255 == size;
    if (size - 1) * k >= ONE {
      QuotientMonotone(ONE, (size - 1) * k);
      ScaleIsByte(size - 1, size);
      assert !SameAlpha(size - 1, size);
    } else {
      ConstantsReproduced(255, size);
      assert !SameAlpha(255 * size, size);
    }
  }

  /** Windows up to 256 pass the test. */
  lemma SmallWindowsSameAsBlur(size: int)
    requires 0 < size <= 256
    ensures SameAsBlur(size)
  {
    hide KScale;
    SmallWindowsAreFullScale(size);
    KScaleExact(size);
    var k := KScale(size);
    assert (size - 1) * k == size * k - k;
    BelowNext(size, k);
  }

  /** The next one does not: a window sum of 256 is still dropped by the shadow, and 1 in the blur. */
  lemma FirstDifferingWindow()
    ensures !SameAsBlur(257) && !SameAlpha(256, 257)
  {
    assert KScale(257) == 32768;
  }

  lemma BelowNext(size: int, k: int)
    requires 0 < size <= 256 && 0 <= 255 * (size * k) <= INT_MAX
    ensures size * k < ONE + k
  {
    // 255 * size * (size - 1) * k <= (size - 1) * INT_MAX < 255 * size * ONE
    ProductMonotone(255 * (size * k), INT_MAX, size - 1);
    assert 255 * (size * k) * (size - 1) == 255 * size * ((size - 1) * k);
    assert (size - 1) * INT_MAX < 255 * size * ONE;
    var v := (size - 1) * k;
    assert 255 * size * v < 255 * size * ONE;
    MultipleAtLeast(v - ONE, 255 * size);
    assert (v - ONE) * (255 * size) == 255 * size * v - 255 * size * ONE;
    assert v == size * k - k;
  }

  // ---------- Painting ----------

  /** How a window sum becomes a pixel: nothing below `amin`, `full` from `amax` on, scaled channels in between. */
  datatype Paint = Paint(amin: int, amax: int, ka: int, kr: int, kg: int, kb: int, full: Pixel)

  /** Scale factors that keep every channel of the scaled branch a byte. */
  predicate ValidPaint(p: Paint) {
    && 0 < p.amax
    && 0 <= p.ka <= Rate(p.amax) && 0 <= p.kr <= Rate(p.amax)
    && 0 <= p.kg <= Rate(p.amax) && 0 <= p.kb <= Rate(p.amax)
  }

  lemma ScaledField(sum: int, amax: int, k: int)
    requires 0 < amax && 0 <= sum <= amax && 0 <= k <= Rate(amax)
    ensures 0 <= sum * k <= INT_MAX && IsByte(sum * k / ONE)
  {
    hide Rate;
    ScaledAlpha(sum, amax);
    ProductMonotone(k, Rate(amax), sum);
    ProductMonotone(0, k, sum);
    assert k * sum == sum * k && Rate(amax) * sum == sum * Rate(amax);
    ScaledByte(sum * k);
  }

  /** The fields are disjoint, so the source's `|` is addition. */
  function Emit(p: Paint, sum: int): Pixel
    requires ValidPaint(p) && 0 <= sum
  {
    if sum < p.amin then 0
    else if sum >= p.amax then p.full
    else
      ScaledField(sum, p.amax, p.ka);
      ScaledField(sum, p.amax, p.kr);
      ScaledField(sum, p.amax, p.kg);
      ScaledField(sum, p.amax, p.kb);
      Pack(sum * p.ka / ONE, sum * p.kr / ONE, sum * p.kg / ONE, sum * p.kb / ONE)
  }

  function BlackPaint(amax: int): Paint
    requires amax > 0
  {
    Paint(amax / 255, amax, Rate(amax), 0, 0, 0, 0xff00_0000)
  }

  /** A premultiplied shadow colour, components between 0 and 1. */
  datatype Colour = Colour(r: real, g: real, b: real, a: real)

  predicate ValidColour(c: Colour) {
    0.0 <= c.r <= 1.0 && 0.0 <= c.g <= 1.0 && 0.0 <= c.b <= 1.0 && 0.0 <= c.a <= 1.0
  }

  lemma ColourParts(n: int, c: Colour)
    requires 0 <= n && ValidColour(c)
    ensures 0 <= Part(n, c.r) <= n && 0 <= Part(n, c.g) <= n && 0 <= Part(n, c.b) <= n && 0 <= Part(n, c.a) <= n
  {
    hide Part;
    PartRange(n, c.r);
    PartRange(n, c.g);
    PartRange(n, c.b);
    PartRange(n, c.a);
  }

  function ColourPixel(n: int, c: Colour): Pixel
    requires IsByte(n) && ValidColour(c)
  {
    ColourParts(n, c);
    Pack(Part(n, c.a), Part(n, c.r), Part(n, c.g), Part(n, c.b))
  }

  function ColourPaint(amax: int, c: Colour): (p: Paint)
    requires amax > 0 && ValidColour(c)
    ensures ValidPaint(p)
  {
    var k := Rate(amax);
    ColourParts(k, c);
    Paint(amax / 255, amax, Part(k, c.a), Part(k, c.r), Part(k, c.g), Part(k, c.b), ColourPixel(255, c))
  }

  /** The number a colour's pixel is: each component times n, cut to a whole number, in its own eight bits. */
  lemma ColourPixelBits(n: int, c: Colour)
    requires IsByte(n) && ValidColour(c)
    ensures ColourPixel(n, c)
            == (n as real * c.a).Floor * 0x100_0000 + (n as real * c.r).Floor * 0x1_0000
               + (n as real * c.g).Floor * 0x100 + (n as real * c.b).Floor
  {
    hide Part, Pack;
    ColourParts(n, c);
    PackBits(Part(n, c.a), Part(n, c.r), Part(n, c.g), Part(n, c.b));
    ColourFloors(n, c);
  }

  lemma ColourFloors(n: int, c: Colour)
    requires 0 <= n && ValidColour(c)
    ensures Part(n, c.a) == (n as real * c.a).Floor && Part(n, c.r) == (n as real * c.r).Floor
    ensures Part(n, c.g) == (n as real * c.g).Floor && Part(n, c.b) == (n as real * c.b).Floor
  {
    hide Part;
    PartIsFloor(n, c.a);
    PartIsFloor(n, c.r);
    PartIsFloor(n, c.g);
    PartIsFloor(n, c.b);
  }

  lemma PartIsFloor(n: int, v: real)
    requires 0 <= n && 0.0 <= v
    ensures Part(n, v) == (n as real * v).Floor
  {
    RealProduct(0.0, v, n as real);
  }

  /** Below saturation too every component fills its own eight bits, scaled by the sum. */
  lemma EmittedBits(amax: int, c: Colour, sum: int, rate: int, ka: int, kr: int, kg: int, kb: int)
    requires amax > 0 && ValidColour(c) && 0 <= sum && rate == INT_MAX / amax
    requires ka == (rate as real * c.a).Floor && kr == (rate as real * c.r).Floor
    requires kg == (rate as real * c.g).Floor && kb == (rate as real * c.b).Floor
    ensures Emit(ColourPaint(amax, c), sum)
            == if sum < amax / 255 then 0
               else if sum >= amax then ColourPixel(255, c)
               else sum * ka / ONE * 0x100_0000 + sum * kr / ONE * 0x1_0000 + sum * kg / ONE * 0x100 + sum * kb / ONE
  {
    hide Part, ColourPixel, Emit, ValidPaint;
    var p := ColourPaint(amax, c);
    QuotientNonNegative(INT_MAX, amax);
    ColourFloors(rate, c);
    assert p.ka == ka && p.kr == kr && p.kg == kg && p.kb == kb;
    ScaledBits(p, sum);
    ClampedBits(p, sum);
  }

  lemma ClampedBits(p: Paint, sum: int)
    requires ValidPaint(p) && 0 <= sum
    ensures sum < p.amin ==> Emit(p, sum) == 0
    ensures p.amin <= sum && p.amax <= sum ==> Emit(p, sum) == p.full
  {
    hide ValidPaint;
  }

  lemma ScaledBits(p: Paint, sum: int)
    requires ValidPaint(p) && 0 <= sum
    ensures p.amin <= sum < p.amax ==>
              Emit(p, sum) == sum * p.ka / ONE * 0x100_0000 + sum * p.kr / ONE * 0x1_0000
                              + sum * p.kg / ONE * 0x100 + sum * p.kb / ONE
  {
    hide Pack, Rate;
    if p.amin <= sum < p.amax {
      ScaledField(sum, p.amax, p.ka);
      ScaledField(sum, p.amax, p.kr);
      ScaledField(sum, p.amax, p.kg);
      ScaledField(sum, p.amax, p.kb);
      PackBits(sum * p.ka / ONE, sum * p.kr / ONE, sum * p.kg / ONE, sum * p.kb / ONE);
    }
  }

  /** The alpha of a black shadow is the clamped sum, and it has no colour. */
  lemma BlackEmits(amax: int, sum: int)
    requires amax > 0 && 0 <= sum
    ensures ValidPaint(BlackPaint(amax))
    ensures var p := Emit(BlackPaint(amax), sum);
            Channel(p, A) == ShadowAlpha(sum, amax) && Channel(p, R) == Channel(p, G) == Channel(p, B) == 0
  {
  }

  ghost predicate PremultipliedPixel(p: Pixel) {
    Channel(p, R) <= Channel(p, A) && Channel(p, G) <= Channel(p, A) && Channel(p, B) <= Channel(p, A)
  }

  /** A colour that is premultiplied, such as the components the callers pass. */
  predicate PremultipliedColour(c: Colour) {
    ValidColour(c) && c.r <= c.a && c.g <= c.a && c.b <= c.a
  }

  lemma PartsPremultiplied(n: int, c: Colour)
    requires 0 <= n && PremultipliedColour(c)
    ensures Part(n, c.r) <= Part(n, c.a) && Part(n, c.g) <= Part(n, c.a) && Part(n, c.b) <= Part(n, c.a)
  {
    hide Part;
    PartMonotone(n, c.r, c.a);
    PartMonotone(n, c.g, c.a);
    PartMonotone(n, c.b, c.a);
  }

  lemma ColourPixelPremultiplied(n: int, c: Colour)
    requires IsByte(n) && PremultipliedColour(c)
    ensures PremultipliedPixel(ColourPixel(n, c))
  {
    hide Part, Channel;
    PartsPremultiplied(n, c);
  }

  /** A premultiplied colour paints premultiplied pixels, whatever the window sum. */
  lemma EmitsPremultiplied(amax: int, c: Colour, sum: int)
    requires amax > 0 && PremultipliedColour(c) && 0 <= sum
    ensures PremultipliedPixel(Emit(ColourPaint(amax, c), sum))
  {
    hide Part, ColourPixel, Channel, ValidPaint, Emit, Rate;
    var p := ColourPaint(amax, c);
    PartsPremultiplied(Rate(amax), c);
    FieldMonotone(sum, p.kr, p.ka);
    FieldMonotone(sum, p.kg, p.ka);
    FieldMonotone(sum, p.kb, p.ka);
    ColourPixelPremultiplied(255, c);
    PackedPremultiplied(p, sum);
  }

  lemma PackedPremultiplied(p: Paint, sum: int)
    requires ValidPaint(p) && 0 <= sum && PremultipliedPixel(p.full)
    requires sum * p.kr / ONE <= sum * p.ka / ONE && sum * p.kg / ONE <= sum * p.ka / ONE
    requires sum * p.kb / ONE <= sum * p.ka / ONE
    ensures PremultipliedPixel(Emit(p, sum))
  {
    hide ValidPaint;
    assert ValidPaint(p);
  }

  // ---------- The filters ----------

  ghost function ShadeLine(line: Line, n: int, paint: Paint): (out: Line)
    requires |line| <= n && ValidPaint(paint)
    ensures |out| == n
  {
    seq(n, x requires 0 <= x < n => Emit(paint, Window(line, A, n - |line| + 1, x)))
  }

  ghost function ShadeLines(img: Image, n: nat, paint: Paint): (out: Image)
    requires ValidPaint(paint) && forall y :: 0 <= y < |img| ==> |img[y]| <= n
    ensures Rect(out, n, |img|)
  {
    seq(|img|, y requires 0 <= y < |img| => ShadeLine(img[y], n, paint))
  }

  lemma SlideAlpha(line: Line, size: int, x: int, left: Pixel, entered: Pixel, sum: int)
    requires size > 0 && left == Padded(line, x - size) && entered == Padded(line, x)
    requires sum + Channel(left, A) - Channel(entered, A) == Window(line, A, size, x - 1)
    ensures sum == Window(line, A, size, x) && 0 <= sum
  {
    hide Channel, Window;
    Slide(line, A, size, x);
  }

  /** The inner loop of the horizontal shadow. */
  method ShadeRow(dst: array<Pixel>, dstoff: nat, dstw: int, src: seq<Pixel>, srcoff: nat, srcw: int,
                  hsize: int, paint: Paint, ghost dg: Grid, ghost sg: Grid, ghost y: int)
    requires Fits(dg, dst.Length) && InBounds(dg, dst.Length) && InBounds(sg, |src|)
    requires dg.colInc == sg.colInc == 1 && dg.cols == dstw && sg.cols == srcw && 0 <= y < dg.lines && y < sg.lines
    requires srcoff == Cell(sg, y, 0) && dstoff == Cell(dg, y, 0)
    requires hsize == dstw - srcw + 1 > 0 && ValidPaint(paint)
    modifies dst
    ensures LineStarts(dg, dst[..], y, ShadeLine(LineOf(src, sg, y), dg.cols, paint), dg.cols)
    ensures OnlyLine(dg, y, dst[..], old(dst[..]))
  {
    hide Channel, Window, Emit, ValidPaint, OnlyLine, LineStarts, LineOf, InBounds, Fits, Cell;
    ghost var line := LineOf(src, sg, y);
    ghost var want := ShadeLine(line, dg.cols, paint);
    var suma := 0;
    var x := 0;
    EmptyWindow(line, hsize);
    NoCell(dg, dst[..], y, want);
    while x < dstw
      invariant 0 <= x <= dstw && suma == Window(line, A, hsize, x - 1)
      invariant LineStarts(dg, dst[..], y, want, x) && OnlyLine(dg, y, dst[..], old(dst[..]))
    {
      ghost var before := dst[..];
      LineCell(before, dg, y, x);
      if x < srcw {
        LineCell(src, sg, y, x);
      }
      if x >= hsize {
        LineCell(src, sg, y, x - hsize);
      }
      var left: Pixel := if x >= hsize then src[srcoff + x - hsize] else 0;
      suma := suma - Channel(left, A);
      var entered: Pixel := if x < srcw then src[srcoff + x] else 0;
      suma := suma + Channel(entered, A);
      SlideAlpha(line, hsize, x, left, entered, suma);
      dst[dstoff + x] := Emit(paint, suma);
      NextCell(dg, before, y, want, x, dst[..], old(dst[..]));
      x := x + 1;
    }
  }

  /** The inner loop of the vertical shadows. */
  method ShadeColumn(dst: array<Pixel>, x: nat, dsth: nat, dstscan: nat, src: seq<Pixel>, srch: nat, srcscan: nat,
                     vsize: int, paint: Paint, voff: int, ghost dg: Grid, ghost sg: Grid)
    requires Fits(dg, dst.Length) && InBounds(dg, dst.Length) && InBounds(sg, |src|) && x < dg.lines && x < sg.lines
    requires dg == Grid(dg.lines, 1, dsth, dstscan) && sg == Grid(sg.lines, 1, srch, srcscan) && x < srcscan
    requires vsize == dsth - srch + 1 > 0 && ValidPaint(paint) && voff == vsize * srcscan
    modifies dst
    ensures LineStarts(dg, dst[..], x, ShadeLine(LineOf(src, sg, x), dg.cols, paint), dg.cols)
    ensures OnlyLine(dg, x, dst[..], old(dst[..]))
  {
    hide Channel, Window, Emit, ValidPaint, OnlyLine, LineStarts, LineOf, InBounds, Fits, Cell;
    ghost var line := LineOf(src, sg, x);
    ghost var want := ShadeLine(line, dg.cols, paint);
    var suma := 0;
    var srcoff, dstoff: nat := x, x;
    var y := 0;
    CellSteps(sg, x, 0);
    CellSteps(dg, x, 0);
    EmptyWindow(line, vsize);
    NoCell(dg, dst[..], x, want);
    while y < dsth
      invariant 0 <= y <= dsth && srcoff == Cell(sg, x, y) && dstoff == Cell(dg, x, y)
      invariant suma == Window(line, A, vsize, y - 1)
      invariant LineStarts(dg, dst[..], x, want, y) && OnlyLine(dg, x, dst[..], old(dst[..]))
    {
      ghost var before := dst[..];
      LineCell(before, dg, x, y);
      if y < srch {
        LineCell(src, sg, x, y);
      }
      Leaving(src, sg, x, y, vsize);
      var left: Pixel := if srcoff >= voff then src[srcoff - voff] else 0;
      suma := suma - Channel(left, A);
      var entered: Pixel := if y < srch then src[srcoff] else 0;
      suma := suma + Channel(entered, A);
      SlideAlpha(line, vsize, y, left, entered, suma);
      dst[dstoff] := Emit(paint, suma);
      NextCell(dg, before, x, want, y, dst[..], old(dst[..]));
      CellSteps(sg, x, y);
      CellSteps(dg, x, y);
      srcoff := srcoff + srcscan;
      dstoff := dstoff + dstscan;
      y := y + 1;
    }
  }

  method FilterHorizontalBlack(dst: array<Pixel>, dstw: int, dsth: int, dstscan: nat,
                               src: seq<Pixel>, srcw: int, srch: int, srcscan: nat, spread: real)
    requires 0.0 <= spread <= 1.0
    requires Accepted(dst.Length, dstw, dsth, |src|, srcw, srch, dsth, srch) ==>
               && Grows(dstw, srcw) && HoldsImage(dst.Length, dstw, dsth, dstscan)
               && HoldsImage(|src|, srcw, srch, srcscan)
    modifies dst
    ensures !Accepted(dst.Length, dstw, dsth, |src|, srcw, srch, dsth, srch) ==> dst[..] == old(dst[..])
    ensures Accepted(dst.Length, dstw, dsth, |src|, srcw, srch, dsth, srch) ==>
              var dg, sg, amax := Rows(dstw, dsth, dstscan), Rows(srcw, srch, srcscan), AMax(dstw - srcw + 1, spread);
              && InBounds(dg, dst.Length) && InBounds(sg, |src|) && amax > 0 && ValidPaint(BlackPaint(amax))
              && ImageOf(dst[..], dg) == ShadeLines(ImageOf(src, sg)[..dsth], dstw, BlackPaint(amax))
              && OnlyGrid(dg, dst[..], old(dst[..]))
  {
    hide CheckRange, Cell, OnlyGrid, OnlyLine, LineStarts, LinesDone, InBounds, ShadeLine, LineOf, AMax, BlackPaint,
         ValidPaint;
    if CheckRange(dst.Length, dstw, dsth, |src|, srcw, srch) || dsth > srch {
      return;
    }
    AcceptedSizes(dst.Length, dstw, dsth, |src|, srcw, srch);
    ghost var dg, sg := Rows(dstw, dsth, dstscan), Rows(srcw, srch, srcscan);
    FitsInBounds(dg, dst.Length);
    FitsInBounds(sg, |src|);
    var hsize := dstw - srcw + 1;
    AMaxRange(hsize, spread);
    var amax := AMax(hsize, spread);
    BlackEmits(amax, 0);
    var paint := BlackPaint(amax);
    ghost var want := ShadeLines(ImageOf(src, sg)[..dsth], dstw, paint);
    NoLine(dg, dst[..], want);
    var srcoff, dstoff := 0, 0;
    var y := 0;
    CellSteps(sg, 0, 0);
    CellSteps(dg, 0, 0);
    while y < dsth
      invariant 0 <= y <= dsth && srcoff == Cell(sg, y, 0) && dstoff == Cell(dg, y, 0)
      invariant LinesDone(dg, dst[..], want, y) && OnlyGrid(dg, dst[..], old(dst[..]))
    {
      ghost var before := dst[..];
      CellInRange(dg, dst.Length, y, 0);
      CellInRange(sg, |src|, y, 0);
      ShadeRow(dst, dstoff, dstw, src, srcoff, srcw, hsize, paint, dg, sg, y);
      NextLine(dg, before, want, y, dst[..], old(dst[..]));
      CellSteps(sg, y, 0);
      CellSteps(dg, y, 0);
      srcoff := srcoff + srcscan;
      dstoff := dstoff + dstscan;
      y := y + 1;
    }
    AllLinesDone(dg, dst[..], want);
  }

  /** The loop over the columns, shared by the two vertical filters. */
  method ShadeColumns(dst: array<Pixel>, dstw: nat, dsth: nat, dstscan: nat,
                      src: seq<Pixel>, srcw: nat, srch: nat, srcscan: nat, paint: Paint)
    requires ValidPaint(paint) && dstw <= srcw && Grows(dsth, srch)
    requires HoldsImage(dst.Length, dstw, dsth, dstscan) && HoldsImage(|src|, srcw, srch, srcscan)
    modifies dst
    ensures var dg, sg := Rows(dstw, dsth, dstscan), Rows(srcw, srch, srcscan);
            && InBounds(dg, dst.Length) && InBounds(sg, |src|)
            && Transpose(ImageOf(dst[..], dg), dstw, dsth)
               == ShadeLines(Transpose(ImageOf(src, sg), srcw, srch)[..dstw], dsth, paint)
    ensures OnlyGrid(Columns(dstw, dsth, dstscan), dst[..], old(dst[..]))
  {
    hide Fits, Cell, OnlyGrid, OnlyLine, LineStarts, LinesDone, InBounds, ShadeLine, LineOf, ValidPaint;
    ghost var dg, sg := Columns(dstw, dsth, dstscan), Columns(srcw, srch, srcscan);
    ColumnsFit(dst.Length, dstw, dsth, dstscan);
    ColumnsAreTransposedRows(src, srcw, srch, srcscan);
    FitsInBounds(dg, dst.Length);
    ghost var want := ShadeLines(ImageOf(src, sg)[..dstw], dsth, paint);
    NoLine(dg, dst[..], want);
    var vsize := dsth - srch + 1;
    var voff := vsize * srcscan;
    var x := 0;
    while x < dstw
      invariant 0 <= x <= dstw
      invariant LinesDone(dg, dst[..], want, x) && OnlyGrid(dg, dst[..], old(dst[..]))
    {
      ghost var before := dst[..];
      ShadeColumn(dst, x, dsth, dstscan, src, srch, srcscan, vsize, paint, voff, dg, sg);
      NextLine(dg, before, want, x, dst[..], old(dst[..]));
      x := x + 1;
    }
    AllLinesDone(dg, dst[..], want);
    ColumnsAreTransposedRows(dst[..], dstw, dsth, dstscan);
  }

  method FilterVerticalBlack(dst: array<Pixel>, dstw: int, dsth: int, dstscan: nat,
                             src: seq<Pixel>, srcw: int, srch: int, srcscan: nat, spread: real)
    requires 0.0 <= spread <= 1.0
    requires Accepted(dst.Length, dstw, dsth, |src|, srcw, srch, dstw, srcw) ==>
               && Grows(dsth, srch) && HoldsImage(dst.Length, dstw, dsth, dstscan)
               && HoldsImage(|src|, srcw, srch, srcscan)
    modifies dst
    ensures !Accepted(dst.Length, dstw, dsth, |src|, srcw, srch, dstw, srcw) ==> dst[..] == old(dst[..])
    ensures Accepted(dst.Length, dstw, dsth, |src|, srcw, srch, dstw, srcw) ==>
              var dg, sg, amax := Rows(dstw, dsth, dstscan), Rows(srcw, srch, srcscan), AMax(dsth - srch + 1, spread);
              && InBounds(dg, dst.Length) && InBounds(sg, |src|) && amax > 0 && ValidPaint(BlackPaint(amax))
              && Transpose(ImageOf(dst[..], dg), dstw, dsth)
                 == ShadeLines(Transpose(ImageOf(src, sg), srcw, srch)[..dstw], dsth, BlackPaint(amax))
              && OnlyGrid(Columns(dstw, dsth, dstscan), dst[..], old(dst[..]))
  {
    hide CheckRange, HoldsImage, OnlyGrid, InBounds, ShadeLines, AMax, BlackPaint, ValidPaint;
    if CheckRange(dst.Length, dstw, dsth, |src|, srcw, srch) || dstw > srcw {
      return;
    }
    AcceptedSizes(dst.Length, dstw, dsth, |src|, srcw, srch);
    AMaxRange(dsth - srch + 1, spread);
    var amax := AMax(dsth - srch + 1, spread);
    BlackEmits(amax, 0);
    ShadeColumns(dst, dstw, dsth, dstscan, src, srcw, srch, srcscan, BlackPaint(amax));
  }

  method FilterVertical(dst: array<Pixel>, dstw: int, dsth: int, dstscan: nat,
                        src: seq<Pixel>, srcw: int, srch: int, srcscan: nat, spread: real, colour: Colour)
    requires 0.0 <= spread <= 1.0 && ValidColour(colour)
    requires Accepted(dst.Length, dstw, dsth, |src|, srcw, srch, dstw, srcw) ==>
               && Grows(dsth, srch) && HoldsImage(dst.Length, dstw, dsth, dstscan)
               && HoldsImage(|src|, srcw, srch, srcscan)
    modifies dst
    ensures !Accepted(dst.Length, dstw, dsth, |src|, srcw, srch, dstw, srcw) ==> dst[..] == old(dst[..])
    ensures Accepted(dst.Length, dstw, dsth, |src|, srcw, srch, dstw, srcw) ==>
              var dg, sg, amax := Rows(dstw, dsth, dstscan), Rows(srcw, srch, srcscan), AMax(dsth - srch + 1, spread);
              && InBounds(dg, dst.Length) && InBounds(sg, |src|) && amax > 0
              && Transpose(ImageOf(dst[..], dg), dstw, dsth)
                 == ShadeLines(Transpose(ImageOf(src, sg), srcw, srch)[..dstw], dsth, ColourPaint(amax, colour))
              && OnlyGrid(Columns(dstw, dsth, dstscan), dst[..], old(dst[..]))
  {
    hide CheckRange, HoldsImage, OnlyGrid, InBounds, ShadeLines, AMax, ColourPaint, ValidPaint;
    if CheckRange(dst.Length, dstw, dsth, |src|, srcw, srch) || dstw > srcw {
      return;
    }
    AcceptedSizes(dst.Length, dstw, dsth, |src|, srcw, srch);
    AMaxRange(dsth - srch + 1, spread);
    var amax := AMax(dsth - srch + 1, spread);
    ShadeColumns(dst, dstw, dsth, dstscan, src, srcw, srch, srcscan, ColourPaint(amax, colour));
  }

  // ---------- Whole lines ----------

  /** For every window and spread the black shadow grows with the source's alpha. */
  lemma ShadowGrowsWithSource(line: Line, line': Line, n: int, spread: real, x: int)
    requires |line| == |line'| <= n && 0.0 <= spread <= 1.0 && 0 <= x < n
    requires forall i :: 0 <= i < |line| ==> Channel(line[i], A) <= Channel(line'[i], A)
    ensures var amax := AMax(n - |line| + 1, spread);
            && amax > 0 && ValidPaint(BlackPaint(amax))
            && Channel(ShadeLine(line, n, BlackPaint(amax))[x], A)
               <= Channel(ShadeLine(line', n, BlackPaint(amax))[x], A)
  {
    hide AMax, BlackPaint, ValidPaint, Emit, ShadowAlpha, Channel;
    var size := n - |line| + 1;
    AMaxRange(size, spread);
    var amax := AMax(size, spread);
    WindowSumMonotone(Bytes(line, A), Bytes(line', A), x + 1 - size, x + 1);
    BlackEmits(amax, Window(line, A, size, x));
    BlackEmits(amax, Window(line', A, size, x));
    AlphaMonotone(Window(line, A, size, x), Window(line', A, size, x), amax);
  }

  /** Without spread and with a window up to 256, the shadow's alpha is the box blur's. */
  lemma ShadowIsBlur(line: Line, n: int, x: int)
    requires |line| <= n && n - |line| + 1 <= 256 && 0 <= x < n
    ensures var amax := AMax(n - |line| + 1, 0.0);
            && amax > 0 && ValidPaint(BlackPaint(amax))
            && Channel(ShadeLine(line, n, BlackPaint(amax))[x], A) == Channel(BlurLine(line, n)[x], A)
  {
    hide AMax, BlackPaint, ValidPaint, Emit, ShadowAlpha, Channel, Window, KScale;
    var size := n - |line| + 1;
    NoSpread(size);
    SmallWindowsSameAsBlur(size);
    BlackEmits(AMax(size, 0.0), Window(line, A, size, x));
    NoSpreadAt(Window(line, A, size, x), size);
  }
}
