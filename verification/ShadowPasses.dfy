/** What any number of box shadow passes does to a whole picture. */
module ShadowPasses {
  import opened Arithmetic
  import opened Raster
  import opened BoxBlur
  import opened BlurPasses
  import opened BoxShadow

  // ---------- One pass ----------

  /** One call of a shadow filter with the given window and paint. */
  ghost function Shade(p: Picture, pass: Pass, paint: Paint): (q: Picture)
    requires Valid(p) && pass.size > 0 && ValidPaint(paint)
    ensures Valid(q)
  {
    match pass
    case Horizontal(size) =>
      Picture(p.w + size - 1, p.h, ShadeLines(p.px, p.w + size - 1, paint))
    case Vertical(size) =>
      var n := p.h + size - 1;
      Picture(p.w, n, Transpose(ShadeLines(Transpose(p.px, p.w, p.h), n, paint), n, p.w))
  }

  /** An image that transposed is the shadow of a transposed image is that image after a vertical pass. */
  lemma TransposedShadowIsVerticalPass(p: Picture, size: nat, paint: Paint, d: Image)
    requires Valid(p) && size > 0 && ValidPaint(paint) && Rect(d, p.w, p.h + size - 1)
    requires Transpose(d, p.w, p.h + size - 1) == ShadeLines(Transpose(p.px, p.w, p.h), p.h + size - 1, paint)
    ensures Shade(p, Vertical(size), paint) == Picture(p.w, p.h + size - 1, d)
  {
    hide ShadeLines, ValidPaint;
    var n := p.h + size - 1;
    var t := Transpose(Transpose(d, p.w, n), n, p.w);
    assert forall y :: 0 <= y < n ==> t[y] == d[y];
    assert t == d;
  }

  /** The alpha window sum that ends at a position, over the line the pass slides along. */
  ghost function WindowAt(p: Picture, pass: Pass, x: int, y: int): (v: int)
    requires Valid(p) && pass.size > 0
    ensures 0 <= v <= 255 * pass.size
  {
    Window(Track(p, pass, x, y), A, pass.size, Place(pass, x, y))
  }

  /** A paint that leaves positions without any source alpha untouched. */
  predicate LeavesEmpty(paint: Paint) {
    ValidPaint(paint) && paint.amin > 0
  }

  /** Every value of the result, at any position, is the painted window sum. */
  lemma ShadeValue(p: Picture, pass: Pass, paint: Paint, k: int, x: int, y: int)
    requires Valid(p) && pass.size > 0 && LeavesEmpty(paint) && R <= k <= A
    ensures Value(Shade(p, pass, paint), k, x, y) == Channel(Emit(paint, WindowAt(p, pass, x, y)), k)
  {
    hide Channel, Emit, ValidPaint;
    var q, line, z := Shade(p, pass, paint), Track(p, pass, x, y), Place(pass, x, y);
    if 0 <= x < q.w && 0 <= y < q.h {
      assert q.px[y][x] == Emit(paint, Window(line, A, pass.size, z));
    } else {
      WindowSumBounds(Bytes(line, A), z + 1 - pass.size, z + 1, 0, 0);
      NothingPainted(paint, k);
    }
  }

  lemma NothingPainted(paint: Paint, k: int)
    requires LeavesEmpty(paint) && R <= k <= A
    ensures Channel(Emit(paint, 0), k) == 0
  {
  }

  lemma WindowsGrow(p: Picture, q: Picture, pass: Pass, x: int, y: int)
    requires Valid(p) && Valid(q) && pass.size > 0 && forall i, j :: Value(p, A, i, j) <= Value(q, A, i, j)
    ensures WindowAt(p, pass, x, y) <= WindowAt(q, pass, x, y)
  {
    hide Channel, Track, Value;
    var z, s, t := Place(pass, x, y), Bytes(Track(p, pass, x, y), A), Bytes(Track(q, pass, x, y), A);
    forall i
      ensures At(s, i) <= At(t, i)
    {
      TrackValues(p, pass, A, x, y, i);
      TrackValues(q, pass, A, x, y, i);
    }
    WindowSumMonotone(s, t, z + 1 - pass.size, z + 1);
  }

  /** A window over a constant alpha. */
  lemma ConstantWindow(p: Picture, pass: Pass, x: int, y: int, c: int)
    requires Valid(p) && pass.size > 0
    requires Within(p, A, x - Before(pass, true), x, y - Before(pass, false), y, c, c)
    ensures WindowAt(p, pass, x, y) == pass.size * c
  {
    hide Channel, Track, Value;
    var z := Place(pass, x, y);
    TrackWithin(p, pass, A, x, y, c, c);
    var s := Bytes(Track(p, pass, x, y), A);
    assert Max(c, 0) <= At(s, z) <= Min(c, 255);
    WindowSumBounds(s, z + 1 - pass.size, z + 1, c, c);
  }

  // ---------- Black passes ----------

  ghost predicate Spreads(passes: seq<Pass>, spreads: seq<real>) {
    && |passes| == |spreads|
    && forall i :: 0 <= i < |passes| ==> passes[i].size > 0 && 0.0 <= spreads[i] <= 1.0
  }

  /** The paint of a black pass. */
  function Black(pass: Pass, spread: real): (paint: Paint)
    requires pass.size > 0 && 0.0 <= spread <= 1.0
    ensures LeavesEmpty(paint)
  {
    hide AMax, Rate;
    AMaxRange(pass.size, spread);
    BlackPaint(AMax(pass.size, spread))
  }

  /** A run of black passes, each with a spread of its own. */
  ghost function BlackRun(p: Picture, passes: seq<Pass>, spreads: seq<real>): (q: Picture)
    requires Valid(p) && Spreads(passes, spreads)
    ensures Valid(q)
    decreases |passes|
  {
    if passes == [] then p
    else
      var n := |passes| - 1;
      Shade(BlackRun(p, passes[..n], spreads[..n]), passes[n], Black(passes[n], spreads[n]))
  }

  lemma BlackAlpha(p: Picture, pass: Pass, spread: real, x: int, y: int)
    requires Valid(p) && pass.size > 0 && 0.0 <= spread <= 1.0
    ensures AMax(pass.size, spread) > 0
    ensures Value(Shade(p, pass, Black(pass, spread)), A, x, y)
            == ShadowAlpha(WindowAt(p, pass, x, y), AMax(pass.size, spread))
  {
    hide Channel, Emit, ValidPaint, BlackPaint, Shade, Value, ShadowAlpha, WindowAt, AMax;
    AMaxRange(pass.size, spread);
    ShadeValue(p, pass, Black(pass, spread), A, x, y);
    BlackEmits(AMax(pass.size, spread), WindowAt(p, pass, x, y));
  }

  /**
   * Through any run of black passes, more source alpha and more spread in any of the passes never give less alpha
   * anywhere.
   */
  lemma {:induction false} ShadowRunMonotone(p: Picture, q: Picture, passes: seq<Pass>,
                                             spreads: seq<real>, spreads': seq<real>, x: int, y: int)
    requires Valid(p) && Valid(q) && Spreads(passes, spreads) && Spreads(passes, spreads')
    requires forall i, j :: Value(p, A, i, j) <= Value(q, A, i, j)
    requires forall i :: 0 <= i < |passes| ==> spreads[i] <= spreads'[i]
    ensures Value(BlackRun(p, passes, spreads), A, x, y) <= Value(BlackRun(q, passes, spreads'), A, x, y)
    decreases |passes|
  {
    hide Value, Shade, Black, ShadowAlpha, AMax, WindowAt;
    if passes != [] {
      var n := |passes| - 1;
      var pass, s, t := passes[n], spreads[n], spreads'[n];
      var p', q' := BlackRun(p, passes[..n], spreads[..n]), BlackRun(q, passes[..n], spreads'[..n]);
      forall i, j
        ensures Value(p', A, i, j) <= Value(q', A, i, j)
      {
        ShadowRunMonotone(p, q, passes[..n], spreads[..n], spreads'[..n], i, j);
      }
      WindowsGrow(p', q', pass, x, y);
      BlackAlpha(p', pass, s, x, y);
      BlackAlpha(q', pass, t, x, y);
      AlphaMonotone(WindowAt(p', pass, x, y), WindowAt(q', pass, x, y), AMax(pass.size, s));
      AlphaGrowsWithSpread(WindowAt(q', pass, x, y), pass.size, s, t);
    }
  }

  /** Opaque interiors stay opaque and empty ones empty, for every run, window and spread. */
  lemma {:induction false} ShadowRunInterior(p: Picture, passes: seq<Pass>, spreads: seq<real>, x: int, y: int, c: int)
    requires Valid(p) && Spreads(passes, spreads) && (c == 0 || c == 255)
    requires Within(p, A, x - Reach(passes, true), x, y - Reach(passes, false), y, c, c)
    ensures Value(BlackRun(p, passes, spreads), A, x, y) == c
    decreases |passes|
  {
    hide Value, Shade, Black, AMax, WindowAt, Rate;
    if passes == [] {
      assert c <= Value(p, A, x, y) <= c;
    } else {
      var n := |passes| - 1;
      var pass := passes[n];
      var q := BlackRun(p, passes[..n], spreads[..n]);
      forall i, j | x - Before(pass, true) <= i <= x && y - Before(pass, false) <= j <= y
        ensures c <= Value(q, A, i, j) <= c
      {
        ShadowRunInterior(p, passes[..n], spreads[..n], i, j, c);
      }
      ConstantWindow(q, pass, x, y, c);
      BlackAlpha(q, pass, spreads[n], x, y);
      AMaxRange(pass.size, spreads[n]);
    }
  }

  // ---------- The coloured pass ----------

  /** The paint of a coloured pass. */
  function Coloured(pass: Pass, spread: real, colour: Colour): (paint: Paint)
    requires pass.size > 0 && 0.0 <= spread <= 1.0 && ValidColour(colour)
    ensures LeavesEmpty(paint)
  {
    hide AMax, Rate, ValidPaint;
    AMaxRange(pass.size, spread);
    ColourPaint(AMax(pass.size, spread), colour)
  }

  /** Painting with opaque black is the black pass: the peer's short cut for that colour changes nothing. */
  lemma BlackColourIsBlack(amax: int)
    requires amax > 0
    ensures ColourPaint(amax, Colour(0.0, 0.0, 0.0, 1.0)) == BlackPaint(amax)
  {
    hide Rate;
    WholePart(Rate(amax));
    WholePart(255);
    NoPart(Rate(amax));
    NoPart(255);
  }

  lemma NoPart(n: int)
    ensures Part(n, 0.0) == 0
  {
    assert n as real * 0.0 == 0.0;
  }

  /** Whatever came before, a pass in a premultiplied colour leaves a premultiplied picture. */
  lemma ColouredPassPremultiplied(p: Picture, pass: Pass, spread: real, colour: Colour)
    requires Valid(p) && pass.size > 0 && 0.0 <= spread <= 1.0 && PremultipliedColour(colour)
    ensures Premultiplied(Shade(p, pass, Coloured(pass, spread, colour)))
  {
    hide Value, Shade, Emit, ValidPaint, ColourPaint, AMax, WindowAt, Channel;
    var paint := Coloured(pass, spread, colour);
    forall k, x, y | R <= k <= B
      ensures Value(Shade(p, pass, paint), k, x, y) <= Value(Shade(p, pass, paint), A, x, y)
    {
      ShadeValue(p, pass, paint, k, x, y);
      ShadeValue(p, pass, paint, A, x, y);
      AMaxRange(pass.size, spread);
      EmitsPremultiplied(AMax(pass.size, spread), colour, WindowAt(p, pass, x, y));
      assert k == R || k == G || k == B;
    }
  }

  /** After any black run, an opaque interior comes out of the last pass in exactly the shadow colour. */
  lemma ColouredInterior(p: Picture, passes: seq<Pass>, spreads: seq<real>, pass: Pass, spread: real, colour: Colour,
                         x: int, y: int, k: int)
    requires Valid(p) && Spreads(passes, spreads) && pass.size > 0 && 0.0 <= spread <= 1.0 && ValidColour(colour)
    requires R <= k <= A
    requires Within(p, A, x - Reach(passes + [pass], true), x, y - Reach(passes + [pass], false), y, 255, 255)
    ensures Value(Shade(BlackRun(p, passes, spreads), pass, Coloured(pass, spread, colour)), k, x, y)
            == Channel(ColourPixel(255, colour), k)
  {
    hide Value, Shade, ValidPaint, AMax, WindowAt, Channel, ColourPixel, BlackRun, Rate, Part;
    assert (passes + [pass])[..|passes|] == passes;
    var q := BlackRun(p, passes, spreads);
    forall i, j | x - Before(pass, true) <= i <= x && y - Before(pass, false) <= j <= y
      ensures 255 <= Value(q, A, i, j) <= 255
    {
      ShadowRunInterior(p, passes, spreads, i, j, 255);
    }
    ConstantWindow(q, pass, x, y, 255);
    ShadeValue(q, pass, Coloured(pass, spread, colour), k, x, y);
    AMaxRange(pass.size, spread);
  }
}
