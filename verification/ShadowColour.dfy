/** How the channels of a coloured shadow grow with the source: always, but for a step of one at saturation. */
module ShadowColour {
  import opened Arithmetic
  import opened Raster
  import opened BoxBlur
  import opened BlurPasses
  import opened BoxShadow
  import opened ShadowPasses

  /** The component of a colour that paints channel k. */
  function Component(c: Colour, k: int): real {
    if k == R then c.r else if k == G then c.g else if k == B then c.b else c.a
  }

  /** What a colour component v paints for a window sum. */
  function Painted(sum: int, amax: int, v: real): int
    requires amax > 0
  {
    if sum < amax / 255 then 0 else if sum >= amax then Part(255, v) else sum * Part(Rate(amax), v) / ONE
  }

  lemma EmitsComponents(amax: int, c: Colour, sum: int, k: int)
    requires amax > 0 && ValidColour(c) && 0 <= sum && R <= k <= A
    ensures Channel(Emit(ColourPaint(amax, c), sum), k) == Painted(sum, amax, Component(c, k))
  {
    hide Part, Rate;
    ColourParts(255, c);
    assert k == R || k == G || k == B || k == A;
  }

  /** The last sum before saturation does not paint more than saturation does. */
  predicate NoDrop(amax: int, v: real)
    requires amax > 0
  {
    (amax - 1) * Part(Rate(amax), v) / ONE <= Part(255, v)
  }

  ghost predicate Rising(amax: int, v: real)
    requires amax > 0
  {
    forall s, t :: 0 <= s <= t ==> Painted(s, amax, v) <= Painted(t, amax, v)
  }

  lemma RateRange(amax: int)
    requires amax > 0
    ensures 0 <= Rate(amax) && amax * Rate(amax) <= INT_MAX
  {
    QuotientNonNegative(INT_MAX, amax);
    assert amax * Rate(amax) == Rate(amax) * amax;
  }

  lemma ScaledPartMonotone(s: int, t: int, amax: int, v: real)
    requires amax > 0 && 0 <= s <= t && 0.0 <= v <= 1.0
    ensures 0 <= s * Part(Rate(amax), v) / ONE <= t * Part(Rate(amax), v) / ONE
  {
    hide Part, Rate;
    RateRange(amax);
    PartRange(Rate(amax), v);
    var k := Part(Rate(amax), v);
    FieldMonotone(k, 0, s);
    FieldMonotone(k, s, t);
    assert k * s == s * k && k * t == t * k;
  }

  /** A channel of the coloured shadow grows with the window sum if and only if it does not drop at saturation. */
  lemma RisingIffNoDrop(amax: int, v: real)
    requires amax > 0 && 0.0 <= v <= 1.0
    ensures Rising(amax, v) <==> NoDrop(amax, v)
  {
    hide Part, Rate;
    PartRange(255, v);
    if NoDrop(amax, v) {
      forall s, t | 0 <= s <= t
        ensures Painted(s, amax, v) <= Painted(t, amax, v)
      {
        ScaledPartMonotone(s, if t < amax then t else Max(s, amax - 1), amax, v);
      }
    } else {
      assert Painted(amax, amax, v) < Painted(amax - 1, amax, v);
    }
  }

  /** Where a channel drops, it drops by one. */
  lemma DropsByOne(s: int, t: int, amax: int, v: real)
    requires amax > 0 && 0 <= s <= t && 0.0 <= v <= 1.0
    ensures Painted(s, amax, v) <= Painted(t, amax, v) + 1
  {
    hide Part, Rate;
    PartRange(255, v);
    if s < amax {
      ScaledPartMonotone(s, Max(s, Min(t, amax)), amax, v);
      SaturatesNear(amax, v);
    }
  }

  lemma SaturatesNear(amax: int, v: real)
    requires amax > 0 && 0.0 <= v <= 1.0
    ensures amax * Part(Rate(amax), v) / ONE <= Part(255, v) + 1
  {
    hide Part, Rate;
    var rate, k := Rate(amax), Part(Rate(amax), v);
    RateRange(amax);
    PartBelow(rate, v);
    PartBelow(255, v);
    assert (amax * k) as real <= INT_MAX as real * v by {
      CastProduct(amax, k);
      CastProduct(amax, rate);
      ProductChain(amax as real, k as real, rate as real, v, INT_MAX as real);
    }
    var level := amax * k / ONE;
    assert (level * ONE) as real <= INT_MAX as real * v;
    CastProduct(level, ONE);
    assert level as real <= 256.0 * v;
  }

  lemma CastProduct(a: int, b: int)
    ensures (a * b) as real == a as real * b as real
  {
  }

  lemma ProductChain(a: real, k: real, r: real, v: real, m: real)
    requires 0.0 <= a && 0.0 <= v && k <= r * v && a * r <= m
    ensures a * k <= m * v
  {
    RealProduct(k, r * v, a);
    RealProduct(a * r, m, v);
    assert a * (r * v) == v * (a * r);
  }

  lemma PartBelow(n: int, v: real)
    requires 0 <= n && 0.0 <= v
    ensures Part(n, v) as real <= n as real * v < Part(n, v) as real + 1.0
  {
    RealProduct(0.0, v, n as real);
  }

  /** Full and absent components never drop. */
  lemma FullNeverDrops(amax: int)
    requires amax > 0
    ensures NoDrop(amax, 1.0) && NoDrop(amax, 0.0)
  {
    hide Part, Rate;
    RateRange(amax);
    WholePart(255);
    WholePart(Rate(amax));
    NoPart(255);
    NoPart(Rate(amax));
    ScaledAlpha(amax - 1, amax);
  }

  /** A component of 0.9 under a window of 3 drops: 230 just before saturation, 229 from there on. */
  lemma DropAtSaturation()
    ensures AMax(3, 0.0) == 765 && Painted(764, 765, 0.9) == 230 && Painted(765, 765, 0.9) == 229
    ensures !NoDrop(765, 0.9)
  {
    assert Rate(765) == 2807168 && Part(2807168, 0.9) == 2526451 && Part(255, 0.9) == 229;
  }

  /**
   * Black passes and then a coloured one: more source alpha takes at most one off any channel anywhere, and nothing
   * where the channel does not drop at saturation.
   */
  lemma ColouredRunMonotone(p: Picture, q: Picture, passes: seq<Pass>, spreads: seq<real>, pass: Pass, spread: real,
                            colour: Colour, k: int, x: int, y: int)
    requires Valid(p) && Valid(q) && Spreads(passes, spreads) && forall i, j :: Value(p, A, i, j) <= Value(q, A, i, j)
    requires pass.size > 0 && 0.0 <= spread <= 1.0 && ValidColour(colour) && R <= k <= A
    ensures var paint := Coloured(pass, spread, colour);
            var v := Value(Shade(BlackRun(p, passes, spreads), pass, paint), k, x, y);
            var w := Value(Shade(BlackRun(q, passes, spreads), pass, paint), k, x, y);
            var amax := AMax(pass.size, spread);
            v <= w + 1 && amax > 0 && (NoDrop(amax, Component(colour, k)) ==> v <= w)
  {
    hide Value, Shade, BlackRun, Channel, Emit, ValidPaint, ColourPaint, AMax, WindowAt, NoDrop, Painted;
    var p', q' := BlackRun(p, passes, spreads), BlackRun(q, passes, spreads);
    forall i, j
      ensures Value(p', A, i, j) <= Value(q', A, i, j)
    {
      ShadowRunMonotone(p, q, passes, spreads, spreads, i, j);
    }
    WindowsGrow(p', q', pass, x, y);
    var paint, amax, v := Coloured(pass, spread, colour), AMax(pass.size, spread), Component(colour, k);
    var s, t := WindowAt(p', pass, x, y), WindowAt(q', pass, x, y);
    AMaxRange(pass.size, spread);
    ShadeValue(p', pass, paint, k, x, y);
    ShadeValue(q', pass, paint, k, x, y);
    EmitsComponents(amax, colour, s, k);
    EmitsComponents(amax, colour, t, k);
    DropsByOne(s, t, amax, v);
    RisingIffNoDrop(amax, v);
  }
}
