/** The loop that grows a shadow by repeated passes: black ones, and for the vertical half a coloured one at the end. */
module ShadowPeer {
  import opened Arithmetic
  import opened Raster
  import opened BoxBlur
  import opened BlurPasses
  import opened BlurPeer
  import opened BoxShadow
  import opened ShadowPasses

  /** The passes made. Without growth there is one of window 1, which only the vertical half makes. */
  function AllPasses(horizontal: bool, inc: nat, iterations: nat): seq<Pass> {
    if inc * iterations == 0 then [Make(horizontal, 1)] else Passes(horizontal, inc, iterations)
  }

  /** The spread of each pass: none in the one that evens out the growth. */
  function AllSpreads(count: nat, iterations: nat, spread: real): (spreads: seq<real>)
    ensures |spreads| == count
  {
    seq(count, j => if j >= iterations then 0.0 else spread)
  }

  lemma PassesSpread(horizontal: bool, inc: nat, iterations: nat, spread: real)
    requires 0.0 <= spread <= 1.0
    ensures var all := AllPasses(horizontal, inc, iterations);
            0 < |all| <= iterations + 1 && Spreads(all, AllSpreads(|all|, iterations, spread))
  {
  }

  /** As for the blur; without growth the one pass has window 1. */
  lemma AllPassesAddUp(horizontal: bool, inc: nat, iterations: nat)
    ensures var all, grow := AllPasses(horizontal, inc, iterations), Growth(inc, iterations);
            && grow % 2 == 0 && inc * iterations <= grow <= inc * iterations + 1
            && Reach(all, horizontal) == grow && Reach(all, !horizontal) == 0
            && (forall i :: 0 <= i < |all| ==> if horizontal then all[i].Horizontal? else all[i].Vertical?)
            && (inc * iterations > 0 ==>
                  |all| >= iterations && forall i :: 0 <= i < iterations ==> all[i].size == inc + 1)
  {
    hide Reach, Passes, Growth;
    PassesAddUp(horizontal, inc, iterations);
    PassesOneWay(horizontal, inc, iterations);
    OneEmptyPass(horizontal);
  }

  lemma PassesOneWay(horizontal: bool, inc: nat, iterations: nat)
    ensures var passes := Passes(horizontal, inc, iterations);
            && |passes| >= iterations && (forall i :: 0 <= i < iterations ==> passes[i].size == inc + 1)
            && forall i :: 0 <= i < |passes| ==> if horizontal then passes[i].Horizontal? else passes[i].Vertical?
  {
  }

  lemma OneEmptyPass(horizontal: bool)
    ensures Reach([Make(horizontal, 1)], horizontal) == Reach([Make(horizontal, 1)], !horizontal) == 0
  {
  }

  lemma NoTurnWithoutGrowth(inc: nat, iterations: nat)
    requires inc * iterations == 0
    ensures Growth(inc, iterations) == Grown(inc, iterations, 0) == Grown(inc, iterations, 1) == 0
  {
    assert inc == 0 || iterations == 0;
  }

  /** The turns of the loop follow the list of passes, whether or not the image grows. */
  lemma ShadowTurn(horizontal: bool, inc: nat, iterations: nat, j: nat)
    requires j <= |AllPasses(horizontal, inc, iterations)|
    ensures var all := AllPasses(horizontal, inc, iterations);
            && Grown(inc, iterations, j) <= Growth(inc, iterations)
            && (j == |all| ==> Grown(inc, iterations, j) == Growth(inc, iterations))
            && (0 < j < |all| ==> Grown(inc, iterations, j) < Growth(inc, iterations))
            && (inc * iterations > 0 && j < |all| ==> Grown(inc, iterations, j) < Growth(inc, iterations))
            && (j < |all| ==>
                  && Grown(inc, iterations, j + 1) == Min(Grown(inc, iterations, j) + inc, Growth(inc, iterations))
                  && (Grown(inc, iterations, j + 1) == Growth(inc, iterations) <==> j + 1 == |all|)
                  && all[j] == Make(horizontal, Grown(inc, iterations, j + 1) - Grown(inc, iterations, j) + 1))
  {
    hide Growth, Grown, Passes;
    if inc * iterations == 0 {
      NoTurnWithoutGrowth(inc, iterations);
    } else {
      assert inc > 0;
      Turn(horizontal, inc, iterations, j);
      if j < |Passes(horizontal, inc, iterations)| {
        Turn(horizontal, inc, iterations, j + 1);
      }
    }
  }

  /** The paint of a pass: the colour in the last vertical pass, black before. */
  function PaintFor(pass: Pass, spread: real, last: bool, colour: Colour): (paint: Paint)
    requires pass.size > 0 && 0.0 <= spread <= 1.0 && ValidColour(colour)
    ensures LeavesEmpty(paint)
  {
    if pass.Vertical? && last then Coloured(pass, spread, colour) else Black(pass, spread)
  }

  /** One turn of the loop: a fresh buffer holds the picture after one shadow pass. */
  method OneShadow(cur: seq<Pixel>, curw: nat, curh: nat, curscan: nat, neww: nat, newh: nat, newscan: nat,
                   horizontal: bool, last: bool, spread: real, colour: Colour, ghost pass: Pass)
    returns (next: seq<Pixel>)
    requires HoldsImage(|cur|, curw, curh, curscan) && 0 < curw <= neww <= newscan && 0 < curh <= newh
    requires neww * newh <= INT_MAX && 0.0 <= spread <= 1.0 && ValidColour(colour)
    requires if horizontal then newh == curh && Grows(neww, curw) else neww == curw && Grows(newh, curh)
    requires pass == Make(horizontal, if horizontal then neww - curw + 1 else newh - curh + 1)
    ensures HoldsImage(|next|, neww, newh, newscan)
    ensures PictureOf(next, neww, newh, newscan)
            == Shade(PictureOf(cur, curw, curh, curscan), pass, PaintFor(pass, spread, last, colour))
  {
    hide CheckRange, Fits, InBounds, OnlyGrid, ShadeLines, Cell, AMax, ValidPaint, BlackPaint, ColourPaint;
    var dst := new Pixel[newscan * newh];
    FreshBufferHolds(neww, newh, newscan);
    GrownSizeAccepted(dst.Length, neww, newh, newscan, |cur|, curw, curh, curscan);
    ghost var p := PictureOf(cur, curw, curh, curscan);
    ghost var paint := PaintFor(pass, spread, last, colour);
    if horizontal {
      FilterHorizontalBlack(dst, neww, newh, newscan, cur, curw, curh, curscan, spread);
      assert p.px[..newh] == p.px;
    } else {
      if !last || (colour.a == 1.0 && colour.r == 0.0 && colour.g == 0.0 && colour.b == 0.0) {
        AMaxRange(newh - curh + 1, spread);
        BlackColourIsBlack(AMax(newh - curh + 1, spread));
        FilterVerticalBlack(dst, neww, newh, newscan, cur, curw, curh, curscan, spread);
      } else {
        BoxShadow.FilterVertical(dst, neww, newh, newscan, cur, curw, curh, curscan, spread, colour);
      }
      ghost var t := Transpose(p.px, curw, curh);
      assert t[..neww] == t;
      TransposedShadowIsVerticalPass(p, newh - curh + 1, paint, ImageOf(dst[..], Rows(neww, newh, newscan)));
    }
    next := dst[..];
  }

  /** The source after the first j of the passes, the last of all of them painted by `PaintFor`. */
  ghost function After(p: Picture, passes: seq<Pass>, spreads: seq<real>, colour: Colour, j: nat): (q: Picture)
    requires Valid(p) && Spreads(passes, spreads) && ValidColour(colour) && j <= |passes|
    ensures Valid(q)
  {
    if j == 0 then p
    else
      var pass, last := passes[j - 1], j == |passes|;
      Shade(After(p, passes, spreads, colour, j - 1), pass, PaintFor(pass, spreads[j - 1], last, colour))
  }

  /** That is a run of black passes, up to the last one and in the horizontal half altogether. */
  lemma {:induction false} AfterIsBlackRun(p: Picture, passes: seq<Pass>, spreads: seq<real>, colour: Colour, j: nat)
    requires Valid(p) && Spreads(passes, spreads) && ValidColour(colour) && j <= |passes|
    requires j < |passes| || forall i :: 0 <= i < |passes| ==> passes[i].Horizontal?
    ensures After(p, passes, spreads, colour, j) == BlackRun(p, passes[..j], spreads[..j])
  {
    hide Shade, Black, Coloured;
    if j > 0 {
      AfterIsBlackRun(p, passes, spreads, colour, j - 1);
      assert passes[..j][..j - 1] == passes[..j - 1] && spreads[..j][..j - 1] == spreads[..j - 1];
    }
  }

  /** The loop of the shadow peer's `filter`: all passes are made, each on a fresh buffer. */
  method MakePasses(src: seq<Pixel>, w: nat, h: nat, scan: nat, horizontal: bool, inc: nat, iterations: nat,
                    spread: real, colour: Colour, pads: seq<nat>)
    returns (out: seq<Pixel>, outw: nat, outh: nat, outscan: nat)
    requires HoldsImage(|src|, w, h, scan) && 0 < w && 0 < h && 255 * (inc + 1) <= INT_MAX
    requires var grow := Growth(inc, iterations);
             (if horizontal then (w + grow) * h else w * (h + grow)) <= INT_MAX
    requires |pads| > iterations && 0.0 <= spread <= 1.0 && ValidColour(colour)
    requires horizontal ==> inc * iterations > 0
    ensures HoldsImage(|out|, outw, outh, outscan)
    ensures outw == (if horizontal then w + Growth(inc, iterations) else w)
    ensures outh == (if horizontal then h else h + Growth(inc, iterations))
    ensures var all := AllPasses(horizontal, inc, iterations);
            var spreads := AllSpreads(|all|, iterations, spread);
            && 0 < |all| && Spreads(all, spreads)
            && PictureOf(out, outw, outh, outscan) == After(PictureOf(src, w, h, scan), all, spreads, colour, |all|)
  {
    hide HoldsImage, PictureOf, AllPasses, AllSpreads, Grown, Spreads, Shade, Black, Coloured;
    out, outw, outh, outscan := src, w, h, scan;
    ghost var p := PictureOf(src, w, h, scan);
    ghost var all := AllPasses(horizontal, inc, iterations);
    ghost var spreads := AllSpreads(|all|, iterations, spread);
    PassesSpread(horizontal, inc, iterations, spread);
    NoGrowth(inc, iterations);
    var grow := (inc * iterations + 1) / 2 * 2;
    assert grow == Growth(inc, iterations);
    hide Growth;
    var finalw, finalh := if horizontal then w + grow else w, if horizontal then h else h + grow;
    var remaining, spr, force := iterations as int, spread, !horizontal;
    var j := 0;
    ShadowTurn(horizontal, inc, iterations, 0);
    while force || outw < finalw || outh < finalh
      invariant HoldsImage(|out|, outw, outh, outscan)
      invariant 0 <= j <= |all| && PictureOf(out, outw, outh, outscan) == After(p, all, spreads, colour, j)
      invariant outw == (if horizontal then w + Grown(inc, iterations, j) else w)
      invariant outh == (if horizontal then h else h + Grown(inc, iterations, j))
      invariant force == (!horizontal && j == 0) && remaining == iterations - j
      invariant spr == if j > iterations then 0.0 else spread
      decreases |all| - j
    {
      ShadowTurn(horizontal, inc, iterations, j);
      var neww := if horizontal then outw + inc else outw;
      var newh := if horizontal then outh else outh + inc;
      if neww > finalw {
        neww := finalw;
      }
      if newh > finalh {
        newh := finalh;
      }
      if remaining == 0 {
        spr := 0.0;
      }
      AreaBelow(neww, newh, finalw, finalh);
      SpreadOf(all, iterations, spread, j);
      var newscan := neww + pads[j];
      out := OneShadow(out, outw, outh, outscan, neww, newh, newscan, horizontal, !(neww < finalw || newh < finalh),
                       spr, colour, all[j]);
      remaining := remaining - 1;
      force := false;
      outw, outh, outscan, j := neww, newh, newscan, j + 1;
    }
    ShadowTurn(horizontal, inc, iterations, j);
    assert j == |all|;
  }

  /**
   * The horizontal or vertical half of the shadow peer's `filter`, for an image at (x, y). The horizontal half is a run
   * of black passes; the vertical half is one, and then a coloured pass, which it makes even if nothing grows. The
   * growth is even and half of it lies on either side. The spread is dropped in the pass that evens out the growth.
   * `pads` gives the padding of each buffer's lines.
   */
  method Filter(src: seq<Pixel>, x: int, y: int, w: nat, h: nat, scan: nat, horizontal: bool, inc: nat,
                iterations: nat, spread: real, colour: Colour, pads: seq<nat>)
    returns (out: seq<Pixel>, outx: int, outy: int, outw: nat, outh: nat, outscan: nat)
    requires HoldsImage(|src|, w, h, scan) && 0 < w && 0 < h && 255 * (inc + 1) <= INT_MAX
    requires var grow := Growth(inc, iterations);
             (if horizontal then (w + grow) * h else w * (h + grow)) <= INT_MAX
    requires |pads| > iterations && 0.0 <= spread <= 1.0 && ValidColour(colour)
    ensures HoldsImage(|out|, outw, outh, outscan)
    ensures if horizontal then outh == h else outw == w
    ensures var grow := outw - w + outh - h;
            grow % 2 == 0 && inc * iterations <= grow <= inc * iterations + 1
    ensures x - outx == (outx + outw) - (x + w) && y - outy == (outy + outh) - (y + h)
    ensures horizontal && (iterations < 1 || inc < 1) ==> out == src && outscan == scan
    ensures !(horizontal && (iterations < 1 || inc < 1)) ==>
              var all := AllPasses(horizontal, inc, iterations);
              var n, spreads := |all| - 1, AllSpreads(|all|, iterations, spread);
              && Reach(all, true) == outw - w && Reach(all, false) == outh - h
              && (forall i :: 0 <= i < |all| ==> if horizontal then all[i].Horizontal? else all[i].Vertical?)
              && (inc * iterations > 0 ==>
                    |all| >= iterations && forall i :: 0 <= i < iterations ==> all[i].size == inc + 1)
              && (forall i :: 0 <= i <= n ==> spreads[i] == if i < iterations then spread else 0.0)
              && Spreads(all, spreads) && 0 <= n && Spreads(all[..n], spreads[..n])
              && PictureOf(out, outw, outh, outscan)
                 == if horizontal then BlackRun(PictureOf(src, w, h, scan), all, spreads)
                    else Shade(BlackRun(PictureOf(src, w, h, scan), all[..n], spreads[..n]),
                               all[n], Coloured(all[n], spreads[n], colour))
  {
    hide HoldsImage, PictureOf, Reach, AllPasses, AllSpreads, Spreads, Shade, Black, BlackRun, Coloured;
    out, outx, outy, outw, outh, outscan := src, x, y, w, h, scan;
    if horizontal && (iterations < 1 || inc < 1) {
      assert inc * iterations == 0;
      return;
    }
    ghost var all := AllPasses(horizontal, inc, iterations);
    out, outw, outh, outscan := MakePasses(src, w, h, scan, horizontal, inc, iterations, spread, colour, pads);
    Finished(PictureOf(src, w, h, scan), horizontal, inc, iterations, AllSpreads(|all|, iterations, spread), colour);
    AllPassesAddUp(horizontal, inc, iterations);
    SpreadsAre(|all|, iterations, spread);
    outx, outy := x - (outw - w) / 2, y - (outh - h) / 2;
  }

  lemma SpreadsAre(count: nat, iterations: nat, spread: real)
    ensures forall i :: 0 <= i < count ==>
              AllSpreads(count, iterations, spread)[i] == if i < iterations then spread else 0.0
  {
  }

  lemma SpreadOf(all: seq<Pass>, iterations: nat, spread: real, j: nat)
    requires j < |all|
    ensures AllSpreads(|all|, iterations, spread)[j] == if j >= iterations then 0.0 else spread
  {
  }

  lemma Finished(p: Picture, horizontal: bool, inc: nat, iterations: nat, spreads: seq<real>, colour: Colour)
    requires var all := AllPasses(horizontal, inc, iterations);
             Valid(p) && Spreads(all, spreads) && ValidColour(colour) && 0 < |all|
    ensures var all := AllPasses(horizontal, inc, iterations);
            var n := |all| - 1;
            && Spreads(all[..n], spreads[..n])
            && After(p, all, spreads, colour, |all|)
               == if horizontal then BlackRun(p, all, spreads)
                  else Shade(BlackRun(p, all[..n], spreads[..n]), all[n], Coloured(all[n], spreads[n], colour))
  {
    hide Shade, Black, Coloured;
    var all := AllPasses(horizontal, inc, iterations);
    var n := |all| - 1;
    assert forall i :: 0 <= i < |all| ==> all[i].Horizontal? == horizontal;
    AfterIsBlackRun(p, all, spreads, colour, n);
    if horizontal {
      AfterIsBlackRun(p, all, spreads, colour, |all|);
      assert all[..|all|] == all && spreads[..|all|] == spreads;
    }
  }
}
