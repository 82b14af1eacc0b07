/** The loop that grows an image by repeated box blur passes, on fresh buffers. */
module BlurPeer {
  import opened Arithmetic
  import opened Raster
  import opened BoxBlur
  import opened BlurPasses

  /** The picture kept in an array. */
  ghost function PictureOf(pix: seq<Pixel>, w: nat, h: nat, scan: nat): (p: Picture)
    requires HoldsImage(|pix|, w, h, scan)
    ensures Valid(p)
  {
    FitsInBounds(Rows(w, h, scan), |pix|);
    Picture(w, h, ImageOf(pix, Rows(w, h, scan)))
  }

  function Make(horizontal: bool, size: nat): Pass {
    if horizontal then Horizontal(size) else Vertical(size)
  }

  /** The total growth: the next even number. */
  function Growth(inc: nat, iterations: nat): nat {
    (inc * iterations + 1) / 2 * 2
  }

  /** The passes made: one per iteration, and one of window 2 if the growth would be odd. */
  function Passes(horizontal: bool, inc: nat, iterations: nat): seq<Pass> {
    seq(iterations, _ => Make(horizontal, inc + 1)) + if inc * iterations % 2 == 1 then [Make(horizontal, 2)] else []
  }

  lemma AreaFits(length: nat, w: nat, h: nat, scan: nat)
    requires HoldsImage(length, w, h, scan)
    ensures w * h <= length
  {
    if w > 0 && h > 0 {
      ProductMonotone(w, scan, h - 1);
      assert w * h == w * (h - 1) + w && scan * (h - 1) == (h - 1) * scan;
    }
  }

  lemma FreshBufferHolds(w: nat, h: nat, scan: nat)
    requires w <= scan
    ensures HoldsImage(scan * h, w, h, scan)
  {
    if w > 0 && h > 0 {
      assert scan * h == (h - 1) * scan + scan;
    }
  }

  lemma GrownSizeAccepted(length: nat, neww: nat, newh: nat, newscan: nat, curLength: nat, curw: nat, curh: nat,
                          curscan: nat)
    requires 0 < curw <= neww && 0 < curh <= newh && neww * newh <= INT_MAX
    requires HoldsImage(length, neww, newh, newscan) && HoldsImage(curLength, curw, curh, curscan)
    ensures !CheckRange(length, neww, newh, curLength, curw, curh)
  {
    hide HoldsImage, CheckRange;
    AreaFits(length, neww, newh, newscan);
    AreaFits(curLength, curw, curh, curscan);
    ProductMonotone(curw, neww, curh);
    ProductMonotone(curh, newh, neww);
    assert curw * curh <= neww * curh && neww * curh == curh * neww && newh * neww == neww * newh;
    CheckRangeExact(length, neww, newh, curLength, curw, curh);
  }

  /** One turn of the loop: a fresh buffer holds the picture after one pass. */
  method OnePass(cur: seq<Pixel>, curw: nat, curh: nat, curscan: nat, neww: nat, newh: nat, newscan: nat,
                 horizontal: bool)
    returns (next: seq<Pixel>)
    requires HoldsImage(|cur|, curw, curh, curscan) && 0 < curw <= neww && 0 < curh <= newh && neww <= newscan
    requires neww * newh <= INT_MAX
    requires if horizontal then newh == curh && Grows(neww, curw) else neww == curw && Grows(newh, curh)
    ensures HoldsImage(|next|, neww, newh, newscan)
    ensures PictureOf(next, neww, newh, newscan)
            == Apply(PictureOf(cur, curw, curh, curscan),
                     Make(horizontal, if horizontal then neww - curw + 1 else newh - curh + 1))
  {
    hide CheckRange, Fits, InBounds, OnlyGrid, BlurLines, Cell;
    var dst := new Pixel[newscan * newh];
    FreshBufferHolds(neww, newh, newscan);
    GrownSizeAccepted(dst.Length, neww, newh, newscan, |cur|, curw, curh, curscan);
    ghost var p := PictureOf(cur, curw, curh, curscan);
    if horizontal {
      FilterHorizontal(dst, neww, newh, newscan, cur, curw, curh, curscan);
      assert p.px[..newh] == p.px;
    } else {
      FilterVertical(dst, neww, newh, newscan, cur, curw, curh, curscan);
      ghost var t := Transpose(p.px, curw, curh);
      assert t[..neww] == t;
      TransposedBlurIsVerticalPass(p, newh - curh + 1, ImageOf(dst[..], Rows(neww, newh, newscan)));
    }
    next := dst[..];
  }

  /** How far the image has grown after j turns. */
  function Grown(inc: nat, iterations: nat, j: nat): nat {
    if j <= iterations then j * inc else Growth(inc, iterations)
  }

  lemma NoGrowth(inc: nat, iterations: nat)
    ensures Grown(inc, iterations, 0) == 0
  {
  }

  /** Turn j grows the image by what is due, with the window of pass j; when nothing is due all passes are made. */
  lemma Turn(horizontal: bool, inc: nat, iterations: nat, j: nat)
    requires inc > 0 && j <= |Passes(horizontal, inc, iterations)|
    ensures Grown(inc, iterations, j) <= Growth(inc, iterations)
    ensures Grown(inc, iterations, j) == Growth(inc, iterations) <==> j == |Passes(horizontal, inc, iterations)|
    ensures j < |Passes(horizontal, inc, iterations)| ==>
              && Grown(inc, iterations, j + 1) == Min(Grown(inc, iterations, j) + inc, Growth(inc, iterations))
              && Passes(horizontal, inc, iterations)[j]
                 == Make(horizontal, Grown(inc, iterations, j + 1) - Grown(inc, iterations, j) + 1)
  {
    var total := inc * iterations;
    assert Growth(inc, iterations) == total + total % 2;
    assert iterations * inc == total;
    if j < iterations {
      ProductMonotone(j + 1, iterations, inc);
      assert (j + 1) * inc == j * inc + inc;
    }
  }

  lemma PassesHaveWindows(horizontal: bool, inc: nat, iterations: nat)
    ensures iterations <= |Passes(horizontal, inc, iterations)| <= iterations + 1
    ensures forall i :: 0 <= i < |Passes(horizontal, inc, iterations)| ==>
              Passes(horizontal, inc, iterations)[i].size > 0
    ensures forall i :: 0 <= i < iterations ==> Passes(horizontal, inc, iterations)[i] == Make(horizontal, inc + 1)
  {
  }

  /**
   * The growth is even and at most one more than asked for, and the windows of the passes, each less one, add up to
   * it.
   */
  lemma PassesAddUp(horizontal: bool, inc: nat, iterations: nat)
    ensures var passes, grow := Passes(horizontal, inc, iterations), Growth(inc, iterations);
            && grow % 2 == 0 && inc * iterations <= grow <= inc * iterations + 1
            && Reach(passes, horizontal) == grow && Reach(passes, !horizontal) == 0
  {
    var passes, first := Passes(horizontal, inc, iterations), seq(iterations, _ => Make(horizontal, inc + 1));
    EqualPasses(horizontal, inc, iterations);
    if inc * iterations % 2 == 1 {
      assert passes[..iterations] == first && passes[iterations] == Make(horizontal, 2);
    } else {
      assert passes == first;
    }
  }

  lemma {:induction false} EqualPasses(horizontal: bool, inc: nat, n: nat)
    ensures Reach(seq(n, _ => Make(horizontal, inc + 1)), horizontal) == inc * n
    ensures Reach(seq(n, _ => Make(horizontal, inc + 1)), !horizontal) == 0
  {
    if n > 0 {
      var passes := seq(n, _ => Make(horizontal, inc + 1));
      EqualPasses(horizontal, inc, n - 1);
      assert passes[..n - 1] == seq(n - 1, _ => Make(horizontal, inc + 1));
      assert inc * n == inc * (n - 1) + inc;
    }
  }

  /**
   * The horizontal or vertical half of the peer's `filter`, for an image at (x, y). The result is the source after the
   * listed passes. It has grown by an even number of pixels in the blurred direction, half of it on either side, and
   * not at all in the other. `pads` gives the padding of each buffer's lines.
   */
  method Filter(src: seq<Pixel>, x: int, y: int, w: nat, h: nat, scan: nat, horizontal: bool, inc: nat,
                iterations: nat, pads: seq<nat>)
    returns (out: seq<Pixel>, outx: int, outy: int, outw: nat, outh: nat, outscan: nat)
    requires HoldsImage(|src|, w, h, scan) && 0 < w && 0 < h && 255 * (inc + 1) <= INT_MAX
    requires var grow := Growth(inc, iterations);
             (if horizontal then (w + grow) * h else w * (h + grow)) <= INT_MAX
    requires |pads| > iterations
    ensures HoldsImage(|out|, outw, outh, outscan)
    ensures if horizontal then outh == h else outw == w
    ensures var grow := outw - w + outh - h;
            grow % 2 == 0 && inc * iterations <= grow <= inc * iterations + 1
    ensures x - outx == (outx + outw) - (x + w) && y - outy == (outy + outh) - (y + h)
    ensures iterations < 1 || inc < 1 ==> out == src && outscan == scan
    ensures iterations >= 1 && inc >= 1 ==>
              var passes := Passes(horizontal, inc, iterations);
              && |passes| >= iterations && (forall i :: 0 <= i < |passes| ==> passes[i].size > 0)
              && (forall i :: 0 <= i < iterations ==>
                    passes[i] == if horizontal then Horizontal(inc + 1) else Vertical(inc + 1))
              && Reach(passes, true) == outw - w && Reach(passes, false) == outh - h
              && PictureOf(out, outw, outh, outscan) == Run(PictureOf(src, w, h, scan), passes)
  {
    hide HoldsImage, PictureOf, Apply, Passes, Grown;
    out, outx, outy, outw, outh, outscan := src, x, y, w, h, scan;
    if iterations < 1 || inc < 1 {
      assert inc * iterations == 0;
      return;
    }
    ghost var p := PictureOf(src, w, h, scan);
    ghost var all := Passes(horizontal, inc, iterations);
    var j := 0;
    PassesHaveWindows(horizontal, inc, iterations);
    PassesAddUp(horizontal, inc, iterations);
    NoGrowth(inc, iterations);
    var grow := (inc * iterations + 1) / 2 * 2;
    assert grow == Growth(inc, iterations);
    hide Growth;
    var finalw, finalh := if horizontal then w + grow else w, if horizontal then h else h + grow;
    while outw < finalw || outh < finalh
      invariant HoldsImage(|out|, outw, outh, outscan)
      invariant 0 <= j <= |all| && PictureOf(out, outw, outh, outscan) == Run(p, all[..j])
      invariant outw == (if horizontal then w + Grown(inc, iterations, j) else w)
      invariant outh == (if horizontal then h else h + Grown(inc, iterations, j))
      decreases |all| - j
    {
      Turn(horizontal, inc, iterations, j);
      var neww := if horizontal then outw + inc else outw;
      var newh := if horizontal then outh else outh + inc;
      if neww > finalw {
        neww := finalw;
      }
      if newh > finalh {
        newh := finalh;
      }
      AreaBelow(neww, newh, finalw, finalh);
      var newscan := neww + pads[j];
      out := OnePass(out, outw, outh, outscan, neww, newh, newscan, horizontal);
      assert all[..j + 1][..j] == all[..j];
      outw, outh, outscan, j := neww, newh, newscan, j + 1;
    }
    Turn(horizontal, inc, iterations, j);
    assert all[..j] == all;
    outx := if horizontal then x - grow / 2 else x;
    outy := if horizontal then y else y - grow / 2;
  }

  lemma AreaBelow(neww: nat, newh: nat, finalw: nat, finalh: nat)
    requires neww <= finalw && newh <= finalh && finalw * finalh <= INT_MAX
    ensures neww * newh <= INT_MAX
  {
    ProductMonotone(neww, finalw, newh);
    ProductMonotone(newh, finalh, finalw);
    assert newh * finalw == finalw * newh && finalh * finalw == finalw * finalh;
  }
}
