/** Bilinear sampling: four guarded taps that together weigh every pixel of the image by a tent. */
module Sampling {
  import opened Arithmetic
  import opened Raster
  import opened Sums

  type Plane = (int, int) -> real

  ghost predicate ZeroOutside(f: Plane, w: int, h: int) {
    forall i, j :: !(0 <= i < w && 0 <= j < h) ==> f(i, j) == 0.0
  }

  // ---------- The reference: a tent around every pixel centre ----------

  function Tent(t: real): real {
    if -1.0 < t <= 0.0 then 1.0 + t else if 0.0 < t < 1.0 then 1.0 - t else 0.0
  }

  /** The values of g, weighed by their distance from x. */
  ghost function TentTerms(g: int -> real, x: real): int -> real {
    i => g(i) * Tent(x - (i as real + 0.5))
  }

  ghost function RowSum(f: Plane, w: int, x: real): int -> real {
    j => Sum(TentTerms(i => f(i, j), x), 0, w)
  }

  /** The sum over all pixels (i, j) of f(i, j) * Tent(x - (i + 1/2)) * Tent(y - (j + 1/2)). */
  ghost function TentSum(f: Plane, w: int, h: int, x: real, y: real): real {
    Sum(TentTerms(RowSum(f, w, x), y), 0, h)
  }

  /** Linear interpolation between v and u. */
  function Blend(u: real, v: real, t: real): real {
    u * t + v * (1.0 - t)
  }

  ghost function ZeroPadded(g: int -> real, n: int, i: int): real {
    if 0 <= i < n then g(i) else 0.0
  }

  lemma TentAround(x: real, p: int)
    requires p == (x + 0.5).Floor
    ensures Tent(x - (p as real + 0.5)) == x + 0.5 - p as real
    ensures Tent(x - ((p - 1) as real + 0.5)) == 1.0 - (x + 0.5 - p as real)
  {
  }

  lemma TentFar(x: real, p: int, i: int)
    requires p == (x + 0.5).Floor && i != p && i != p - 1
    ensures Tent(x - (i as real + 0.5)) == 0.0
  {
    assert i <= p - 2 || i >= p + 1;
  }

  /** In one dimension only the two pixels around x count. */
  lemma TentLine(g: int -> real, n: int, x: real)
    ensures var p := (x + 0.5).Floor;
            Sum(TentTerms(g, x), 0, n) == Blend(ZeroPadded(g, n, p), ZeroPadded(g, n, p - 1), x + 0.5 - p as real)
  {
    hide Tent;
    var p := (x + 0.5).Floor;
    var f := TentTerms(g, x);
    TentAround(x, p);
    forall i | 0 <= i < n && i != p && i != p - 1
      ensures f(i) == 0.0
    {
      TentFar(x, p, i);
    }
    SumOfTwo(f, n, p);
  }

  // ---------- The four taps ----------

  /** What the samplers add up, for coordinates already shifted by one half. */
  ghost function Taps(f: Plane, w: int, h: int, x: real, y: real): real {
    var ix, iy := Trunc(x), Trunc(y);
    var fx, fy := x - ix as real, y - iy as real;
    if x > 0.0 && y > 0.0 && ix <= w && iy <= h
    then FourTaps(f(ix, iy), f(ix - 1, iy), f(ix, iy - 1), f(ix - 1, iy - 1), fx, fy)
    else 0.0
  }

  function FourTaps(a: real, b: real, c: real, d: real, fx: real, fy: real): real {
    var fract := fx * fy;
    a * fract + b * (fy - fract) + c * (fx - fract) + d * (1.0 - fx - fy + fract)
  }

  lemma Bilinear(a: real, b: real, c: real, d: real, fx: real, fy: real)
    ensures FourTaps(a, b, c, d, fx, fy) == Blend(Blend(a, b, fx), Blend(c, d, fx), fy)
  {
    assert (a * fx + b * (1.0 - fx)) * fy == a * (fx * fy) + b * (fy - fx * fy);
    assert (c * fx + d * (1.0 - fx)) * (1.0 - fy) == c * (fx - fx * fy) + d * (1.0 - fx - fy + fx * fy);
  }

  ghost function RowTaps(f: Plane, x: real, j: int): real {
    var p := x.Floor;
    Blend(f(p, j), f(p - 1, j), x - p as real)
  }

  lemma RowSumIsTaps(f: Plane, w: int, h: int, x: real, j: int)
    requires ZeroOutside(f, w, h)
    ensures RowSum(f, w, x)(j) == RowTaps(f, x + 0.5, j)
  {
    hide Blend;
    TentLine(i => f(i, j), w, x);
  }

  lemma TentSumIsTaps(f: Plane, w: int, h: int, x: real, y: real)
    requires ZeroOutside(f, w, h)
    ensures var q := (y + 0.5).Floor;
            TentSum(f, w, h, x, y) == Blend(RowTaps(f, x + 0.5, q), RowTaps(f, x + 0.5, q - 1), y + 0.5 - q as real)
  {
    hide TentTerms, RowSum, RowTaps, Blend;
    var q := (y + 0.5).Floor;
    TentLine(RowSum(f, w, x), h, y);
    RowSumIsTaps(f, w, h, x, q);
    RowSumIsTaps(f, w, h, x, q - 1);
    if !(0 <= q < h) {
      NoRow(f, w, h, x + 0.5, q);
    }
    if !(0 <= q - 1 < h) {
      NoRow(f, w, h, x + 0.5, q - 1);
    }
  }

  lemma NoRow(f: Plane, w: int, h: int, x: real, j: int)
    requires ZeroOutside(f, w, h) && !(0 <= j < h)
    ensures RowTaps(f, x, j) == 0.0
  {
  }

  /** Where the guard of the samplers fails, the taps would add nothing. */
  lemma GuardIsHarmless(f: Plane, w: int, h: int, x: real, y: real)
    requires ZeroOutside(f, w, h)
    requires !(x > 0.0 && y > 0.0 && x.Floor <= w && y.Floor <= h)
    ensures var p, q := x.Floor, y.Floor;
            FourTaps(f(p, q), f(p - 1, q), f(p, q - 1), f(p - 1, q - 1), x - p as real, y - q as real) == 0.0
  {
    var p, q := x.Floor, y.Floor;
    assert p < 0 || q < 0 || x == 0.0 || y == 0.0 || p > w || q > h;
  }

  /** For every image and every coordinate, inside or outside, the taps are the tent-weighted sum over all pixels. */
  lemma TapsAreTents(f: Plane, w: int, h: int, x: real, y: real)
    requires ZeroOutside(f, w, h)
    ensures Taps(f, w, h, x + 0.5, y + 0.5) == TentSum(f, w, h, x, y)
  {
    hide TentSum, FourTaps, RowTaps, ZeroOutside, Blend;
    TentSumIsTaps(f, w, h, x, y);
    FourTapsAreRows(f, x + 0.5, y + 0.5);
    if !(x + 0.5 > 0.0 && y + 0.5 > 0.0 && (x + 0.5).Floor <= w && (y + 0.5).Floor <= h) {
      GuardIsHarmless(f, w, h, x + 0.5, y + 0.5);
    }
  }

  lemma FourTapsAreRows(f: Plane, x: real, y: real)
    ensures var p, q := x.Floor, y.Floor;
            FourTaps(f(p, q), f(p - 1, q), f(p, q - 1), f(p - 1, q - 1), x - p as real, y - q as real)
            == Blend(RowTaps(f, x, q), RowTaps(f, x, q - 1), y - q as real)
  {
    hide FourTaps, Blend;
    var p, q := x.Floor, y.Floor;
    Bilinear(f(p, q), f(p - 1, q), f(p, q - 1), f(p - 1, q - 1), x - p as real, y - q as real);
  }

  // ---------- The samplers ----------

  /** One channel of an image, with zeros around it. */
  ghost function ChannelPlane(img: seq<Pixel>, w: int, h: int, scan: nat, k: int): (f: Plane)
    requires HoldsImage(|img|, w, h, scan)
    ensures ZeroOutside(f, w, h)
  {
    (i, j) => if 0 <= i < w && 0 <= j < h then Channel(PixelAt(img, w, h, scan, i, j), k) as real else 0.0
  }

  ghost function PixelAt(img: seq<Pixel>, w: int, h: int, scan: nat, i: int, j: int): Pixel
    requires HoldsImage(|img|, w, h, scan) && 0 <= i < w && 0 <= j < h
  {
    CellInRange(Rows(w, h, scan), |img|, j, i);
    img[Cell(Rows(w, h, scan), j, i)]
  }

  ghost function ImagePlanes(img: seq<Pixel>, w: int, h: int, scan: nat): (planes: seq<Plane>)
    requires HoldsImage(|img|, w, h, scan)
    ensures Planes(planes, w, h) && |planes| == 4
  {
    hide ChannelPlane;
    seq(4, k => ChannelPlane(img, w, h, scan, k))
  }

  ghost predicate Planes(planes: seq<Plane>, w: int, h: int) {
    |planes| == 4 && forall k :: 0 <= k < 4 ==> ZeroOutside(planes[k], w, h)
  }

  /** From t to u every channel has grown by c times its value at (i, j). */
  ghost predicate Tapped(planes: seq<Plane>, t: seq<real>, u: seq<real>, i: int, j: int, c: real) {
    |planes| == |t| == |u| == 4 && forall k :: 0 <= k < 4 ==> u[k] == t[k] + planes[k](i, j) * c
  }

  lemma Skipped(planes: seq<Plane>, w: int, h: int, t: seq<real>, i: int, j: int, c: real)
    requires Planes(planes, w, h) && |t| == 4 && !(0 <= i < w && 0 <= j < h)
    ensures Tapped(planes, t, t, i, j, c)
  {
  }

  lemma Distribute(factor: real, a: real, b: real, c: real, d: real)
    ensures factor * (a + b + c + d) == factor * a + factor * b + factor * c + factor * d
  {
  }

  lemma FourTapsScaled(a: real, b: real, c: real, d: real, fx: real, fy: real, factor: real)
    ensures factor * FourTaps(a, b, c, d, fx, fy)
            == a * (factor * (fx * fy)) + b * (factor * (fy - fx * fy))
               + c * (factor * (fx - fx * fy)) + d * (factor * (1.0 - fx - fy + fx * fy))
  {
    var fract := fx * fy;
    Distribute(factor, a * fract, b * (fy - fract), c * (fx - fract), d * (1.0 - fx - fy + fract));
  }

  /** Four taps with the weights of the samplers add `factor` times the tent-weighted sum. */
  lemma TapsTotal(f: Plane, w: int, h: int, fpixx: real, fpixy: real, factor: real,
                  ix: int, iy: int, fx: real, fy: real)
    requires ZeroOutside(f, w, h) && fpixx + 0.5 > 0.0 && fpixy + 0.5 > 0.0
    requires ix == Trunc(fpixx + 0.5) <= w && iy == Trunc(fpixy + 0.5) <= h
    requires fx == fpixx + 0.5 - ix as real && fy == fpixy + 0.5 - iy as real
    ensures factor * TentSum(f, w, h, fpixx, fpixy)
            == f(ix, iy) * (factor * (fx * fy)) + f(ix - 1, iy) * (factor * (fy - fx * fy))
               + f(ix, iy - 1) * (factor * (fx - fx * fy)) + f(ix - 1, iy - 1) * (factor * (1.0 - fx - fy + fx * fy))
  {
    hide TentSum, FourTaps, ZeroOutside;
    TapsAreTents(f, w, h, fpixx, fpixy);
    FourTapsScaled(f(ix, iy), f(ix - 1, iy), f(ix, iy - 1), f(ix - 1, iy - 1), fx, fy, factor);
  }

  lemma NothingTapped(planes: seq<Plane>, w: int, h: int, fpixx: real, fpixy: real)
    requires Planes(planes, w, h)
    requires var x, y := fpixx + 0.5, fpixy + 0.5;
             !(x > 0.0 && y > 0.0 && Trunc(x) <= w && Trunc(y) <= h)
    ensures forall k :: 0 <= k < 4 ==> TentSum(planes[k], w, h, fpixx, fpixy) == 0.0
  {
    hide TentSum;
    forall k | 0 <= k < 4
      ensures TentSum(planes[k], w, h, fpixx, fpixy) == 0.0
    {
      TapsAreTents(planes[k], w, h, fpixx, fpixy);
    }
  }

  /** From t to u every channel has grown by c times the channel of the pixel. */
  ghost predicate Accumulated(pixel: Pixel, c: real, t: seq<real>, u: seq<real>) {
    && |t| == |u| == 4
    && u[R] == t[R] + Channel(pixel, R) as real * c && u[G] == t[G] + Channel(pixel, G) as real * c
    && u[B] == t[B] + Channel(pixel, B) as real * c && u[A] == t[A] + Channel(pixel, A) as real * c
  }

  /** `laccum`: adds a pixel times `mul` / 255 to the accumulated channels. */
  method Accumulate(pixel: Pixel, mul: real, fvals: array<real>)
    requires fvals.Length == 4
    modifies fvals
    ensures Accumulated(pixel, mul / 255.0, old(fvals[..]), fvals[..])
  {
    hide Channel;
    var m := mul / 255.0;
    var r, g := Channel(pixel, R) as real, Channel(pixel, G) as real;
    var b, a := Channel(pixel, B) as real, Channel(pixel, A) as real;
    fvals[R] := fvals[R] + r * m;
    fvals[G] := fvals[G] + g * m;
    fvals[B] := fvals[B] + b * m;
    fvals[A] := fvals[A] + a * m;
  }

  lemma InImage(img: seq<Pixel>, w: int, h: int, scan: nat, i: int, j: int, offset: int)
    requires HoldsImage(|img|, w, h, scan) && 0 <= i < w && 0 <= j < h && offset == j * scan + i
    ensures 0 <= offset < |img|
  {
    CellInRange(Rows(w, h, scan), |img|, j, i);
  }

  /** The pixel read by a tap inside the image is the one the planes hold. */
  lemma TapRead(img: seq<Pixel>, w: int, h: int, scan: nat, i: int, j: int, offset: int, c: real,
                t: seq<real>, u: seq<real>)
    requires HoldsImage(|img|, w, h, scan) && 0 <= i < w && 0 <= j < h && offset == j * scan + i
    requires 0 <= offset < |img| && Accumulated(img[offset], c, t, u)
    ensures Tapped(ImagePlanes(img, w, h, scan), t, u, i, j, c)
  {
    hide Channel;
    assert PixelAt(img, w, h, scan, i, j) == img[offset];
  }

  /** A tap that was taken inside the image, or skipped outside. */
  lemma Taken(planes: seq<Plane>, w: int, h: int, t: seq<real>, u: seq<real>, i: int, j: int, c: real)
    requires Planes(planes, w, h) && |t| == |u| == 4
    requires if 0 <= i < w && 0 <= j < h then Tapped(planes, t, u, i, j, c) else t == u
    ensures Tapped(planes, t, u, i, j, c)
  {
    if !(0 <= i < w && 0 <= j < h) {
      Skipped(planes, w, h, t, i, j, c);
    }
  }

  lemma Unscale(weight: real, factor: real)
    ensures weight * (factor * 255.0) / 255.0 == factor * weight
  {
    Regroup(weight, factor, 255.0);
  }

  lemma Regroup(a: real, b: real, c: real)
    ensures a * (b * c) == b * a * c
  {
  }

  ghost predicate TappedAround(planes: seq<Plane>, t: seq<real>, u: seq<real>, ix: int, iy: int,
                               a: real, b: real, c: real, d: real) {
    && |planes| == |t| == |u| == 4
    && forall k :: 0 <= k < 4 ==>
         u[k] == t[k] + planes[k](ix, iy) * a + planes[k](ix - 1, iy) * b
                 + planes[k](ix, iy - 1) * c + planes[k](ix - 1, iy - 1) * d
  }

  /** The guarded taps of `lsample` and `laccumsample` around (ix, iy). */
  method AccumulateTaps(img: seq<Pixel>, w: int, h: int, scan: nat, ix: int, iy: int,
                        a: real, b: real, c: real, d: real, fvals: array<real>)
    requires HoldsImage(|img|, w, h, scan) && fvals.Length == 4 && 0 <= ix <= w && 0 <= iy <= h
    modifies fvals
    ensures TappedAround(ImagePlanes(img, w, h, scan), old(fvals[..]), fvals[..], ix, iy,
                         a / 255.0, b / 255.0, c / 255.0, d / 255.0)
  {
    hide ImagePlanes, HoldsImage, Planes, Accumulated, Tapped, TappedAround;
    ghost var planes := ImagePlanes(img, w, h, scan);
    var offset := iy * scan + ix;
    ghost var s := fvals[..];
    ghost var t := s;
    if iy < h {
      if ix < w {
        InImage(img, w, h, scan, ix, iy, offset);
        Accumulate(img[offset], a, fvals);
        TapRead(img, w, h, scan, ix, iy, offset, a / 255.0, s, fvals[..]);
      }
      t := fvals[..];
      if ix > 0 {
        InImage(img, w, h, scan, ix - 1, iy, offset - 1);
        Accumulate(img[offset - 1], b, fvals);
        TapRead(img, w, h, scan, ix - 1, iy, offset - 1, b / 255.0, t, fvals[..]);
      }
    }
    ghost var u := fvals[..];
    ghost var v := u;
    if iy > 0 {
      assert (iy - 1) * scan == iy * scan - scan;
      if ix < w {
        InImage(img, w, h, scan, ix, iy - 1, offset - scan);
        Accumulate(img[offset - scan], c, fvals);
        TapRead(img, w, h, scan, ix, iy - 1, offset - scan, c / 255.0, u, fvals[..]);
      }
      v := fvals[..];
      if ix > 0 {
        InImage(img, w, h, scan, ix - 1, iy - 1, offset - scan - 1);
        Accumulate(img[offset - scan - 1], d, fvals);
        TapRead(img, w, h, scan, ix - 1, iy - 1, offset - scan - 1, d / 255.0, v, fvals[..]);
      }
    }
    Taken(planes, w, h, s, t, ix, iy, a / 255.0);
    Taken(planes, w, h, t, u, ix - 1, iy, b / 255.0);
    Taken(planes, w, h, u, v, ix, iy - 1, c / 255.0);
    Taken(planes, w, h, v, fvals[..], ix - 1, iy - 1, d / 255.0);
    Combine(planes, s, t, u, v, fvals[..], ix, iy, a / 255.0, b / 255.0, c / 255.0, d / 255.0);
  }

  lemma Combine(planes: seq<Plane>, s: seq<real>, t: seq<real>, u: seq<real>, v: seq<real>, z: seq<real>,
                ix: int, iy: int, a: real, b: real, c: real, d: real)
    requires Tapped(planes, s, t, ix, iy, a) && Tapped(planes, t, u, ix - 1, iy, b)
    requires Tapped(planes, u, v, ix, iy - 1, c) && Tapped(planes, v, z, ix - 1, iy - 1, d)
    ensures TappedAround(planes, s, z, ix, iy, a, b, c, d)
  {
    assert forall k :: 0 <= k < 4 ==> z[k] == v[k] + planes[k](ix - 1, iy - 1) * d;
  }

  /** The coordinates of a sample that the guard lets through, split into pixel and fraction. */
  ghost predicate Split(w: int, h: int, fpixx: real, fpixy: real, ix: int, iy: int, fx: real, fy: real) {
    && fpixx + 0.5 > 0.0 && fpixy + 0.5 > 0.0
    && ix == Trunc(fpixx + 0.5) <= w && iy == Trunc(fpixy + 0.5) <= h
    && fx == fpixx + 0.5 - ix as real && fy == fpixy + 0.5 - iy as real
  }

  lemma FactorTaps(planes: seq<Plane>, w: int, h: int, fpixx: real, fpixy: real, factor: real,
                   s: seq<real>, z: seq<real>, ix: int, iy: int, fx: real, fy: real, fract: real, f: real,
                   a: real, b: real, c: real, d: real)
    requires Planes(planes, w, h) && Split(w, h, fpixx, fpixy, ix, iy, fx, fy) && fract == fx * fy
    requires f == factor * 255.0
    requires a == fract * f && b == (fy - fract) * f && c == (fx - fract) * f && d == (1.0 - fx - fy + fract) * f
    requires TappedAround(planes, s, z, ix, iy, a / 255.0, b / 255.0, c / 255.0, d / 255.0)
    ensures |s| == |z| == 4 && forall k :: 0 <= k < 4 ==> z[k] == s[k] + factor * TentSum(planes[k], w, h, fpixx, fpixy)
  {
    hide TentSum, ZeroOutside, Trunc;
    Unscale(fract, factor);
    Unscale(fy - fract, factor);
    Unscale(fx - fract, factor);
    Unscale(1.0 - fx - fy + fract, factor);
    forall k | 0 <= k < 4
      ensures z[k] == s[k] + factor * TentSum(planes[k], w, h, fpixx, fpixy)
    {
      TapsTotal(planes[k], w, h, fpixx, fpixy, factor, ix, iy, fx, fy);
    }
  }

  lemma UnitTaps(planes: seq<Plane>, w: int, h: int, fpixx: real, fpixy: real,
                 s: seq<real>, z: seq<real>, ix: int, iy: int, fx: real, fy: real)
    requires Planes(planes, w, h) && Split(w, h, fpixx, fpixy, ix, iy, fx, fy) && |s| == 4
    requires forall k :: 0 <= k < 4 ==> s[k] == 0.0
    requires var fract := fx * fy;
             TappedAround(planes, s, z, ix, iy, fract / 255.0, (fy - fract) / 255.0,
                          (fx - fract) / 255.0, (1.0 - fx - fy + fract) / 255.0)
    ensures |z| == 4 && forall k :: 0 <= k < 4 ==> 255.0 * z[k] == TentSum(planes[k], w, h, fpixx, fpixy)
  {
    hide TentSum, ZeroOutside, Trunc;
    var fract := fx * fy;
    forall k | 0 <= k < 4
      ensures 255.0 * z[k] == TentSum(planes[k], w, h, fpixx, fpixy)
    {
      var f := planes[k];
      TapsTotal(f, w, h, fpixx, fpixy, 1.0, ix, iy, fx, fy);
      Over255(f(ix, iy), fract);
      Over255(f(ix - 1, iy), fy - fract);
      Over255(f(ix, iy - 1), fx - fract);
      Over255(f(ix - 1, iy - 1), 1.0 - fx - fy + fract);
    }
  }

  lemma Over255(p: real, c: real)
    ensures 255.0 * (p * (c / 255.0)) == p * (1.0 * c)
  {
  }

  /** `laccumsample`: adds `factor` times the tent-weighted sum over the whole image, for any coordinates. */
  method AccumulateSample(img: seq<Pixel>, fpixx: real, fpixy: real, w: int, h: int, scan: nat, factor: real,
                          fvals: array<real>)
    requires HoldsImage(|img|, w, h, scan) && fvals.Length == 4
    modifies fvals
    ensures forall k :: 0 <= k < 4 ==>
              fvals[k] == old(fvals[k]) + factor * TentSum(ImagePlanes(img, w, h, scan)[k], w, h, fpixx, fpixy)
  {
    hide TentSum, ImagePlanes, Planes, HoldsImage, TappedAround, Trunc;
    ghost var planes := ImagePlanes(img, w, h, scan);
    var f := factor * 255.0;
    var x, y := fpixx + 0.5, fpixy + 0.5;
    var ix, iy := Trunc(x), Trunc(y);
    if x > 0.0 && y > 0.0 && ix <= w && iy <= h {
      var fx, fy := x - ix as real, y - iy as real;
      var fract := fx * fy;
      var a, b, c, d := fract * f, (fy - fract) * f, (fx - fract) * f, (1.0 - fx - fy + fract) * f;
      AccumulateTaps(img, w, h, scan, ix, iy, a, b, c, d, fvals);
      FactorTaps(planes, w, h, fpixx, fpixy, factor, old(fvals[..]), fvals[..], ix, iy, fx, fy, fract, f, a, b, c, d);
    } else {
      NothingTapped(planes, w, h, fpixx, fpixy);
    }
  }

  /** `lsample`: the same sum at coordinates relative to the image size, with channels scaled to 0..1. */
  method Sample(img: seq<Pixel>, flocx: real, flocy: real, w: int, h: int, scan: nat, fvals: array<real>)
    requires HoldsImage(|img|, w, h, scan) && fvals.Length == 4
    modifies fvals
    ensures forall k :: 0 <= k < 4 ==>
              255.0 * fvals[k] == TentSum(ImagePlanes(img, w, h, scan)[k], w, h, flocx * w as real, flocy * h as real)
  {
    hide TentSum, ImagePlanes, Planes, HoldsImage, TappedAround, Trunc;
    ghost var planes := ImagePlanes(img, w, h, scan);
    fvals[0], fvals[1], fvals[2], fvals[3] := 0.0, 0.0, 0.0, 0.0;
    var x, y := flocx * w as real + 0.5, flocy * h as real + 0.5;
    var ix, iy := Trunc(x), Trunc(y);
    ghost var s := fvals[..];
    if x > 0.0 && y > 0.0 && ix <= w && iy <= h {
      var fx, fy := x - ix as real, y - iy as real;
      var fract := fx * fy;
      AccumulateTaps(img, w, h, scan, ix, iy, fract, fy - fract, fx - fract, 1.0 - fx - fy + fract, fvals);
      UnitTaps(planes, w, h, flocx * w as real, flocy * h as real, s, fvals[..], ix, iy, fx, fy);
    } else {
      NothingTapped(planes, w, h, flocx * w as real, flocy * h as real);
    }
  }
}
