/** What any number of box blur passes does to a whole picture. */
module BlurPasses {
  import opened Arithmetic
  import opened Raster
  import opened BoxBlur

  // ---------- One line ----------

  /** The raw window sums at positions 0..n of a line, added up. */
  ghost function TotalOfWindows(s: seq<int>, size: int, n: int): int
    decreases n
  {
    if n <= 0 then 0 else TotalOfWindows(s, size, n - 1) + WindowSum(s, n - size, n)
  }

  lemma {:induction false} NarrowWindows(s: seq<int>, size: int, n: nat)
    requires size > 0
    ensures TotalOfWindows(s, size, n) == TotalOfWindows(s, size - 1, n) + WindowSum(s, 1 - size, n + 1 - size)
  {
    if n == 0 {
      WindowSumBounds(s, 1 - size, n + 1 - size, 0, 0);
    } else {
      NarrowWindows(s, size, n - 1);
      DropFirst(s, n - size, n);
    }
  }

  lemma {:induction false} ZerosBefore(s: seq<int>, lo: int, hi: int)
    requires lo <= 0 <= hi
    ensures WindowSum(s, lo, hi) == WindowSum(s, 0, hi)
    decreases -lo
  {
    if lo < 0 {
      DropFirst(s, lo, hi);
      ZerosBefore(s, lo + 1, hi);
    }
  }

  /** Conservation: every source pixel lies in exactly `size` windows of the blurred line. */
  lemma {:induction false} WindowsConserve(s: seq<int>, size: nat)
    ensures TotalOfWindows(s, size, |s| + size - 1) == size * WindowSum(s, 0, |s|)
  {
    if size == 0 {
      NoWindows(s, |s| - 1);
    } else {
      var n := |s| + size - 1;
      NarrowWindows(s, size, n);
      ZerosBefore(s, 1 - size, |s|);
      WindowsConserve(s, size - 1);
      if n > 0 {
        WindowSumBounds(s, n - (size - 1), n, 0, 0);
      }
      assert size * WindowSum(s, 0, |s|) == (size - 1) * WindowSum(s, 0, |s|) + WindowSum(s, 0, |s|);
    }
  }

  lemma {:induction false} NoWindows(s: seq<int>, n: int)
    ensures TotalOfWindows(s, 0, n) == 0
    decreases n
  {
    if n > 0 {
      NoWindows(s, n - 1);
    }
  }

  function Reverse(line: Line): (r: Line)
    ensures |r| == |line| && forall i :: 0 <= i < |r| ==> r[i] == line[|line| - 1 - i]
  {
    seq(|line|, i requires 0 <= i < |line| => line[|line| - 1 - i])
  }

  /** Blurring a mirrored line gives the mirrored blur. */
  lemma BlurOfMirror(line: Line, n: int)
    requires |line| <= n
    ensures BlurLine(Reverse(line), n) == Reverse(BlurLine(line, n))
  {
    hide BlurPixel, Reverse;
    var a, b := BlurLine(Reverse(line), n), BlurLine(line, n);
    forall x | 0 <= x < n
      ensures a[x] == b[n - 1 - x]
    {
      MirroredPixel(line, n, x);
    }
    assert forall x :: 0 <= x < n ==> Reverse(b)[x] == b[n - 1 - x];
  }

  lemma MirroredPixel(line: Line, n: int, x: int)
    requires 0 <= n - |line|
    ensures BlurPixel(Reverse(line), n - |line| + 1, x) == BlurPixel(line, n - |line| + 1, n - 1 - x)
  {
    hide KScale, Scale, Channel, Pack, Window, Reverse;
    MirroredWindow(line, A, n, x);
    MirroredWindow(line, R, n, x);
    MirroredWindow(line, G, n, x);
    MirroredWindow(line, B, n, x);
  }

  lemma MirroredWindow(line: Line, k: int, n: int, x: int)
    requires 0 <= n - |line|
    ensures Window(Reverse(line), k, n - |line| + 1, x) == Window(line, k, n - |line| + 1, n - 1 - x)
  {
    var size := n - |line| + 1;
    WindowSumMirror(Bytes(line, k), Bytes(Reverse(line), k), |line|, x + 1 - size, x + 1);
  }

  /** A window of one pixel changes nothing. */
  lemma BlurByOneIsIdentity(line: Line)
    ensures BlurLine(line, |line|) == line
  {
    hide BlurPixel;
    forall x | 0 <= x < |line|
      ensures BlurPixel(line, 1, x) == line[x]
    {
      UnitWindow(line, x);
    }
  }

  lemma UnitWindow(line: Line, x: int)
    requires 0 <= x < |line|
    ensures BlurPixel(line, 1, x) == line[x]
  {
    hide KScale, Scale, Window, Channel, Pack;
    UnitChannel(line, A, x);
    UnitChannel(line, R, x);
    UnitChannel(line, G, x);
    UnitChannel(line, B, x);
    PackOfChannels(line[x]);
  }

  lemma UnitChannel(line: Line, k: int, x: int)
    requires 0 <= x < |line|
    ensures BlurChannel(line, k, 1, x) == Channel(line[x], k)
  {
    hide KScale, Channel;
    var c := Channel(line[x], k);
    assert WindowSum(Bytes(line, k), x, x + 1) == WindowSum(Bytes(line, k), x, x) + c;
    SmallWindowsAreFullScale(1);
    ConstantsReproduced(c, 1);
  }

  // ---------- Pictures and passes ----------

  datatype Picture = Picture(w: nat, h: nat, px: Image)

  ghost predicate Valid(p: Picture) {
    Rect(p.px, p.w, p.h)
  }

  /** The value of a channel at any integer position, zero outside the picture. */
  function Value(p: Picture, k: int, x: int, y: int): int
    requires Valid(p)
  {
    if 0 <= x < p.w && 0 <= y < p.h then Channel(p.px[y][x], k) else 0
  }

  /** One call of `filterHorizontal` or `filterVertical` with the given window. */
  datatype Pass = Horizontal(size: nat) | Vertical(size: nat)

  ghost function Apply(p: Picture, pass: Pass): (q: Picture)
    requires Valid(p) && pass.size > 0
    ensures Valid(q)
  {
    match pass
    case Horizontal(size) =>
      Picture(p.w + size - 1, p.h, BlurLines(p.px, p.w + size - 1))
    case Vertical(size) =>
      var n := p.h + size - 1;
      Picture(p.w, n, Transpose(BlurLines(Transpose(p.px, p.w, p.h), n), n, p.w))
  }

  /**
   * An image that transposed is the blur of a transposed image, as `FilterVertical` leaves it, is that image after a
   * pass.
   */
  lemma TransposedBlurIsVerticalPass(p: Picture, size: nat, d: Image)
    requires Valid(p) && size > 0 && Rect(d, p.w, p.h + size - 1)
    requires Transpose(d, p.w, p.h + size - 1) == BlurLines(Transpose(p.px, p.w, p.h), p.h + size - 1)
    ensures Apply(p, Vertical(size)) == Picture(p.w, p.h + size - 1, d)
  {
    hide BlurLines;
    var n := p.h + size - 1;
    var t := Transpose(Transpose(d, p.w, n), n, p.w);
    assert forall y :: 0 <= y < n ==> t[y] == d[y];
    assert t == d;
  }

  ghost function Run(p: Picture, passes: seq<Pass>): (q: Picture)
    requires Valid(p) && forall i :: 0 <= i < |passes| ==> passes[i].size > 0
    ensures Valid(q)
  {
    if passes == [] then p
    else Apply(Run(p, passes[..|passes| - 1]), passes[|passes| - 1])
  }

  /** How far left (up) of a position the passes look, when added up. */
  function Reach(passes: seq<Pass>, horizontal: bool): int {
    if passes == [] then 0
    else
      var last := passes[|passes| - 1];
      Reach(passes[..|passes| - 1], horizontal) + Before(last, horizontal)
  }

  /** The line a pass slides its window over for position (x, y), and the place in it. */
  ghost function Track(p: Picture, pass: Pass, x: int, y: int): (line: Line)
    requires Valid(p)
  {
    match pass
    case Horizontal(_) => if 0 <= y < p.h then p.px[y] else []
    case Vertical(_) => if 0 <= x < p.w then Transpose(p.px, p.w, p.h)[x] else []
  }

  function Place(pass: Pass, x: int, y: int): int {
    if pass.Horizontal? then x else y
  }

  lemma TrackValues(p: Picture, pass: Pass, k: int, x: int, y: int, i: int)
    requires Valid(p)
    ensures At(Bytes(Track(p, pass, x, y), k), i)
            == if pass.Horizontal? then Value(p, k, i, y) else Value(p, k, x, i)
  {
  }

  /** Every value of the result, at any position, is the scaled window sum over the track. */
  lemma ApplyValue(p: Picture, pass: Pass, k: int, x: int, y: int)
    requires Valid(p) && pass.size > 0 && R <= k <= A
    ensures Value(Apply(p, pass), k, x, y) == BlurChannel(Track(p, pass, x, y), k, pass.size, Place(pass, x, y))
  {
    hide KScale, Channel;
    var q, line, z := Apply(p, pass), Track(p, pass, x, y), Place(pass, x, y);
    if 0 <= x < q.w && 0 <= y < q.h {
      assert q.px[y][x] == BlurPixel(line, pass.size, z);
    } else {
      WindowSumBounds(Bytes(line, k), z + 1 - pass.size, z + 1, 0, 0);
      assert Window(line, k, pass.size, z) == 0;
    }
  }

  ghost predicate Within(p: Picture, k: int, x0: int, x1: int, y0: int, y1: int, m: int, M: int)
    requires Valid(p)
  {
    forall i, j :: x0 <= i <= x1 && y0 <= j <= y1 ==> m <= Value(p, k, i, j) <= M
  }

  function Before(pass: Pass, horizontal: bool): int {
    if pass.Horizontal? == horizontal then pass.size - 1 else 0
  }

  /** One pass keeps every value between the bounds of its window; a positive lower bound needs full scale. */
  lemma PassBounds(p: Picture, pass: Pass, k: int, x: int, y: int, m: int, M: int)
    requires Valid(p) && pass.size > 0 && R <= k <= A && (m <= 0 || FullScale(pass.size))
    requires Within(p, k, x - Before(pass, true), x, y - Before(pass, false), y, m, M)
    ensures m <= Value(Apply(p, pass), k, x, y) <= M
  {
    hide KScale, Scale, FullScale, Channel, Track, Value, Apply;
    var line, z, size := Track(p, pass, x, y), Place(pass, x, y), pass.size;
    TrackWithin(p, pass, k, x, y, m, M);
    WindowSumBounds(Bytes(line, k), z + 1 - size, z + 1, Max(m, 0), Min(M, 255));
    MeanWithin(Window(line, k, size, z), size, Max(m, 0), Min(M, 255));
    ApplyValue(p, pass, k, x, y);
  }

  lemma TrackWithin(p: Picture, pass: Pass, k: int, x: int, y: int, m: int, M: int)
    requires Valid(p) && pass.size > 0
    requires Within(p, k, x - Before(pass, true), x, y - Before(pass, false), y, m, M)
    ensures IsByte(Max(m, 0)) && IsByte(Min(M, 255))
    ensures var z := Place(pass, x, y);
            forall i :: z - pass.size < i <= z ==> Max(m, 0) <= At(Bytes(Track(p, pass, x, y), k), i) <= Min(M, 255)
  {
    hide Channel, Track;
    var s, z := Bytes(Track(p, pass, x, y), k), Place(pass, x, y);
    forall i | z - pass.size < i <= z
      ensures Max(m, 0) <= At(s, i) <= Min(M, 255)
    {
      TrackValues(p, pass, k, x, y, i);
    }
    assert Max(m, 0) <= At(s, z) <= Min(M, 255);
  }

  lemma MeanWithin(sum: int, size: int, m: int, M: int)
    requires size > 0 && IsByte(m) && IsByte(M) && (m == 0 || FullScale(size))
    requires 0 <= sum <= 255 * size && size * m <= sum <= size * M
    ensures 0 <= sum * KScale(size) <= INT_MAX && m <= Scale(sum, KScale(size)) <= M
  {
    hide KScale, Scale;
    ConstantsReproduced(m, size);
    ConstantsReproduced(M, size);
    ProductMonotone(0, m, size);
    ProductMonotone(M, 255, size);
    ScaleMonotone(m * size, sum, size);
    ScaleMonotone(sum, M * size, size);
    ScaleIsByte(sum, size);
  }

  /**
   * The discrete maximum principle for any run of passes: a value stays within the bounds of the rectangle it is
   * made from. Only a positive lower bound needs windows of full scale.
   */
  lemma {:induction false} RunBounds(p: Picture, passes: seq<Pass>, k: int, x: int, y: int, m: int, M: int)
    requires Valid(p) && R <= k <= A
    requires forall i :: 0 <= i < |passes| ==> passes[i].size > 0 && (m <= 0 || FullScale(passes[i].size))
    requires Within(p, k, x - Reach(passes, true), x, y - Reach(passes, false), y, m, M)
    ensures m <= Value(Run(p, passes), k, x, y) <= M
    decreases |passes|
  {
    hide FullScale, Value, Apply;
    if passes != [] {
      var init, last := passes[..|passes| - 1], passes[|passes| - 1];
      var q := Run(p, init);
      forall i, j | x - Before(last, true) <= i <= x && y - Before(last, false) <= j <= y
        ensures m <= Value(q, k, i, j) <= M
      {
        RunBounds(p, init, k, i, j, m, M);
      }
      PassBounds(q, last, k, x, y, m, M);
    }
  }

  lemma PassMonotone(p: Picture, pass: Pass, k: int, k': int, x: int, y: int)
    requires Valid(p) && pass.size > 0 && R <= k <= A && R <= k' <= A
    requires forall i, j :: Value(p, k, i, j) <= Value(p, k', i, j)
    ensures Value(Apply(p, pass), k, x, y) <= Value(Apply(p, pass), k', x, y)
  {
    hide KScale, Scale;
    var line, z, size := Track(p, pass, x, y), Place(pass, x, y), pass.size;
    ApplyValue(p, pass, k, x, y);
    ApplyValue(p, pass, k', x, y);
    forall i
      ensures At(Bytes(line, k), i) <= At(Bytes(line, k'), i)
    {
      TrackValues(p, pass, k, x, y, i);
      TrackValues(p, pass, k', x, y, i);
    }
    WindowSumMonotone(Bytes(line, k), Bytes(line, k'), z + 1 - size, z + 1);
    ScaleMonotone(Window(line, k, size, z), Window(line, k', size, z), size);
  }

  /** Colours do not exceed alpha. */
  ghost predicate Premultiplied(p: Picture)
    requires Valid(p)
  {
    forall k, x, y :: R <= k <= B ==> Value(p, k, x, y) <= Value(p, A, x, y)
  }

  /** Premultiplied pictures stay premultiplied, whatever the windows. */
  lemma {:induction false} RunPremultiplied(p: Picture, passes: seq<Pass>)
    requires Valid(p) && Premultiplied(p)
    requires forall i :: 0 <= i < |passes| ==> passes[i].size > 0
    ensures Premultiplied(Run(p, passes))
    decreases |passes|
  {
    if passes != [] {
      var init, last := passes[..|passes| - 1], passes[|passes| - 1];
      RunPremultiplied(p, init);
      var q := Run(p, init);
      forall k, x, y | R <= k <= B
        ensures Value(Apply(q, last), k, x, y) <= Value(Apply(q, last), A, x, y)
      {
        PassMonotone(q, last, k, A, x, y);
      }
    }
  }

  ghost predicate AllFullScale(passes: seq<Pass>)
    requires forall i :: 0 <= i < |passes| ==> passes[i].size > 0
  {
    forall i :: 0 <= i < |passes| ==> FullScale(passes[i].size)
  }

  /**
   * A constant interior survives a run of passes if, and where it is not zero only if, every window is of full scale.
   */
  lemma ConstantInterior(p: Picture, passes: seq<Pass>, k: int, x: int, y: int, c: int)
    requires Valid(p) && R <= k <= A
    requires forall i :: 0 <= i < |passes| ==> passes[i].size > 0
    requires Within(p, k, x - Reach(passes, true), x, y - Reach(passes, false), y, c, c)
    ensures Value(Run(p, passes), k, x, y) == c <==> c == 0 || AllFullScale(passes)
  {
    hide Value, Run, Reach, FullScale;
    if c == 0 || AllFullScale(passes) {
      RunBounds(p, passes, k, x, y, c, c);
    } else {
      CornerIsByte(p, passes, k, x, y, c);
      RunDarkens(p, passes, k, x, y, c);
    }
  }

  lemma ReachNotNegative(passes: seq<Pass>, horizontal: bool)
    requires forall i :: 0 <= i < |passes| ==> passes[i].size > 0
    ensures Reach(passes, horizontal) >= 0
  {
  }

  lemma CornerIsByte(p: Picture, passes: seq<Pass>, k: int, x: int, y: int, c: int)
    requires Valid(p) && forall i :: 0 <= i < |passes| ==> passes[i].size > 0
    requires Within(p, k, x - Reach(passes, true), x, y - Reach(passes, false), y, c, c)
    ensures IsByte(c)
  {
    ReachNotNegative(passes, true);
    ReachNotNegative(passes, false);
    assert Value(p, k, x, y) == c;
  }

  /** One window that is not of full scale darkens whatever is not zero, and no later pass makes up for it. */
  lemma {:induction false} RunDarkens(p: Picture, passes: seq<Pass>, k: int, x: int, y: int, c: int)
    requires Valid(p) && R <= k <= A && 0 < c < 256
    requires forall i :: 0 <= i < |passes| ==> passes[i].size > 0
    requires Within(p, k, x - Reach(passes, true), x, y - Reach(passes, false), y, 0, c) && !AllFullScale(passes)
    ensures 0 <= Value(Run(p, passes), k, x, y) < c
    decreases |passes|
  {
    hide FullScale, Value, Apply;
    var init, last := passes[..|passes| - 1], passes[|passes| - 1];
    var q := Run(p, init);
    var bound := if AllFullScale(init) then c else c - 1;
    forall i, j | x - Before(last, true) <= i <= x && y - Before(last, false) <= j <= y
      ensures 0 <= Value(q, k, i, j) <= bound
    {
      if AllFullScale(init) {
        RunBounds(p, init, k, i, j, 0, c);
      } else {
        RunDarkens(p, init, k, i, j, c);
      }
    }
    if AllFullScale(init) {
      assert !FullScale(last.size) by { LastNotFullScale(passes); }
      PassDarkens(q, last, k, x, y, c);
    } else {
      PassBounds(q, last, k, x, y, 0, c - 1);
    }
  }

  lemma LastNotFullScale(passes: seq<Pass>)
    requires passes != [] && forall i :: 0 <= i < |passes| ==> passes[i].size > 0
    requires AllFullScale(passes[..|passes| - 1]) && !AllFullScale(passes)
    ensures !FullScale(passes[|passes| - 1].size)
  {
    hide FullScale;
    var init := passes[..|passes| - 1];
    assert forall i :: 0 <= i < |init| ==> init[i] == passes[i];
  }

  lemma PassDarkens(p: Picture, pass: Pass, k: int, x: int, y: int, c: int)
    requires Valid(p) && pass.size > 0 && R <= k <= A && 0 < c < 256 && !FullScale(pass.size)
    requires Within(p, k, x - Before(pass, true), x, y - Before(pass, false), y, 0, c)
    ensures 0 <= Value(Apply(p, pass), k, x, y) < c
  {
    hide KScale, Scale, FullScale, Channel, Track, Value, Apply;
    var line, z, size := Track(p, pass, x, y), Place(pass, x, y), pass.size;
    TrackWithin(p, pass, k, x, y, 0, c);
    WindowSumBounds(Bytes(line, k), z + 1 - size, z + 1, 0, c);
    ProductMonotone(c, 255, size);
    ConstantsReproduced(c, size);
    ScaleMonotone(Window(line, k, size, z), c * size, size);
    ApplyValue(p, pass, k, x, y);
  }
}
