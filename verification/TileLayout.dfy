/** The tile layout: as many tiles per line as fit, lines of tiles, and the last line aligned on its own. */
module TileLayout {
  import opened Arithmetic

  datatype HPos = LEFT | CENTER | RIGHT
  datatype VPos = TOP | BASELINE | VCENTER | BOTTOM

  // ---------- The helpers ----------

  /** `computeColumns` and `computeRows` */
  function Fit(extent: real, tile: real, gap: real): (n: int)
    requires tile + gap > 0.0
    ensures n >= 1
  {
    var n := Trunc((extent + gap) / (tile + gap));
    if n < 1 then 1 else n
  }

  /** `computeOther`: the quotient rounded up */
  function Other(nodes: nat, cells: int): int {
    var d := if cells < 1 then 1 else cells;
    -((-(nodes as real / d as real)).Floor)
  }

  /** `computeContentWidth` and `computeContentHeight` */
  function Content(n: int, tile: real, gap: real): real {
    if n == 0 then 0.0 else n as real * tile + (n - 1) as real * gap
  }

  function XOffset(width: real, content: real, hpos: HPos): real {
    match hpos
    case LEFT => 0.0
    case CENTER => (width - content) / 2.0
    case RIGHT => width - content
  }

  function YOffset(height: real, content: real, vpos: VPos): real {
    match vpos
    case BASELINE | TOP => 0.0
    case VCENTER => (height - content) / 2.0
    case BOTTOM => height - content
  }

  lemma ContentIs(n: int, tile: real, gap: real)
    requires n > 0
    ensures Content(n, tile, gap) == n as real * (tile + gap) - gap
  {
    assert n as real * (tile + gap) == n as real * tile + n as real * gap;
    assert (n - 1) as real * gap == n as real * gap - gap;
  }

  /** The number of tiles per line is the largest that fits. */
  lemma FitIsLargest(extent: real, tile: real, gap: real)
    requires 0.0 < tile <= extent && 0.0 <= gap
    ensures var n := Fit(extent, tile, gap);
            n >= 1 && Content(n, tile, gap) <= extent < Content(n + 1, tile, gap)
  {
    hide Content;
    var unit, total := tile + gap, extent + gap;
    var q := total / unit;
    assert q * unit == total;
    QuotientAtLeastOne(total, unit, q);
    var n := Trunc(q);
    FloorProduct(q, unit, n);
    ContentIs(n, tile, gap);
    ContentIs(n + 1, tile, gap);
    assert Fit(extent, tile, gap) == n;
  }

  lemma QuotientAtLeastOne(total: real, unit: real, q: real)
    requires 0.0 < unit <= total && q * unit == total
    ensures q >= 1.0
  {
  }

  lemma FloorProduct(q: real, unit: real, n: int)
    requires 0.0 < unit && n as real <= q < (n + 1) as real
    ensures n as real * unit <= q * unit < (n + 1) as real * unit
  {
  }

  lemma ContentMonotone(n: int, m: int, tile: real, gap: real)
    requires 0 < n <= m && 0.0 <= tile && 0.0 <= gap
    ensures Content(n, tile, gap) <= Content(m, tile, gap)
  {
    ContentIs(n, tile, gap);
    ContentIs(m, tile, gap);
    assert n as real * (tile + gap) <= m as real * (tile + gap);
  }

  /** Rounding up, in integers. */
  lemma OtherIs(nodes: nat, n: int)
    requires n > 0
    ensures Other(nodes, n) == (nodes + n - 1) / n
    ensures nodes > 0 ==> (Other(nodes, n) - 1) * n < nodes <= Other(nodes, n) * n
  {
    var q := (nodes + n - 1) / n;
    assert (q - 1) * n < nodes <= q * n by { assert q * n <= nodes + n - 1 < q * n + n; }
    CeilBetween(nodes, n, q);
  }

  lemma CeilBetween(a: nat, n: int, q: int)
    requires n > 0 && (q - 1) * n < a <= q * n
    ensures -((-(a as real / n as real)).Floor) == q
  {
    var v := a as real / n as real;
    assert v * n as real == a as real;
    assert (q * n) as real == q as real * n as real && ((q - 1) * n) as real == (q - 1) as real * n as real;
    RealBetween(v, n as real, (q - 1) as real, q as real);
  }

  lemma RealBetween(v: real, n: real, lo: real, hi: real)
    requires n > 0.0 && lo * n < v * n <= hi * n
    ensures lo < v <= hi
  {
  }

  // ---------- The layout ----------

  datatype Tile = Tile(x: real, y: real, w: real, h: real)

  /** The pane: its size without insets, where that starts, tiles, gaps, orientation and alignment. */
  datatype Pane = Pane(left: real, top: real, width: real, height: real, tilew: real, tileh: real,
                       hgap: real, vgap: real, horizontal: bool, hpos: HPos, vpos: VPos)

  predicate ValidPane(p: Pane) {
    0.0 < p.width && 0.0 < p.height && 0.0 < p.tilew && 0.0 < p.tileh && 0.0 <= p.hgap && 0.0 <= p.vgap
  }

  /** How content is placed along an axis. */
  datatype Align = Start | Middle | End

  /** One axis of the pane, with tiles no larger than the pane. */
  datatype Axis = Axis(start: real, extent: real, tile: real, gap: real, align: Align)

  function Smaller(a: real, b: real): real {
    if a > b then b else a
  }

  function XAxis(p: Pane): Axis {
    Axis(p.left, p.width, Smaller(p.tilew, p.width), p.hgap,
         match p.hpos case LEFT => Start case CENTER => Middle case RIGHT => End)
  }

  function YAxis(p: Pane): Axis {
    Axis(p.top, p.height, Smaller(p.tileh, p.height), p.vgap,
         match p.vpos case BASELINE | TOP => Start case VCENTER => Middle case BOTTOM => End)
  }

  /** The axis along which tiles follow each other, and the axis along which lines do. */
  function MainAxis(p: Pane): Axis {
    if p.horizontal then XAxis(p) else YAxis(p)
  }

  function CrossAxis(p: Pane): Axis {
    if p.horizontal then YAxis(p) else XAxis(p)
  }

  predicate ValidAxis(a: Axis) {
    0.0 < a.tile <= a.extent && 0.0 <= a.gap
  }

  function Offset(a: Axis, n: int): real {
    var content := Content(n, a.tile, a.gap);
    a.start + match a.align case Start => 0.0 case Middle => (a.extent - content) / 2.0 case End => a.extent - content
  }

  /** The distance of c cells. */
  function Stride(a: Axis, c: int): real {
    c as real * (a.tile + a.gap)
  }

  function PerLine(a: Axis): (n: int)
    requires ValidAxis(a)
    ensures n >= 1
  {
    Fit(a.extent, a.tile, a.gap)
  }

  /** The number of tiles in line l of `count` tiles, n to a line. */
  function InLine(count: nat, n: int, l: int): int {
    if (l + 1) * n <= count then n else count - l * n
  }

  /** The place of tile i along the main axis: cell i mod n of a line that is aligned by what it holds. */
  function MainPos(a: Axis, count: nat, i: int): real
    requires ValidAxis(a)
  {
    var n := PerLine(a);
    Offset(a, InLine(count, n, i / n)) + Stride(a, i % n)
  }

  /** The place of line l along the cross axis. */
  function CrossPos(b: Axis, lines: int, l: int): real {
    Offset(b, lines) + Stride(b, l)
  }

  lemma PaneAxes(p: Pane)
    requires ValidPane(p)
    ensures ValidAxis(XAxis(p)) && ValidAxis(YAxis(p)) && ValidAxis(MainAxis(p)) && ValidAxis(CrossAxis(p))
  {
  }

  /** Tile i of `count`: cell i mod n of line i / n. */
  function TileOf(p: Pane, count: nat, i: int): Tile
    requires ValidPane(p)
  {
    PaneAxes(p);
    var a, b := MainAxis(p), CrossAxis(p);
    var n := PerLine(a);
    var main, cross := MainPos(a, count, i), CrossPos(b, Other(count, n), i / n);
    if p.horizontal then Tile(main, cross, a.tile, b.tile) else Tile(cross, main, b.tile, a.tile)
  }

  /** Aligned content that is not larger than the pane stays within it. */
  lemma OffsetInside(a: Axis, n: int, c: int)
    requires ValidAxis(a) && 0 <= c < n && Content(n, a.tile, a.gap) <= a.extent
    ensures a.start <= Offset(a, n) + Stride(a, c)
    ensures Offset(a, n) + Stride(a, c) + a.tile <= a.start + a.extent
  {
    hide Content, Offset;
    var unit := a.tile + a.gap;
    ContentIs(n, a.tile, a.gap);
    UnitsMonotone(0, c, unit);
    UnitsMonotone(c + 1, n, unit);
    assert (c + 1) as real * unit == c as real * unit + unit;
    Aligned(a, n, c as real * unit);
  }

  lemma Aligned(a: Axis, n: int, d: real)
    requires 0.0 <= d && d + a.tile <= Content(n, a.tile, a.gap) <= a.extent
    ensures a.start <= Offset(a, n) + d && Offset(a, n) + d + a.tile <= a.start + a.extent
  {
    hide Content;
  }

  lemma UnitsMonotone(c: int, d: int, unit: real)
    requires c <= d && 0.0 <= unit
    ensures c as real * unit <= d as real * unit
  {
  }

  lemma LineHolds(count: nat, n: int, i: int)
    requires n > 0 && 0 <= i < count
    ensures 0 <= i % n < InLine(count, n, i / n) <= n
  {
    var l := i / n;
    assert i == l * n + i % n;
    assert (l + 1) * n == l * n + n;
  }

  /** Every tile, also of the realigned last line, lies inside the pane along the main axis. */
  lemma TilesInside(p: Pane, count: nat, i: int)
    requires ValidPane(p) && 0 <= i < count
    ensures var t := TileOf(p, count, i);
            if p.horizontal then p.left <= t.x && t.x + t.w <= p.left + p.width
            else p.top <= t.y && t.y + t.h <= p.top + p.height
  {
    hide Offset, Content, CrossPos, Fit, InLine, Stride;
    PaneAxes(p);
    var a := MainAxis(p);
    var n := PerLine(a);
    FitIsLargest(a.extent, a.tile, a.gap);
    LineHolds(count, n, i);
    var m := InLine(count, n, i / n);
    ContentMonotone(m, n, a.tile, a.gap);
    OffsetInside(a, m, i % n);
  }

  ghost predicate Apart(t: Tile, u: Tile) {
    t.x + t.w <= u.x || u.x + u.w <= t.x || t.y + t.h <= u.y || u.y + u.h <= t.y
  }

  lemma StridesApart(a: Axis, c: int, d: int)
    requires c < d && ValidAxis(a)
    ensures Stride(a, c) + a.tile <= Stride(a, d)
  {
    UnitsMonotone(c + 1, d, a.tile + a.gap);
    assert (c + 1) as real * (a.tile + a.gap) == c as real * (a.tile + a.gap) + a.tile + a.gap;
  }

  /** No two tiles overlap. */
  lemma TilesDisjoint(p: Pane, count: nat, i: int, j: int)
    requires ValidPane(p) && 0 <= i < j < count
    ensures Apart(TileOf(p, count, i), TileOf(p, count, j))
  {
    hide Offset, Content, Fit, InLine, Other, Stride;
    PaneAxes(p);
    var a, b := MainAxis(p), CrossAxis(p);
    var n := PerLine(a);
    FitIsLargest(a.extent, a.tile, a.gap);
    LinesOrdered(n, i, j);
    if i / n < j / n {
      StridesApart(b, i / n, j / n);
    } else {
      StridesApart(a, i % n, j % n);
    }
  }

  lemma LinesOrdered(n: int, i: int, j: int)
    requires n > 0 && i < j
    ensures i / n < j / n || (i / n == j / n && i % n < j % n)
  {
    var q, q' := i / n, j / n;
    assert i == q * n + i % n && j == q' * n + j % n;
    MultipleAtLeast(q - q', n);
    assert (q - q') * n == q * n - q' * n;
  }

  // ---------- Where the tiles lie ----------

  lemma ContentEnds(a: Axis, m: int)
    requires m > 0
    ensures Stride(a, 0) == 0.0 && Stride(a, m - 1) + a.tile == Content(m, a.tile, a.gap)
  {
    ContentIs(m, a.tile, a.gap);
    assert (m - 1) as real * (a.tile + a.gap) == m as real * (a.tile + a.gap) - (a.tile + a.gap);
  }

  lemma AxisMargins(a: Axis, m: int)
    requires m > 0
    ensures var lead := Offset(a, m) + Stride(a, 0) - a.start;
            var trail := a.start + a.extent - (Offset(a, m) + Stride(a, m - 1) + a.tile);
            && lead + Content(m, a.tile, a.gap) + trail == a.extent
            && (a.align == Start ==> lead == 0.0) && (a.align == Middle ==> lead == trail)
            && (a.align == End ==> trail == 0.0)
  {
    hide Content, Stride;
    ContentEnds(a, m);
  }

  /** The last tile of the line that tile i is in. */
  function LineEnd(count: nat, n: int, i: int): int
    requires n > 0
  {
    Min((i / n + 1) * n, count) - 1
  }

  lemma LineEndIs(count: nat, n: int, i: int)
    requires n > 0 && 0 <= i < count
    ensures var e := LineEnd(count, n, i);
            i <= e < count && e / n == i / n && e % n == InLine(count, n, i / n) - 1
  {
    var l, m := i / n, InLine(count, n, i / n);
    LineHolds(count, n, i);
    assert i == l * n + i % n && (l + 1) * n == l * n + n;
    assert LineEnd(count, n, i) == l * n + (m - 1);
    DigitsOf(n, l, m - 1);
  }

  /**
   * Every line of a horizontal pane, also the last, starts at the left edge, ends at the right edge, or has the same
   * space on both sides.
   */
  lemma RowMargins(p: Pane, count: nat, i: int)
    requires ValidPane(p) && p.horizontal && ValidAxis(XAxis(p)) && 0 <= i < count && i % PerLine(XAxis(p)) == 0
    ensures var e := LineEnd(count, PerLine(XAxis(p)), i);
            && i <= e < count
            && (p.hpos == LEFT ==> TileOf(p, count, i).x == p.left)
            && (p.hpos == RIGHT ==> TileOf(p, count, e).x + TileOf(p, count, e).w == p.left + p.width)
            && (p.hpos == CENTER ==> TileOf(p, count, i).x - p.left
                                     == p.left + p.width - (TileOf(p, count, e).x + TileOf(p, count, e).w))
  {
    hide Offset, Content, Stride, Fit, Other, InLine, CrossPos, LineEnd;
    var a := XAxis(p);
    var n := PerLine(a);
    LineEndIs(count, n, i);
    LineHolds(count, n, i);
    AxisMargins(a, InLine(count, n, i / n));
  }

  /** So does every column of a vertical pane between top and bottom. */
  lemma ColumnMargins(p: Pane, count: nat, i: int)
    requires ValidPane(p) && !p.horizontal && ValidAxis(YAxis(p)) && 0 <= i < count && i % PerLine(YAxis(p)) == 0
    ensures var e := LineEnd(count, PerLine(YAxis(p)), i);
            && i <= e < count
            && (p.vpos == TOP || p.vpos == BASELINE ==> TileOf(p, count, i).y == p.top)
            && (p.vpos == BOTTOM ==> TileOf(p, count, e).y + TileOf(p, count, e).h == p.top + p.height)
            && (p.vpos == VCENTER ==> TileOf(p, count, i).y - p.top
                                      == p.top + p.height - (TileOf(p, count, e).y + TileOf(p, count, e).h))
  {
    hide Offset, Content, Stride, Fit, Other, InLine, CrossPos, LineEnd;
    var a := YAxis(p);
    var n := PerLine(a);
    LineEndIs(count, n, i);
    LineHolds(count, n, i);
    AxisMargins(a, InLine(count, n, i / n));
  }

  /** Across the lines it is the first and the last line whose distances from the edges are so aligned. */
  lemma CrossMargins(p: Pane, count: nat)
    requires ValidPane(p) && 0 < count
    ensures var t, u := TileOf(p, count, 0), TileOf(p, count, count - 1);
            && (p.horizontal ==>
                  && (p.vpos == TOP || p.vpos == BASELINE ==> t.y == p.top)
                  && (p.vpos == BOTTOM ==> u.y + u.h == p.top + p.height)
                  && (p.vpos == VCENTER ==> t.y - p.top == p.top + p.height - (u.y + u.h)))
            && (!p.horizontal ==>
                  && (p.hpos == LEFT ==> t.x == p.left)
                  && (p.hpos == RIGHT ==> u.x + u.w == p.left + p.width)
                  && (p.hpos == CENTER ==> t.x - p.left == p.left + p.width - (u.x + u.w)))
  {
    hide Offset, Content, Stride, Fit, Other, InLine, MainPos;
    PaneAxes(p);
    var n := PerLine(MainAxis(p));
    LastLineIndex(count, n);
    AxisMargins(CrossAxis(p), Other(count, n));
  }

  lemma LastLineIndex(count: nat, n: int)
    requires n > 0 && 0 < count
    ensures Other(count, n) > 0 && (count - 1) / n == Other(count, n) - 1 && 0 / n == 0
  {
    hide Other;
    OtherIs(count, n);
    var l := Other(count, n) - 1;
    MultipleAtLeast(l + 1, n);
    assert (l + 1) * n == l * n + n;
    DigitsOf(n, l, count - 1 - l * n);
  }

  /** Tiles have the asked size unless the pane is smaller. Neighbours in a line, and lines, are one gap apart. */
  lemma TilesSpaced(p: Pane, count: nat, i: int, j: int)
    requires ValidPane(p) && 0 <= i < count && 0 <= j < count && ValidAxis(MainAxis(p))
    ensures var t, u, n := TileOf(p, count, i), TileOf(p, count, j), PerLine(MainAxis(p));
            && t.w == (if p.tilew < p.width then p.tilew else p.width)
            && t.h == (if p.tileh < p.height then p.tileh else p.height)
            && (p.horizontal ==>
                  && (j / n == i / n ==> u.y == t.y) && (j / n == i / n + 1 ==> u.y == t.y + t.h + p.vgap)
                  && (j / n == i / n && j % n == i % n + 1 ==> u.x == t.x + t.w + p.hgap))
            && (!p.horizontal ==>
                  && (j / n == i / n ==> u.x == t.x) && (j / n == i / n + 1 ==> u.x == t.x + t.w + p.hgap)
                  && (j / n == i / n && j % n == i % n + 1 ==> u.y == t.y + t.h + p.vgap))
  {
    hide Offset, Content, Stride, Fit, Other, InLine;
    var n := PerLine(MainAxis(p));
    StrideNext(MainAxis(p), i % n);
    StrideNext(CrossAxis(p), i / n);
  }

  lemma StrideNext(a: Axis, c: int)
    ensures Stride(a, c + 1) == Stride(a, c) + a.tile + a.gap
  {
    assert (c + 1) as real * (a.tile + a.gap) == c as real * (a.tile + a.gap) + (a.tile + a.gap);
  }

  // ---------- layoutChildren ----------

  class TilePane {
    var actualRows: int
    var actualColumns: int

    constructor ()
      ensures actualRows == actualColumns == 0
    {
      actualRows, actualColumns := 0, 0;
    }

    /** Places `count` children, in their order; `layoutInArea` is recorded as the tile it is given. */
    method LayoutChildren(p: Pane, count: nat) returns (tiles: seq<Tile>)
      requires ValidPane(p)
      modifies this
      ensures |tiles| == count && forall i :: 0 <= i < count ==> tiles[i] == TileOf(p, count, i)
      ensures p.horizontal ==> actualColumns == PerLine(XAxis(p)) && actualRows == Other(count, actualColumns)
      ensures !p.horizontal ==> actualRows == PerLine(YAxis(p)) && actualColumns == Other(count, actualRows)
    {
      hide Content, Fit, Other;
      PaneAxes(p);
      var tileWidth := if p.tilew > p.width then p.width else p.tilew;
      var tileHeight := if p.tileh > p.height then p.height else p.tileh;
      var lastRowRemainder, lastColumnRemainder := 0, 0;
      if p.horizontal {
        actualColumns := Fit(p.width, tileWidth, p.hgap);
        actualRows := Other(count, actualColumns);
        // all of a full last row, although the source's comment says 0
        lastRowRemainder := if p.hpos != LEFT then actualColumns - (actualColumns * actualRows - count) else 0;
      } else {
        actualRows := Fit(p.height, tileHeight, p.vgap);
        actualColumns := Other(count, actualRows);
        lastColumnRemainder := if p.vpos != TOP then actualRows - (actualColumns * actualRows - count) else 0;
      }
      var rowX := p.left + XOffset(p.width, Content(actualColumns, tileWidth, p.hgap), p.hpos);
      var columnY := p.top + YOffset(p.height, Content(actualRows, tileHeight, p.vgap), p.vpos);
      var lastRowX := if lastRowRemainder > 0
                      then p.left + XOffset(p.width, Content(lastRowRemainder, tileWidth, p.hgap), p.hpos)
                      else rowX;
      var lastColumnY := if lastColumnRemainder > 0
                         then p.top + YOffset(p.height, Content(lastColumnRemainder, tileHeight, p.vgap), p.vpos)
                         else columnY;
      hide Offset, XOffset, YOffset;
      OffsetsAre(p, actualColumns, actualRows);
      OffsetsAre(p, lastRowRemainder, lastColumnRemainder);
      tiles := PlaceTiles(p, count, rowX, columnY, lastRowX, lastColumnY, tileWidth, tileHeight, lastRowRemainder,
                          lastColumnRemainder);
    }

    /** The loop over the children. */
    method PlaceTiles(p: Pane, count: nat, rowX: real, columnY: real, lastRowX: real, lastColumnY: real,
                      tileWidth: real, tileHeight: real, ghost lastRow: int, ghost lastColumn: int)
      returns (tiles: seq<Tile>)
      requires ValidPane(p) && ValidAxis(XAxis(p)) && ValidAxis(YAxis(p))
      requires tileWidth == XAxis(p).tile && tileHeight == YAxis(p).tile
      requires rowX == Offset(XAxis(p), actualColumns) && columnY == Offset(YAxis(p), actualRows)
      requires p.horizontal ==> actualColumns == PerLine(XAxis(p)) && actualRows == Other(count, actualColumns)
      requires !p.horizontal ==> actualRows == PerLine(YAxis(p)) && actualColumns == Other(count, actualRows)
      requires p.horizontal ==>
                 && lastColumnY == columnY
                 && IsLast(XAxis(p), count, actualColumns, actualRows, lastRow, rowX, lastRowX)
      requires !p.horizontal ==>
                 && lastRowX == rowX
                 && IsLast(YAxis(p), count, actualRows, actualColumns, lastColumn, columnY, lastColumnY)
      ensures |tiles| == count && forall i :: 0 <= i < count ==> tiles[i] == TileOf(p, count, i)
    {
      hide Content, Fit, Other, InLine, Offset, IsLast, Stride, XAxis, YAxis, TileOf;
      PaneAxes(p);
      ghost var a := MainAxis(p);
      ghost var n := PerLine(a);
      FitIsLargest(a.extent, a.tile, a.gap);
      tiles := [];
      var r, c := 0, 0;
      for i := 0 to count
        invariant if p.horizontal then r == i / n && c == i % n else c == i / n && r == i % n
        invariant |tiles| == i && forall j :: 0 <= j < i ==> tiles[j] == TileOf(p, count, j)
      {
        var xoffset := if r == actualRows - 1 then lastRowX else rowX;
        var yoffset := if c == actualColumns - 1 then lastColumnY else columnY;
        if p.horizontal {
          LineOffset(a, count, n, actualRows, lastRow, rowX, lastRowX, i);
        } else {
          LineOffset(a, count, n, actualColumns, lastColumn, columnY, lastColumnY, i);
        }
        var tile := Tile(xoffset + c as real * (tileWidth + p.hgap), yoffset + r as real * (tileHeight + p.vgap),
                         tileWidth, tileHeight);
        StrideIs(p, c, r, tileWidth, tileHeight);
        TileIs(p, count, i, tile, xoffset, yoffset, r, c);
        tiles := tiles + [tile];
        NextDigits(n, i);
        if p.horizontal {
          c := c + 1;
          if c == actualColumns {
            c := 0;
            r := r + 1;
          }
        } else {
          r := r + 1;
          if r == actualRows {
            r := 0;
            c := c + 1;
          }
        }
      }
    }
  }

  lemma OffsetsAre(p: Pane, columns: int, rows: int)
    ensures Offset(XAxis(p), columns) == p.left + XOffset(p.width, Content(columns, XAxis(p).tile, p.hgap), p.hpos)
    ensures Offset(YAxis(p), rows) == p.top + YOffset(p.height, Content(rows, YAxis(p).tile, p.vgap), p.vpos)
  {
  }

  /** `last` is where the last line starts, by the remainder the source computes. */
  ghost predicate IsLast(a: Axis, count: nat, n: int, lines: int, remainder: int, first: real, last: real) {
    && (remainder == n - (n * lines - count) || (a.align == Start && remainder == 0))
    && last == if remainder > 0 then Offset(a, remainder) else first
  }

  lemma LineOffset(a: Axis, count: nat, n: int, lines: int, remainder: int, first: real, last: real, i: int)
    requires n > 0 && 0 <= i < count && lines == Other(count, n) && first == Offset(a, n)
    requires IsLast(a, count, n, lines, remainder, first, last)
    ensures (if i / n == lines - 1 then last else first) == Offset(a, InLine(count, n, i / n))
  {
    hide InLine, Other, Content;
    LastLine(count, n, i);
  }

  lemma TileIs(p: Pane, count: nat, i: int, tile: Tile, xoffset: real, yoffset: real, r: int, c: int)
    requires ValidPane(p) && ValidAxis(MainAxis(p))
    requires var n := PerLine(MainAxis(p));
             && (if p.horizontal then r == i / n && c == i % n else c == i / n && r == i % n)
             && (if p.horizontal then xoffset else yoffset) == Offset(MainAxis(p), InLine(count, n, i / n))
             && (if p.horizontal then yoffset else xoffset) == Offset(CrossAxis(p), Other(count, n))
    requires tile == Tile(xoffset + Stride(XAxis(p), c), yoffset + Stride(YAxis(p), r), XAxis(p).tile, YAxis(p).tile)
    ensures tile == TileOf(p, count, i)
  {
    hide InLine, Other, Content, Offset, Fit, Stride, XAxis, YAxis;
  }

  lemma StrideIs(p: Pane, c: int, r: int, tileWidth: real, tileHeight: real)
    requires tileWidth == XAxis(p).tile && tileHeight == YAxis(p).tile
    ensures c as real * (tileWidth + p.hgap) == Stride(XAxis(p), c)
    ensures r as real * (tileHeight + p.vgap) == Stride(YAxis(p), r)
  {
  }

  /** Which line is last and what it holds. */
  lemma LastLine(count: nat, n: int, i: int)
    requires n > 0 && 0 <= i < count
    ensures var lines := Other(count, n);
            InLine(count, n, i / n) == if i / n == lines - 1 then n - (n * lines - count) else n
    ensures InLine(count, n, i / n) > 0
  {
    hide Other;
    var l := i / n;
    OtherIs(count, n);
    assert i == l * n + i % n;
    LineLength(count, n, l, Other(count, n));
  }

  lemma LineLength(count: nat, n: int, l: int, lines: int)
    requires n > 0 && 0 <= l && l * n < count && (lines - 1) * n < count <= lines * n
    ensures InLine(count, n, l) == if l == lines - 1 then n - (n * lines - count) else n
    ensures InLine(count, n, l) > 0
  {
    var d := lines - 1 - l;
    assert (lines - 1) * n == l * n + d * n && (l + 1) * n == l * n + n && lines * n == (lines - 1) * n + n;
    MultipleAtLeast(d, n);
    MultipleAtLeast(d + 1, n);
    assert (d + 1) * n == d * n + n;
  }
}
