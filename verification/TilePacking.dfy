/**
 * The tile grid over the reals: row heights limited by the box width, one scale
 * for all rows to fit the box height, and the column count of greatest area.
 */
module TilePacking {
  import opened Seqs
  import opened Wrappers

  const MIN_TILE_W: real := 120.0
  const DEFAULT_ASPECT: real := 16.0 / 9.0

  function Sane(a: real): (r: real)
    ensures r > 0.0
  {
    if a > 0.0 then a else DEFAULT_ASPECT
  }

  type Aspect = a: real | a > 0.0 witness 1.0

  function SaneAll(aspects: seq<real>): (r: seq<Aspect>)
    ensures |r| == |aspects|
  {
    seq(|aspects|, i requires 0 <= i < |aspects| => Sane(aspects[i]))
  }

  function Sum(xs: seq<real>): real {
    if xs == [] then 0.0 else Sum(xs[..|xs| - 1]) + xs[|xs| - 1]
  }

  /** The tiles row by row, `cols` to a row but the last. */
  function RowsOf(xs: seq<Aspect>, cols: nat): (rows: seq<seq<Aspect>>)
    requires cols > 0
    ensures forall r :: 0 <= r < |rows| ==> 0 < |rows[r]| <= cols
    decreases |xs|
  {
    if xs == [] then []
    else if |xs| <= cols then [xs]
    else [xs[..cols]] + RowsOf(xs[cols..], cols)
  }

  function Max(a: real, b: real): real {
    if a >= b then a else b
  }

  function Min(a: real, b: real): real {
    if a <= b then a else b
  }

  function Gaps(k: nat, gap: real): real {
    gap * (k as real - 1.0)
  }

  /** The height at which the row just fits the width. */
  function RowHeight(row: seq<Aspect>, w: real, gap: real): (h: real)
    requires row != []
    ensures h >= 0.0
  {
    SumPositive(row);
    Max(0.0, (w - Gaps(|row|, gap)) / Sum(row))
  }

  lemma {:induction false} SumPositive(row: seq<Aspect>)
    ensures Sum(row) >= 0.0 && (row != [] ==> Sum(row) > 0.0)
  {
    if row != [] { SumPositive(row[..|row| - 1]); }
  }

  function Heights(rows: seq<seq<Aspect>>, w: real, gap: real): (hs: seq<real>)
    requires forall r :: 0 <= r < |rows| ==> rows[r] != []
    ensures |hs| == |rows| && forall r :: 0 <= r < |hs| ==> hs[r] == RowHeight(rows[r], w, gap)
  {
    seq(|rows|, r requires 0 <= r < |rows| => RowHeight(rows[r], w, gap))
  }

  function RowArea(height: real, row: seq<Aspect>): real {
    height * height * Sum(row)
  }

  /** The unscaled area of the first n rows. */
  function AreaOf(rows: seq<seq<Aspect>>, hs: seq<real>, n: nat): real
    requires n <= |rows| == |hs|
  {
    if n == 0 then 0.0 else AreaOf(rows, hs, n - 1) + RowArea(hs[n - 1], rows[n - 1])
  }

  function Shrunk(area: real, scale: real): real {
    scale * scale * area
  }

  /** The uniform shrink that makes the rows fit the height; a sum of zero divides to infinity and is capped. */
  function ScaleFor(hs: seq<real>, h: real, gap: real): (s: real)
    ensures s <= 1.0
  {
    var avail := h - Gaps(|hs|, gap);
    if avail <= 0.0 then 0.0
    else if Sum(hs) == 0.0 then 1.0
    else Min(1.0, avail / Sum(hs))
  }

  /** The height of a row's cells once scaled. */
  function Cell(height: real, scale: real): real {
    height * scale
  }

  /** The width of a tile of this aspect, or of tiles of these aspects together, in cells of this height. */
  function Wide(cell: real, aspect: real): real {
    cell * aspect
  }

  /** The lesser of a running minimum and one more width, no width being infinity. */
  function Lesser(least: Option<real>, x: real): Option<real> {
    if least.None? || x < least.value then Some(x) else least
  }

  /** The running minimum after the widths of one row. */
  function NarrowestIn(row: seq<Aspect>, cell: real, least: Option<real>): Option<real> {
    if row == [] then least
    else Lesser(NarrowestIn(row[..|row| - 1], cell, least), Wide(cell, row[|row| - 1]))
  }

  /** The narrowest scaled width in the first n rows. */
  function Narrowest(rows: seq<seq<Aspect>>, hs: seq<real>, scale: real, n: nat): Option<real>
    requires n <= |rows| == |hs|
  {
    if n == 0 then None
    else NarrowestIn(rows[n - 1], Cell(hs[n - 1], scale), Narrowest(rows, hs, scale, n - 1))
  }

  datatype Layout = Layout(rows: seq<seq<Aspect>>, heights: seq<real>, scale: real, area: real, minW: Option<real>)

  type Candidate = c: Layout | |c.heights| == |c.rows| witness Layout([], [], 0.0, 0.0, None)

  function CandidateFor(xs: seq<Aspect>, w: real, h: real, gap: real, cols: nat): (c: Candidate)
    requires cols > 0
  {
    var rows := RowsOf(xs, cols);
    var hs := Heights(rows, w, gap);
    var s := ScaleFor(hs, h, gap);
    Layout(rows, hs, s, Shrunk(AreaOf(rows, hs, |rows|), s), Narrowest(rows, hs, s, |rows|))
  }

  predicate AtFloor(least: Option<real>) {
    least.Some? ==> least.value >= MIN_TILE_W
  }

  /** Is the narrowest tile at least the floor? */
  predicate Qualifies(c: Candidate) {
    AtFloor(c.minW)
  }

  ghost predicate KeepsFloor(row: seq<Aspect>, cell: real) {
    forall i :: 0 <= i < |row| ==> Wide(cell, row[i]) >= MIN_TILE_W
  }

  lemma {:induction false} NarrowestInIff(row: seq<Aspect>, cell: real, least: Option<real>)
    ensures AtFloor(NarrowestIn(row, cell, least)) <==> AtFloor(least) && KeepsFloor(row, cell)
  {
    if row != [] {
      var n := |row| - 1;
      NarrowestInIff(row[..n], cell, least);
      assert KeepsFloor(row, cell) <==> KeepsFloor(row[..n], cell) && Wide(cell, row[n]) >= MIN_TILE_W by {
        assert row == row[..n] + [row[n]];
      }
    }
  }

  lemma {:induction false} NarrowestIff(rows: seq<seq<Aspect>>, hs: seq<real>, scale: real, n: nat)
    requires n <= |rows| == |hs|
    ensures AtFloor(Narrowest(rows, hs, scale, n)) <==> forall r :: 0 <= r < n ==> KeepsFloor(rows[r], Cell(hs[r], scale))
  {
    if n > 0 {
      NarrowestIff(rows, hs, scale, n - 1);
      NarrowestInIff(rows[n - 1], Cell(hs[n - 1], scale), Narrowest(rows, hs, scale, n - 1));
    }
  }

  /** A column count qualifies exactly when every one of its tiles is at least the floor wide. */
  lemma QualifiesIff(xs: seq<Aspect>, w: real, h: real, gap: real, cols: nat)
    requires cols > 0
    ensures var c := CandidateFor(xs, w, h, gap, cols);
            Qualifies(c) <==>
              forall r :: 0 <= r < |c.rows| ==> KeepsFloor(c.rows[r], Cell(c.heights[r], c.scale))
  {
    var c := CandidateFor(xs, w, h, gap, cols);
    NarrowestIff(c.rows, c.heights, c.scale, |c.rows|);
  }

  /** Every tile is in exactly one row, in order, and all rows but the last are full. */
  lemma {:induction false} RowsCover(xs: seq<Aspect>, cols: nat)
    requires cols > 0
    ensures Concat(RowsOf(xs, cols)) == xs
    ensures forall r :: 0 <= r < |RowsOf(xs, cols)| - 1 ==> |RowsOf(xs, cols)[r]| == cols
    decreases |xs|
  {
    var rows := RowsOf(xs, cols);
    if xs != [] && |xs| > cols {
      RowsCover(xs[cols..], cols);
      assert rows[1..] == RowsOf(xs[cols..], cols);
      assert xs[..cols] + xs[cols..] == xs;
      forall r | 0 <= r < |rows| - 1 ensures |rows[r]| == cols {
        if r > 0 { assert rows[r] == RowsOf(xs[cols..], cols)[r - 1]; }
      }
    } else if xs != [] {
      assert rows[1..] == [] && xs + [] == xs;
    }
  }

  /** Cuts the tiles into rows of `cols`. */
  method SplitRows(xs: seq<Aspect>, cols: nat) returns (rows: seq<seq<Aspect>>)
    requires cols > 0
    ensures rows == RowsOf(xs, cols)
  {
    rows := [];
    var start := 0;
    assert xs[0..] == xs;
    while start < |xs|
      invariant start <= |xs| && RowsOf(xs, cols) == rows + RowsOf(xs[start..], cols)
    {
      var k := if |xs| - start <= cols then |xs| - start else cols;
      NextRow(xs, start, cols, k);
      GrowRows(RowsOf(xs, cols), rows, xs[start..start + k], RowsOf(xs[start + k..], cols));
      rows := rows + [xs[start..start + k]];
      start := start + k;
    }
    assert rows + [] == rows;
  }

  /** Measures one column count row by row: cell heights and areas, then the scale, then the narrowest tile. */
  method Measure(xs: seq<Aspect>, w: real, h: real, gap: real, cols: nat) returns (c: Candidate)
    requires cols > 0
    ensures c == CandidateFor(xs, w, h, gap, cols)
  {
    var rows := SplitRows(xs, cols);
    ghost var hs := Heights(rows, w, gap);
    var heights: seq<real>, areaSum := [], 0.0;
    for r := 0 to |rows|
      invariant heights == hs[..r] && areaSum == AreaOf(rows, hs, r)
    {
      var ch := RowHeight(rows[r], w, gap);
      assert hs[..r + 1] == hs[..r] + [ch];
      areaSum := areaSum + RowArea(ch, rows[r]);
      heights := heights + [ch];
    }
    assert hs[..|hs|] == hs;
    var scale := ScaleFor(heights, h, gap);
    var minW := FindNarrowest(rows, heights, scale);
    c := Layout(rows, heights, scale, Shrunk(areaSum, scale), minW);
  }

  /** Scans all tiles for the narrowest. */
  method FindNarrowest(rows: seq<seq<Aspect>>, heights: seq<real>, scale: real) returns (minW: Option<real>)
    requires |rows| == |heights|
    ensures minW == Narrowest(rows, heights, scale, |rows|)
  {
    minW := None;
    for r := 0 to |rows|
      invariant minW == Narrowest(rows, heights, scale, r)
    {
      var hh, row := Cell(heights[r], scale), rows[r];
      ghost var before := minW;
      for i := 0 to |row|
        invariant minW == NarrowestIn(row[..i], hh, before)
      {
        assert row[..i + 1][..i] == row[..i];
        minW := Lesser(minW, Wide(hh, row[i]));
      }
      assert row[..|row|] == row;
    }
  }

  lemma GrowRows<T>(all: seq<T>, rows: seq<T>, row: T, rest: seq<T>)
    requires all == rows + ([row] + rest)
    ensures |rows| < |all| && all[|rows|] == row && all == (rows + [row]) + rest
  {
  }

  lemma NextRow(xs: seq<Aspect>, start: nat, cols: nat, k: nat)
    requires start < |xs| && cols > 0 && k == if |xs| - start <= cols then |xs| - start else cols
    ensures RowsOf(xs[start..], cols) == [xs[start..start + k]] + RowsOf(xs[start + k..], cols)
  {
    var rest := xs[start..];
    assert rest[..k] == xs[start..start + k] && rest[k..] == xs[start + k..];
    if |rest| <= cols { assert rest[..k] == rest; }
  }

  // ── The choice ────────────────────────────────────────────────────────

  /** The candidates for 1, 2, ... columns. */
  function Candidates(xs: seq<Aspect>, w: real, h: real, gap: real): (cs: seq<Candidate>)
    ensures |cs| == |xs| && forall i :: 0 <= i < |cs| ==> cs[i] == CandidateFor(xs, w, h, gap, i + 1)
  {
    seq(|xs|, i requires 0 <= i < |xs| => CandidateFor(xs, w, h, gap, i + 1))
  }

  method MeasureAll(xs: seq<Aspect>, w: real, h: real, gap: real) returns (cs: seq<Candidate>)
    ensures cs == Candidates(xs, w, h, gap)
  {
    cs := [];
    for cols := 1 to |xs| + 1
      invariant cs == Candidates(xs, w, h, gap)[..cols - 1]
    {
      var c := Measure(xs, w, h, gap, cols);
      cs := cs + [c];
    }
  }

  predicate Eligible(c: Candidate, any: bool) {
    any || Qualifies(c)
  }

  /**
   * `pick` is the first of greatest area among the eligible ones of the first n
   * candidates; |cs| if none of those is eligible.
   */
  predicate IsBest(cs: seq<Candidate>, any: bool, n: nat, pick: nat)
    requires n <= |cs|
  {
    if pick >= n then pick == |cs| && forall c :: 0 <= c < n ==> !Eligible(cs[c], any)
    else
      && Eligible(cs[pick], any)
      && (forall c :: 0 <= c < n && Eligible(cs[c], any) ==> cs[c].area <= cs[pick].area)
      && (forall c :: 0 <= c < pick && Eligible(cs[c], any) ==> cs[c].area < cs[pick].area)
  }

  /** The scan over the first n candidates. */
  function BestIndex(cs: seq<Candidate>, any: bool, n: nat): (pick: nat)
    requires n <= |cs|
    ensures IsBest(cs, any, n, pick)
  {
    if n == 0 then |cs|
    else
      var before := BestIndex(cs, any, n - 1);
      if Eligible(cs[n - 1], any) && (before == |cs| || cs[n - 1].area > cs[before].area) then n - 1 else before
  }

  /** Scans the candidates upwards, replacing the pick only by a strictly greater area. */
  method PickBest(cs: seq<Candidate>, any: bool) returns (pick: nat)
    ensures pick == BestIndex(cs, any, |cs|)
  {
    pick := |cs|;
    for n := 0 to |cs|
      invariant pick == BestIndex(cs, any, n)
    {
      if Eligible(cs[n], any) && (pick == |cs| || cs[n].area > cs[pick].area) {
        pick := n;
      }
    }
  }

  /** The best candidate that keeps the floor, or the best of all if none does. */
  function Chosen(cs: seq<Candidate>): (c: Candidate)
    requires cs != []
    ensures c in cs
    ensures forall o :: o in cs && Qualifies(o) ==> Qualifies(c) && o.area <= c.area
    ensures (forall o :: o in cs ==> !Qualifies(o)) ==> forall o :: o in cs ==> o.area <= c.area
  {
    var fit, best := BestIndex(cs, false, |cs|), BestIndex(cs, true, |cs|);
    assert Eligible(cs[0], true);
    if fit < |cs| then cs[fit] else cs[best]
  }

  // ── The tiles ─────────────────────────────────────────────────────────

  datatype Tile = Tile(w: int, h: int)

  function AtLeastOne(x: int): int {
    if x < 1 then 1 else x
  }

  /** A tile of this cell height: whole pixels, at least one, and widened to the floor if narrower. */
  function TileFor(cell: real, aspect: Aspect, w: real): Tile {
    var wide := Wide(cell, aspect);
    var floored := if wide < MIN_TILE_W then Min(MIN_TILE_W, w) else wide;
    var tw := AtLeastOne(floored.Floor);
    Tile(tw, AtLeastOne((tw as real / aspect).Floor))
  }

  function RowTiles(row: seq<Aspect>, cell: real, w: real): (ts: seq<Tile>)
    ensures |ts| == |row|
  {
    seq(|row|, i requires 0 <= i < |row| => TileFor(cell, row[i], w))
  }

  function Widths(ts: seq<Tile>): real {
    if ts == [] then 0.0 else Widths(ts[..|ts| - 1]) + ts[|ts| - 1].w as real
  }

  function Tallest(ts: seq<Tile>): int {
    if ts == [] then 0 else
      var before := Tallest(ts[..|ts| - 1]);
      if ts[|ts| - 1].h > before then ts[|ts| - 1].h else before
  }

  function RowWidth(ts: seq<Tile>, gap: real): real {
    Gaps(|ts|, gap) + Widths(ts)
  }

  /** The tiles of each row at its scaled height. */
  function TileRows(c: Candidate, w: real): (rows: seq<seq<Tile>>)
    ensures |rows| == |c.rows|
    ensures forall r :: 0 <= r < |rows| ==> rows[r] == RowTiles(c.rows[r], Cell(c.heights[r], c.scale), w)
  {
    seq(|c.rows|, r requires 0 <= r < |c.rows| => RowTiles(c.rows[r], Cell(c.heights[r], c.scale), w))
  }

  function Flattened(rows: seq<seq<Tile>>): seq<Tile> {
    if rows == [] then [] else Flattened(rows[..|rows| - 1]) + rows[|rows| - 1]
  }

  function RowHeights(rows: seq<seq<Tile>>): real {
    if rows == [] then 0.0 else RowHeights(rows[..|rows| - 1]) + Tallest(rows[|rows| - 1]) as real
  }

  /** Is some row wider than the box by more than half a pixel? */
  predicate SomeRowTooWide(rows: seq<seq<Tile>>, w: real, gap: real) {
    exists r :: 0 <= r < |rows| && RowWidth(rows[r], gap) > w + 0.5
  }

  datatype Grid = Grid(tiles: seq<Tile>, overflow: bool)

  function GridOf(rows: seq<seq<Tile>>, w: real, h: real, gap: real): Grid {
    Grid(Flattened(rows), SomeRowTooWide(rows, w, gap) || Gaps(|rows|, gap) + RowHeights(rows) > h + 0.5)
  }

  /** Fills the tiles row by row, adding up widths and heights as it goes. */
  method Fill(c: Candidate, w: real, h: real, gap: real) returns (grid: Grid)
    ensures grid == GridOf(TileRows(c, w), w, h, gap)
  {
    ghost var rows := TileRows(c, w);
    var tiles: seq<Tile> := [];
    var overflow := false;
    var totalH := Gaps(|c.rows|, gap);
    for r := 0 to |c.rows|
      invariant tiles == Flattened(rows[..r])
      invariant overflow <==> SomeRowTooWide(rows[..r], w, gap)
      invariant totalH == Gaps(|c.rows|, gap) + RowHeights(rows[..r])
    {
      var row, rowW, rowH := FillRow(c.rows[r], Cell(c.heights[r], c.scale), w, gap);
      assert row == rows[r];
      OneMoreRow(rows, r, w, gap);
      tiles := tiles + row;
      if rowW > w + 0.5 {
        overflow := true;
      }
      totalH := totalH + rowH as real;
    }
    assert rows[..|rows|] == rows;
    if totalH > h + 0.5 {
      overflow := true;
    }
    grid := Grid(tiles, overflow);
  }

  lemma OneMoreRow(rows: seq<seq<Tile>>, r: nat, w: real, gap: real)
    requires r < |rows|
    ensures Flattened(rows[..r + 1]) == Flattened(rows[..r]) + rows[r]
    ensures SomeRowTooWide(rows[..r + 1], w, gap) <==> SomeRowTooWide(rows[..r], w, gap) || RowWidth(rows[r], gap) > w + 0.5
    ensures RowHeights(rows[..r + 1]) == RowHeights(rows[..r]) + Tallest(rows[r]) as real
  {
    var more := rows[..r + 1];
    assert more[..r] == rows[..r] && more[r] == rows[r];
    if SomeRowTooWide(rows[..r], w, gap) {
      var i :| 0 <= i < r && RowWidth(rows[..r][i], gap) > w + 0.5;
      assert more[i] == rows[..r][i];
    }
    if SomeRowTooWide(more, w, gap) {
      var i :| 0 <= i < r + 1 && RowWidth(more[i], gap) > w + 0.5;
      assert i < r ==> rows[..r][i] == more[i];
    }
  }

  method FillRow(row: seq<Aspect>, cell: real, w: real, gap: real) returns (ts: seq<Tile>, rowW: real, rowH: int)
    ensures ts == RowTiles(row, cell, w) && rowW == RowWidth(ts, gap) && rowH == Tallest(ts)
  {
    ts, rowW, rowH := [], Gaps(|row|, gap), 0;
    for i := 0 to |row|
      invariant ts == RowTiles(row[..i], cell, w)
      invariant rowW == Gaps(|row|, gap) + Widths(ts) && rowH == Tallest(ts)
    {
      var t := TileFor(cell, row[i], w);
      assert RowTiles(row[..i + 1], cell, w) == ts + [t];
      assert (ts + [t])[..i] == ts;
      ts, rowW := ts + [t], rowW + t.w as real;
      if t.h > rowH {
        rowH := t.h;
      }
    }
    assert row[..|row|] == row;
  }

  /** The grid of the chosen column count; nothing for an empty or degenerate box. */
  function Packed(aspects: seq<real>, w: real, h: real, gap: real): Grid {
    if aspects == [] || w <= 0.0 || h <= 0.0 then Grid([], false)
    else GridOf(TileRows(Chosen(Candidates(SaneAll(aspects), w, h, gap)), w), w, h, gap)
  }

  method PackTiles(aspects: seq<real>, w: real, h: real, gap: real) returns (grid: Grid)
    ensures grid == Packed(aspects, w, h, gap)
  {
    if aspects == [] || w <= 0.0 || h <= 0.0 {
      return Grid([], false);
    }
    var cs := MeasureAll(SaneAll(aspects), w, h, gap);
    var fit := PickBest(cs, false);
    var best := PickBest(cs, true);
    grid := Fill(if fit < |cs| then cs[fit] else cs[best], w, h, gap);
  }

  // ── When everything fits ──────────────────────────────────────────────

  lemma AddBounds(a: real, b: real, cell: real, s: real, x: Aspect)
    requires a <= Wide(cell, s) && b <= Wide(cell, x)
    ensures a + b <= Wide(cell, s + x)
  {
    Distributes(cell, s, x);
  }

  lemma LastTile(row: seq<Aspect>, cell: real, w: real)
    requires row != []
    ensures var ts := RowTiles(row, cell, w);
            && Widths(ts) == Widths(RowTiles(row[..|row| - 1], cell, w)) + TileFor(cell, row[|row| - 1], w).w as real
            && Tallest(ts) == var t, u := Tallest(RowTiles(row[..|row| - 1], cell, w)), TileFor(cell, row[|row| - 1], w).h;
                              if u > t then u else t
  {
    assert RowTiles(row, cell, w)[..|row| - 1] == RowTiles(row[..|row| - 1], cell, w);
  }

  lemma {:induction false} WidthsBounded(row: seq<Aspect>, cell: real, w: real)
    requires KeepsFloor(row, cell)
    ensures Widths(RowTiles(row, cell, w)) <= Wide(cell, Sum(row))
  {
    if row != [] {
      var front, last := row[..|row| - 1], row[|row| - 1];
      WidthsBounded(front, cell, w);
      LastTile(row, cell, w);
      TileKeepsFloor(cell, last, w);
      AddBounds(Widths(RowTiles(front, cell, w)), TileFor(cell, last, w).w as real, cell, Sum(front), last);
      assert Sum(row) == Sum(front) + last;
    }
  }

  lemma RowKeepsFloor(row: seq<Aspect>, cell: real, w: real)
    requires KeepsFloor(row, cell)
    ensures forall i :: 0 <= i < |row| ==> RowTiles(row, cell, w)[i].w >= 120
  {
    forall i | 0 <= i < |row| ensures RowTiles(row, cell, w)[i].w >= 120 {
      TileKeepsFloor(cell, row[i], w);
    }
  }

  lemma Distributes(a: real, b: real, c: real)
    ensures a * (b + c) == a * b + a * c
  {
  }

  lemma TileKeepsFloor(cell: real, aspect: Aspect, w: real)
    requires Wide(cell, aspect) >= MIN_TILE_W
    ensures 120 <= TileFor(cell, aspect, w).w
    ensures TileFor(cell, aspect, w).w as real <= Wide(cell, aspect)
  {
  }

  /** A tile at the floor or wider, in a row at least one pixel high, is no higher than the row. */
  lemma TileInRow(cell: real, aspect: Aspect, w: real)
    requires Wide(cell, aspect) >= MIN_TILE_W && cell >= 1.0
    ensures TileFor(cell, aspect, w).h as real <= cell
  {
    TileKeepsFloor(cell, aspect, w);
    QuotientBelow(TileFor(cell, aspect, w).w as real, aspect, cell);
  }

  lemma QuotientBelow(x: real, a: real, c: real)
    requires a > 0.0 && x <= c * a
    ensures x / a <= c
  {
    var q := x / a;
    assert q * a == x;
    if q > c { assert (q - c) * a > 0.0; }
  }

  lemma {:induction false} TallestBounded(row: seq<Aspect>, cell: real, w: real)
    requires cell >= 1.0 && KeepsFloor(row, cell)
    ensures Tallest(RowTiles(row, cell, w)) as real <= cell
  {
    if row != [] {
      TallestBounded(row[..|row| - 1], cell, w);
      LastTile(row, cell, w);
      TileInRow(cell, row[|row| - 1], w);
    }
  }

  lemma Shrinks(height: real, scale: real, s: real)
    requires height >= 0.0 && scale <= 1.0 && s > 0.0
    ensures Wide(Cell(height, scale), s) <= Wide(height, s)
  {
    var cut := 1.0 - scale;
    assert height * cut >= 0.0;
    assert Cell(height, scale) == height - height * cut;
    assert (height * cut) * s >= 0.0;
    assert Wide(Cell(height, scale), s) == height * s - (height * cut) * s;
  }

  lemma CellHasSize(height: real, scale: real)
    requires Cell(height, scale) >= 1.0
    ensures height != 0.0 && scale != 0.0
  {
  }

  /** A row that has any height exactly fills the width before scaling. */
  lemma HeightFills(row: seq<Aspect>, w: real, gap: real)
    requires row != [] && RowHeight(row, w, gap) > 0.0
    ensures Wide(RowHeight(row, w, gap), Sum(row)) == w - Gaps(|row|, gap)
  {
    SumPositive(row);
    var room, s := w - Gaps(|row|, gap), Sum(row);
    assert RowHeight(row, w, gap) == room / s;
    assert room / s * s == room;
  }

  lemma RowFits(row: seq<Aspect>, w: real, gap: real, scale: real)
    requires row != [] && scale <= 1.0
    requires Cell(RowHeight(row, w, gap), scale) >= 1.0 && KeepsFloor(row, Cell(RowHeight(row, w, gap), scale))
    ensures RowWidth(RowTiles(row, Cell(RowHeight(row, w, gap), scale), w), gap) <= w
  {
    var height := RowHeight(row, w, gap);
    CellHasSize(height, scale);
    WidthsBounded(row, Cell(height, scale), w);
    SumPositive(row);
    Shrinks(height, scale, Sum(row));
    HeightFills(row, w, gap);
  }

  /** The scaled heights of rows added up. */
  function Cells(hs: seq<real>, scale: real): real {
    if hs == [] then 0.0 else Cells(hs[..|hs| - 1], scale) + Cell(hs[|hs| - 1], scale)
  }

  lemma {:induction false} CellsAreScaled(hs: seq<real>, scale: real)
    ensures Cells(hs, scale) == Cell(Sum(hs), scale)
  {
    if hs != [] {
      CellsAreScaled(hs[..|hs| - 1], scale);
      Distributes(scale, Sum(hs[..|hs| - 1]), hs[|hs| - 1]);
    }
  }

  /** Scaled, the rows fit the height that the gaps leave. */
  lemma ScaledRowsFit(hs: seq<real>, h: real, gap: real)
    requires Sum(hs) >= 0.0 && h > Gaps(|hs|, gap)
    ensures Cells(hs, ScaleFor(hs, h, gap)) <= h - Gaps(|hs|, gap)
  {
    var avail, sum, scale := h - Gaps(|hs|, gap), Sum(hs), ScaleFor(hs, h, gap);
    CellsAreScaled(hs, scale);
    if sum > 0.0 {
      var q := avail / sum;
      assert q * sum == avail;
      assert scale <= q;
      assert (q - scale) * sum >= 0.0;
      assert sum * scale == q * sum - (q - scale) * sum;
    }
  }

  ghost predicate RowsKeepFloor(c: Candidate) {
    forall r :: 0 <= r < |c.rows| ==> KeepsFloor(c.rows[r], Cell(c.heights[r], c.scale)) && Cell(c.heights[r], c.scale) >= 1.0
  }

  lemma {:induction false} TallestFit(c: Candidate, w: real, n: nat)
    requires n <= |c.rows| && RowsKeepFloor(c)
    ensures RowHeights(TileRows(c, w)[..n]) <= Cells(c.heights[..n], c.scale)
  {
    if n > 0 {
      TallestFit(c, w, n - 1);
      var rows := TileRows(c, w);
      assert rows[..n][..n - 1] == rows[..n - 1] && c.heights[..n][..n - 1] == c.heights[..n - 1];
      TallestBounded(c.rows[n - 1], Cell(c.heights[n - 1], c.scale), w);
    }
  }

  lemma {:induction false} SumNonNegative(hs: seq<real>)
    requires forall i :: 0 <= i < |hs| ==> hs[i] >= 0.0
    ensures Sum(hs) >= 0.0
  {
    if hs != [] { SumNonNegative(hs[..|hs| - 1]); }
  }

  lemma {:induction false} FlattenedKeepFloor(rows: seq<seq<Tile>>)
    requires forall r, i :: 0 <= r < |rows| && 0 <= i < |rows[r]| ==> rows[r][i].w >= 120
    ensures forall t :: t in Flattened(rows) ==> t.w >= 120
  {
    if rows != [] { FlattenedKeepFloor(rows[..|rows| - 1]); }
  }

  lemma RowsFit(xs: seq<Aspect>, w: real, h: real, gap: real, cols: nat, r: nat)
    requires cols > 0
    requires RowsKeepFloor(CandidateFor(xs, w, h, gap, cols)) && r < |CandidateFor(xs, w, h, gap, cols).rows|
    ensures var rows := TileRows(CandidateFor(xs, w, h, gap, cols), w);
            && RowWidth(rows[r], gap) <= w
            && forall i :: 0 <= i < |rows[r]| ==> rows[r][i].w >= 120
  {
    var c := CandidateFor(xs, w, h, gap, cols);
    RowFits(c.rows[r], w, gap, c.scale);
    RowKeepsFloor(c.rows[r], Cell(c.heights[r], c.scale), w);
  }

  lemma ScaledCandidateFits(c: Candidate, w: real, h: real, gap: real)
    requires |c.heights| == |c.rows| && RowsKeepFloor(c) && h > Gaps(|c.heights|, gap)
    requires c.scale == ScaleFor(c.heights, h, gap) && forall i :: 0 <= i < |c.heights| ==> c.heights[i] >= 0.0
    ensures Gaps(|c.rows|, gap) + RowHeights(TileRows(c, w)) <= h
  {
    var rows := TileRows(c, w);
    TallestFit(c, w, |c.rows|);
    assert rows[..|c.rows|] == rows && c.heights[..|c.rows|] == c.heights;
    SumNonNegative(c.heights);
    ScaledRowsFit(c.heights, h, gap);
  }

  lemma HeightsFit(xs: seq<Aspect>, w: real, h: real, gap: real, cols: nat)
    requires xs != [] && cols > 0 && RowsKeepFloor(CandidateFor(xs, w, h, gap, cols))
    ensures var rows := TileRows(CandidateFor(xs, w, h, gap, cols), w);
            Gaps(|rows|, gap) + RowHeights(rows) <= h
  {
    var c := CandidateFor(xs, w, h, gap, cols);
    CellHasSize(c.heights[0], c.scale);
    ScaledCandidateFits(c, w, h, gap);
  }

  /** The rows of a layout are at least one pixel high. */
  predicate Visible(c: Candidate) {
    forall r :: 0 <= r < |c.rows| ==> Cell(c.heights[r], c.scale) >= 1.0
  }

  /**
   * When the chosen layout keeps the floor and every row is at least one pixel
   * high, every tile is at least 120 wide, every row fits the width, the rows
   * fit the height, and the grid need not scroll.
   */
  lemma EverythingFits(xs: seq<Aspect>, w: real, h: real, gap: real, cols: nat)
    requires xs != [] && cols > 0
    requires var c := CandidateFor(xs, w, h, gap, cols);
             Qualifies(c) && Visible(c)
    ensures var rows := TileRows(CandidateFor(xs, w, h, gap, cols), w);
            && (forall r :: 0 <= r < |rows| ==> RowWidth(rows[r], gap) <= w)
            && Gaps(|rows|, gap) + RowHeights(rows) <= h
            && !GridOf(rows, w, h, gap).overflow
            && forall t :: t in GridOf(rows, w, h, gap).tiles ==> t.w >= 120
  {
    var c := CandidateFor(xs, w, h, gap, cols);
    var rows := TileRows(c, w);
    QualifiesIff(xs, w, h, gap, cols);
    forall r | 0 <= r < |rows| ensures RowWidth(rows[r], gap) <= w && forall i :: 0 <= i < |rows[r]| ==> rows[r][i].w >= 120 {
      RowsFit(xs, w, h, gap, cols, r);
    }
    HeightsFit(xs, w, h, gap, cols);
    FlattenedKeepFloor(rows);
  }

  /**
   * What is packed, when some column count keeps the floor and the chosen one's
   * rows are at least one pixel high: tiles at least 120 wide, and no scrolling.
   */
  lemma PackedFits(aspects: seq<real>, w: real, h: real, gap: real)
    requires aspects != [] && w > 0.0 && h > 0.0
    requires var cs := Candidates(SaneAll(aspects), w, h, gap);
             (exists c :: c in cs && Qualifies(c)) && Visible(Chosen(cs))
    ensures var grid := Packed(aspects, w, h, gap);
            !grid.overflow && forall t :: t in grid.tiles ==> t.w >= 120
  {
    var xs := SaneAll(aspects);
    var cs := Candidates(xs, w, h, gap);
    var i :| 0 <= i < |cs| && cs[i] == Chosen(cs);
    EverythingFits(xs, w, h, gap, i + 1);
  }
}
