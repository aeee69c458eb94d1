/**
 * What the tile grid maximises and what it hands out, in terms of the box, the
 * gap and the tiles' aspects alone.
 */
module TileAreas {
  import opened Seqs
  import opened TilePacking
  import opened Wrappers

  // ── Rows, heights and the scale ───────────────────────────────────────

  /** Tile i of row r is tile r * cols + i of the input. */
  lemma {:induction false} RowHas(xs: seq<Aspect>, cols: nat, r: nat, i: nat, k: nat)
    requires cols > 0 && r < |RowsOf(xs, cols)| && i < |RowsOf(xs, cols)[r]| && k == r * cols + i
    ensures k < |xs| && RowsOf(xs, cols)[r][i] == xs[k]
    decreases r
  {
    if r > 0 {
      OneRowBack(r, cols);
      RowHas(xs[cols..], cols, r - 1, i, k - cols);
    }
  }

  lemma OneRowBack(r: nat, cols: nat)
    requires r > 0
    ensures r * cols == (r - 1) * cols + cols && (r - 1) * cols >= 0
  {
  }

  /** The cell height of a row is the greatest for which its tiles and gaps fit the width, or zero if the gaps alone do not. */
  lemma RowHeightIsGreatest(row: seq<Aspect>, w: real, gap: real)
    requires row != []
    ensures var height, room := RowHeight(row, w, gap), w - gap * (|row| as real - 1.0);
            && Sum(row) > 0.0 && height >= 0.0
            && (room >= 0.0 ==> height * Sum(row) == room)
            && (room < 0.0 ==> height == 0.0)
  {
    SumPositive(row);
    var room, s := w - gap * (|row| as real - 1.0), Sum(row);
    assert room / s * s == room;
    if room < 0.0 { QuotientSign(room, s); } else { QuotientSign(-room, s); }
  }

  lemma QuotientSign(x: real, s: real)
    requires s > 0.0 && x <= 0.0
    ensures x / s <= 0.0 && -x / s >= 0.0
  {
    var q := x / s;
    assert q * s == x;
    assert q > 0.0 ==> q * s > 0.0;
    var p := -x / s;
    assert p * s == -x;
    assert p < 0.0 ==> p * s < 0.0;
  }

  /** The scale is the greatest up to one at which all rows fit the height the gaps leave; none does when the gaps leave nothing. */
  lemma ScaleIsGreatest(hs: seq<real>, h: real, gap: real, t: real)
    requires Sum(hs) >= 0.0
    ensures var s, room := ScaleFor(hs, h, gap), h - gap * (|hs| as real - 1.0);
            && (room <= 0.0 ==> s == 0.0)
            && (room > 0.0 ==> 0.0 <= s <= 1.0 && Sum(hs) * s <= room)
            && (room > 0.0 && t <= 1.0 && Sum(hs) * t <= room ==> t <= s)
  {
    var s, room, sum := ScaleFor(hs, h, gap), h - gap * (|hs| as real - 1.0), Sum(hs);
    if room > 0.0 && sum > 0.0 {
      var q := room / sum;
      assert q * sum == room;
      assert q < 0.0 ==> q * sum < 0.0;
      assert s <= q ==> (q - s) * sum >= 0.0;
      assert t > q ==> (t - q) * sum > 0.0;
    }
  }

  // ── Area ──────────────────────────────────────────────────────────────

  /** Height times width of a tile of this aspect in a row of this height, scaled. */
  function TileArea(height: real, scale: real, aspect: real): real {
    (height * scale) * (height * scale * aspect)
  }

  function RowTiled(row: seq<Aspect>, height: real, scale: real): real {
    if row == [] then 0.0
    else RowTiled(row[..|row| - 1], height, scale) + TileArea(height, scale, row[|row| - 1])
  }

  /** The tiles' areas in the first n rows, added up. */
  function Tiled(rows: seq<seq<Aspect>>, hs: seq<real>, scale: real, n: nat): real
    requires n <= |rows| == |hs|
  {
    if n == 0 then 0.0 else Tiled(rows, hs, scale, n - 1) + RowTiled(rows[n - 1], hs[n - 1], scale)
  }

  lemma OneTile(height: real, scale: real, sum: real, aspect: real)
    ensures scale * scale * (height * height * (sum + aspect)) ==
            scale * scale * (height * height * sum) + TileArea(height, scale, aspect)
  {
    var hh, ss := height * height, scale * scale;
    assert hh * (sum + aspect) == hh * sum + hh * aspect;
    assert (height * scale) * (height * scale) == ss * hh by {
      assert (height * scale) * (height * scale) == height * (scale * height) * scale;
    }
    assert TileArea(height, scale, aspect) == (height * scale) * (height * scale) * aspect;
    assert ss * hh * aspect == ss * (hh * aspect);
  }

  lemma {:induction false} RowTiledIs(row: seq<Aspect>, height: real, scale: real)
    ensures RowTiled(row, height, scale) == Shrunk(RowArea(height, row), scale)
  {
    if row != [] {
      var n := |row| - 1;
      RowTiledIs(row[..n], height, scale);
      OneTile(height, scale, Sum(row[..n]), row[n]);
    }
  }

  lemma {:induction false} TiledIs(rows: seq<seq<Aspect>>, hs: seq<real>, scale: real, n: nat)
    requires n <= |rows| == |hs|
    ensures Tiled(rows, hs, scale, n) == Shrunk(AreaOf(rows, hs, n), scale)
  {
    if n > 0 {
      TiledIs(rows, hs, scale, n - 1);
      RowTiledIs(rows[n - 1], hs[n - 1], scale);
      ShrunkSum(AreaOf(rows, hs, n - 1), RowArea(hs[n - 1], rows[n - 1]), scale);
    }
  }

  lemma ShrunkSum(a: real, b: real, scale: real)
    ensures Shrunk(a + b, scale) == Shrunk(a, scale) + Shrunk(b, scale)
  {
    Distributes(scale * scale, a, b);
  }

  /** All tiles of a layout at their scaled size. */
  function Area(c: Candidate): real {
    Tiled(c.rows, c.heights, c.scale, |c.rows|)
  }

  ghost predicate RowFloored(row: seq<Aspect>, height: real, scale: real) {
    forall i :: 0 <= i < |row| ==> height * scale * row[i] >= 120.0
  }

  /** Every tile is at least 120 wide at its scaled size. */
  ghost predicate Floored(c: Candidate) {
    forall r :: 0 <= r < |c.rows| ==> RowFloored(c.rows[r], c.heights[r], c.scale)
  }

  /** The layout's own figures for its area and its narrowest tile. */
  ghost predicate Measured(c: Candidate) {
    && c.area == Shrunk(AreaOf(c.rows, c.heights, |c.rows|), c.scale)
    && c.minW == Narrowest(c.rows, c.heights, c.scale, |c.rows|)
  }

  lemma CandidateIsMeasured(xs: seq<Aspect>, w: real, h: real, gap: real, cols: nat)
    requires cols > 0
    ensures Measured(CandidateFor(xs, w, h, gap, cols))
  {
  }

  lemma FigureIsArea(c: Candidate)
    requires Measured(c)
    ensures c.area == Area(c)
  {
    TiledIs(c.rows, c.heights, c.scale, |c.rows|);
  }

  lemma RowFlooredIff(row: seq<Aspect>, height: real, scale: real)
    ensures RowFloored(row, height, scale) <==> KeepsFloor(row, Cell(height, scale))
  {
    forall i | 0 <= i < |row| ensures height * scale * row[i] == Wide(Cell(height, scale), row[i]) {
    }
  }

  lemma FlooredIff(c: Candidate)
    requires Measured(c)
    ensures Qualifies(c) <==> Floored(c)
  {
    NarrowestIff(c.rows, c.heights, c.scale, |c.rows|);
    forall r | 0 <= r < |c.rows|
      ensures RowFloored(c.rows[r], c.heights[r], c.scale) <==> KeepsFloor(c.rows[r], Cell(c.heights[r], c.scale))
    {
      RowFlooredIff(c.rows[r], c.heights[r], c.scale);
    }
  }

  /** The area compared is that of all tiles at their scaled size, and the floor is tested on every one of them. */
  lemma FiguresAreTrue(xs: seq<Aspect>, w: real, h: real, gap: real, cols: nat)
    requires cols > 0
    ensures var c := CandidateFor(xs, w, h, gap, cols);
            c.area == Area(c) && (Qualifies(c) <==> Floored(c))
  {
    CandidateIsMeasured(xs, w, h, gap, cols);
    FigureIsArea(CandidateFor(xs, w, h, gap, cols));
    FlooredIff(CandidateFor(xs, w, h, gap, cols));
  }

  // ── The choice ────────────────────────────────────────────────────────

  /** The candidate at one index is not beaten by that at another, and not tied with an earlier one. */
  ghost predicate Beats(cs: seq<Candidate>, i: nat, j: nat)
    requires i < |cs| && j < |cs|
  {
    Area(cs[j]) <= Area(cs[i]) && (j < i ==> Area(cs[j]) < Area(cs[i]))
  }

  lemma ChosenAmong(cs: seq<Candidate>) returns (pick: nat)
    requires cs != [] && forall i :: 0 <= i < |cs| ==> Measured(cs[i])
    ensures pick < |cs| && Chosen(cs) == cs[pick]
    ensures forall j :: 0 <= j < |cs| && Floored(cs[j]) ==> Floored(cs[pick]) && Beats(cs, pick, j)
    ensures !Floored(cs[pick]) ==> forall j :: 0 <= j < |cs| ==> Beats(cs, pick, j)
  {
    var fit := BestIndex(cs, false, |cs|);
    pick := if fit < |cs| then fit else BestIndex(cs, true, |cs|);
    assert Eligible(cs[0], true);
    forall j | 0 <= j < |cs| ensures cs[j].area == Area(cs[j]) && (Qualifies(cs[j]) <==> Floored(cs[j])) {
      FigureIsArea(cs[j]);
      FlooredIff(cs[j]);
    }
    forall j | 0 <= j < |cs| && (Floored(cs[j]) || !Floored(cs[pick])) ensures Beats(cs, pick, j) {
      assert Eligible(cs[j], fit == |cs|);
    }
  }

  /**
   * Among the layouts with 1, 2, ... columns the one chosen keeps the floor if any
   * does, and its tiles cover the greatest area among those that do, or among all
   * if none does; of several with that area it has the fewest columns.
   */
  lemma ChosenCoversMost(xs: seq<Aspect>, w: real, h: real, gap: real) returns (pick: nat)
    requires xs != []
    ensures var cs := Candidates(xs, w, h, gap);
            && |cs| == |xs| && pick < |cs| && Chosen(cs) == cs[pick]
            && (forall j :: 0 <= j < |cs| && Floored(cs[j]) ==> Floored(cs[pick]) && Beats(cs, pick, j))
            && (!Floored(cs[pick]) ==> forall j :: 0 <= j < |cs| ==> Beats(cs, pick, j))
  {
    var cs := Candidates(xs, w, h, gap);
    forall i | 0 <= i < |cs| ensures Measured(cs[i]) { CandidateIsMeasured(xs, w, h, gap, i + 1); }
    pick := ChosenAmong(cs);
  }

  // ── The tiles handed out ──────────────────────────────────────────────

  /**
   * A tile at least 120 wide keeps its width but for a fraction of a pixel; a
   * narrower one is widened to 120 or to the box. Its height follows its width.
   */
  ghost predicate TileFits(t: Tile, wide: real, aspect: Aspect, w: real) {
    var full := if wide >= 120.0 then wide else if w < 120.0 then w else 120.0;
    && t.w >= 1 && t.h >= 1
    && (full >= 1.0 ==> full - 1.0 < t.w as real <= full)
    && (full < 1.0 ==> t.w == 1)
    && (t.w as real / aspect >= 1.0 ==> t.w as real / aspect - 1.0 < t.h as real <= t.w as real / aspect)
    && (t.w as real / aspect < 1.0 ==> t.h == 1)
  }

  lemma TileForFits(cell: real, aspect: Aspect, w: real)
    ensures TileFits(TileFor(cell, aspect, w), cell * aspect, aspect, w)
  {
  }

  /** How many rows there are, and how many tiles in each. */
  lemma {:induction false} RowSizes(xs: seq<Aspect>, cols: nat)
    requires xs != [] && cols > 0
    ensures var rows := RowsOf(xs, cols);
            && rows != [] && (|rows| - 1) * cols < |xs| <= |rows| * cols
            && |rows[|rows| - 1]| == |xs| - (|rows| - 1) * cols
            && forall r :: 0 <= r < |rows| - 1 ==> |rows[r]| == cols
    decreases |xs|
  {
    var rows := RowsOf(xs, cols);
    if |xs| > cols {
      var tail := RowsOf(xs[cols..], cols);
      RowSizes(xs[cols..], cols);
      assert rows == [xs[..cols]] + tail;
      assert (|tail| - 1) * cols + cols == |tail| * cols && |tail| * cols + cols == |rows| * cols;
    } else {
      assert rows == [xs];
    }
  }

  lemma {:induction false} FlattenedIsConcat(rows: seq<seq<Tile>>)
    ensures Flattened(rows) == Concat(rows)
  {
    if rows != [] {
      var n := |rows| - 1;
      FlattenedIsConcat(rows[..n]);
      ConcatOneMore(rows[..n], rows[n]);
      assert rows == rows[..n] + [rows[n]];
    }
  }

  function WidthsOf(ts: seq<Tile>): real {
    if ts == [] then 0.0 else ts[0].w as real + WidthsOf(ts[1..])
  }

  function Total(xs: seq<int>): real {
    if xs == [] then 0.0 else xs[0] as real + Total(xs[1..])
  }

  ghost predicate IsHighest(ts: seq<Tile>, x: int) {
    && (forall i :: 0 <= i < |ts| ==> ts[i].h <= x)
    && exists i :: 0 <= i < |ts| && ts[i].h == x
  }

  lemma {:induction false} WidthsAgree(ts: seq<Tile>)
    ensures Widths(ts) == WidthsOf(ts)
  {
    if ts != [] {
      var n := |ts| - 1;
      WidthsAgree(ts[..n]);
      OneMoreWidth(ts[..n], ts[n]);
      assert ts == ts[..n] + [ts[n]];
    }
  }

  lemma {:induction false} OneMoreWidth(ts: seq<Tile>, t: Tile)
    ensures WidthsOf(ts + [t]) == WidthsOf(ts) + t.w as real
  {
    if ts == [] {
      assert ([] + [t])[1..] == [];
    } else {
      OneMoreWidth(ts[1..], t);
      assert (ts + [t])[1..] == ts[1..] + [t];
    }
  }

  lemma {:induction false} OneMoreTotal(xs: seq<int>, x: int)
    ensures Total(xs + [x]) == Total(xs) + x as real
  {
    if xs == [] {
      assert ([] + [x])[1..] == [];
    } else {
      OneMoreTotal(xs[1..], x);
      assert (xs + [x])[1..] == xs[1..] + [x];
    }
  }

  lemma {:induction false} TallestIsHighest(ts: seq<Tile>)
    requires ts != [] && forall i :: 0 <= i < |ts| ==> ts[i].h >= 1
    ensures IsHighest(ts, Tallest(ts))
  {
    var n := |ts| - 1;
    if n > 0 {
      TallestIsHighest(ts[..n]);
      var i :| 0 <= i < n && ts[..n][i].h == Tallest(ts[..n]);
      assert ts[i].h == Tallest(ts[..n]);
      forall j | 0 <= j < n ensures ts[j].h <= Tallest(ts[..n]) { assert ts[..n][j] == ts[j]; }
    } else {
      assert ts[..0] == [];
    }
  }

  lemma {:induction false} HeightsAgree(rows: seq<seq<Tile>>, highs: seq<int>)
    requires |highs| == |rows| && forall r :: 0 <= r < |rows| ==> Tallest(rows[r]) == highs[r]
    ensures RowHeights(rows) == Total(highs)
  {
    if rows != [] {
      var n := |rows| - 1;
      HeightsAgree(rows[..n], highs[..n]);
      OneMoreTotal(highs[..n], highs[n]);
      assert highs == highs[..n] + [highs[n]];
    } else {
      assert highs == [];
    }
  }

  /** The rows' greatest heights. */
  function Highs(rows: seq<seq<Tile>>): (hs: seq<int>)
    ensures |hs| == |rows|
  {
    seq(|rows|, r requires 0 <= r < |rows| => Tallest(rows[r]))
  }

  /** Some row's tiles and gaps, or the rows' greatest heights and gaps, exceed the box by over half a pixel. */
  ghost predicate Overruns(rows: seq<seq<Tile>>, highs: seq<int>, w: real, h: real, gap: real) {
    || (exists r :: 0 <= r < |rows| && gap * (|rows[r]| as real - 1.0) + WidthsOf(rows[r]) > w + 0.5)
    || gap * (|rows| as real - 1.0) + Total(highs) > h + 0.5
  }

  /** These are the greatest heights of the rows. */
  ghost predicate AreHighest(rows: seq<seq<Tile>>, highs: seq<int>) {
    |highs| == |rows| && forall r :: 0 <= r < |rows| ==> IsHighest(rows[r], highs[r])
  }

  lemma HighsAreHighest(rows: seq<seq<Tile>>)
    requires forall r :: 0 <= r < |rows| ==> rows[r] != [] && forall i :: 0 <= i < |rows[r]| ==> rows[r][i].h >= 1
    ensures AreHighest(rows, Highs(rows))
  {
    forall r | 0 <= r < |rows| ensures IsHighest(rows[r], Highs(rows)[r]) { TallestIsHighest(rows[r]); }
  }

  lemma OverrunsIff(rows: seq<seq<Tile>>, w: real, h: real, gap: real)
    ensures GridOf(rows, w, h, gap).overflow <==> Overruns(rows, Highs(rows), w, h, gap)
  {
    forall r | 0 <= r < |rows| ensures RowWidth(rows[r], gap) == gap * (|rows[r]| as real - 1.0) + WidthsOf(rows[r]) {
      WidthsAgree(rows[r]);
    }
    HeightsAgree(rows, Highs(rows));
  }

  /** Tile rows that match the layout's rows, tile for tile. */
  ghost predicate TilesFit(rows: seq<seq<Tile>>, c: Candidate, w: real) {
    && |rows| == |c.rows|
    && forall r :: 0 <= r < |rows| ==>
         && |rows[r]| == |c.rows[r]|
         && forall i :: 0 <= i < |rows[r]| ==>
              TileFits(rows[r][i], c.heights[r] * c.scale * c.rows[r][i], c.rows[r][i], w)
  }

  lemma TileRowsFit(c: Candidate, w: real)
    ensures TilesFit(TileRows(c, w), c, w)
  {
    var rows := TileRows(c, w);
    forall r, i | 0 <= r < |rows| && 0 <= i < |rows[r]|
      ensures TileFits(rows[r][i], c.heights[r] * c.scale * c.rows[r][i], c.rows[r][i], w)
    {
      TileForFits(Cell(c.heights[r], c.scale), c.rows[r][i], w);
    }
  }

  lemma RowsAreHigh(rows: seq<seq<Tile>>, c: Candidate, w: real)
    requires TilesFit(rows, c, w) && forall r :: 0 <= r < |c.rows| ==> c.rows[r] != []
    ensures forall r :: 0 <= r < |rows| ==> rows[r] != [] && forall i :: 0 <= i < |rows[r]| ==> rows[r][i].h >= 1
  {
    forall r, i | 0 <= r < |rows| && 0 <= i < |rows[r]| ensures rows[r][i].h >= 1 {
      assert TileFits(rows[r][i], c.heights[r] * c.scale * c.rows[r][i], c.rows[r][i], w);
    }
  }

  /**
   * A grid's tiles are the layout's, row by row, each at its scaled size in whole
   * pixels, and it scrolls exactly when they overrun the box.
   */
  ghost predicate GridShows(grid: Grid, rows: seq<seq<Tile>>, highs: seq<int>, c: Candidate, w: real, h: real, gap: real) {
    && grid.tiles == Concat(rows) && TilesFit(rows, c, w)
    && AreHighest(rows, highs) && (grid.overflow <==> Overruns(rows, highs, w, h, gap))
  }

  lemma GridIs(c: Candidate, w: real, h: real, gap: real)
    requires forall r :: 0 <= r < |c.rows| ==> c.rows[r] != []
    ensures GridShows(GridOf(TileRows(c, w), w, h, gap), TileRows(c, w), Highs(TileRows(c, w)), c, w, h, gap)
  {
    TileRowsFit(c, w);
    RowsAreHigh(TileRows(c, w), c, w);
    HighsAreHighest(TileRows(c, w));
    FlattenedIsConcat(TileRows(c, w));
    OverrunsIff(TileRows(c, w), w, h, gap);
  }

  lemma LayoutCovers(xs: seq<Aspect>, w: real, h: real, gap: real, cols: nat)
    requires cols > 0
    ensures var c := CandidateFor(xs, w, h, gap, cols);
            Concat(c.rows) == xs && forall r :: 0 <= r < |c.rows| ==> c.rows[r] != []
  {
    RowsCover(xs, cols);
  }

  lemma ChosenCovers(xs: seq<Aspect>, w: real, h: real, gap: real, c: Candidate)
    requires xs != [] && c == Chosen(Candidates(xs, w, h, gap))
    ensures Concat(c.rows) == xs && forall r :: 0 <= r < |c.rows| ==> c.rows[r] != []
  {
    var cs := Candidates(xs, w, h, gap);
    var i :| 0 <= i < |cs| && cs[i] == c;
    LayoutCovers(xs, w, h, gap, i + 1);
  }

  /** The aspects as given, 16:9 for those that are not positive. */
  ghost predicate Aspects(xs: seq<Aspect>, aspects: seq<real>) {
    |xs| == |aspects| && forall i :: 0 <= i < |xs| ==> xs[i] == if aspects[i] > 0.0 then aspects[i] else 16.0 / 9.0
  }

  lemma SaneAspects(aspects: seq<real>)
    ensures Aspects(SaneAll(aspects), aspects)
  {
  }

  /** What is packed is the grid of the chosen layout, which holds all tiles in the order of the input. */
  lemma PackedIs(aspects: seq<real>, w: real, h: real, gap: real, c: Candidate)
    requires aspects != [] && w > 0.0 && h > 0.0 && c == Chosen(Candidates(SaneAll(aspects), w, h, gap))
    ensures GridShows(Packed(aspects, w, h, gap), TileRows(c, w), Highs(TileRows(c, w)), c, w, h, gap)
    ensures Concat(c.rows) == SaneAll(aspects) && Aspects(SaneAll(aspects), aspects)
  {
    SaneAspects(aspects);
    ChosenCovers(SaneAll(aspects), w, h, gap, c);
    GridIs(c, w, h, gap);
  }
}
