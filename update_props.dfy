/** What one update call does to the model, proved about the functions of `UpdateSpec`:
    the effect of a single pixel step on each buffer, and what the loops over rows and
    columns add up to over a whole frame. */
module UpdateProps {
  import opened ViBeSpec
  import opened UpdateSpec

  // ---------------------------------------------------------------------------
  // One pixel
  // ---------------------------------------------------------------------------

  /** The slots pixel (x, y) overwrites in its step: those its draws select when it is
      background against its samples, none when it is foreground. */
  function StepWrites(cfg: Config, m: Model, frame: seq<seq<Rgb>>, x: int, y: int, d: Draws): (ws: set<Slot>)
    requires Shaped(cfg, m) && FrameShaped(cfg, frame) && 0 <= x < cfg.width && 0 <= y < cfg.height
    requires DrawsOk(d, cfg.n, cfg.phi)
    ensures !Background(cfg, m, frame, x, y) ==> ws == {}
    ensures forall w | w in ws :: InStore(cfg, w)
  {
    if Background(cfg, m, frame, x, y) then PixelWrites(x, y, d, cfg.n, cfg.phi, cfg.width, cfg.height)
    else {}
  }

  /** A pixel step leaves every sample slot alone except the ones it writes, which take
      the pixel's current colour; a foreground pixel therefore writes no sample at all. */
  lemma PixelStepSamples(cfg: Config, m: Model, frame: seq<seq<Rgb>>, i: int, x: int, y: int, d: Draws,
                         lumaEq: (Rgb, Rgb) -> bool)
    requires Shaped(cfg, m) && FrameShaped(cfg, frame) && 0 <= x < cfg.width && 0 <= y < cfg.height
    requires DrawsOk(d, cfg.n, cfg.phi)
    ensures var m' := PixelStep(cfg, m, frame, i, x, y, d, lumaEq);
      var ws := StepWrites(cfg, m, frame, x, y, d);
      forall s | InStore(cfg, s) ::
        m'.samples[s.x][s.y][s.k] == if s in ws then frame[y][x] else m.samples[s.x][s.y][s.k]
  {
    var m1 := Refresh(cfg, m, frame, i, x, y, lumaEq);
    var bg := Background(cfg, m1, frame, x, y);
    var m2 := PutSeg(cfg, m1, x, y, SegColour(bg, cfg.onlyBackground, cfg.onlyForeground, frame[y][x], x, y));
    assert m2.samples == m.samples;
    if bg {
      ReplaceWrites(cfg, m2, x, y, d, frame[y][x]);
    }
  }

  /** Writing one slot changes that slot and no other. */
  lemma PutSampleAt(cfg: Config, m: Model, s: Slot, c: Rgb)
    requires Shaped(cfg, m) && InStore(cfg, s)
    ensures var m' := PutSample(cfg, m, s, c);
      forall t | InStore(cfg, t) :: m'.samples[t.x][t.y][t.k] == if t == s then c else m.samples[t.x][t.y][t.k]
  {
  }

  /** The model update of a background pixel writes exactly the slots its draws select. */
  lemma ReplaceWrites(cfg: Config, m: Model, x: int, y: int, d: Draws, c: Rgb)
    requires Shaped(cfg, m) && 0 <= x < cfg.width && 0 <= y < cfg.height && DrawsOk(d, cfg.n, cfg.phi)
    ensures var m' := Replace(cfg, m, x, y, d, c);
      var ws := PixelWrites(x, y, d, cfg.n, cfg.phi, cfg.width, cfg.height);
      forall t | InStore(cfg, t) :: m'.samples[t.x][t.y][t.k] == if t in ws then c else m.samples[t.x][t.y][t.k]
  {
    var m1 := if d.ownDraw == 0 then PutSample(cfg, m, Slot(x, y, d.ownSlot), c) else m;
    if d.ownDraw == 0 {
      PutSampleAt(cfg, m, Slot(x, y, d.ownSlot), c);
    }
    if d.ngbDraw == 0 {
      PutSampleAt(cfg, m1, Slot(NeighbourCoord(x, d.xPick, cfg.width, cfg.height),
                                NeighbourCoord(y, d.yPick, cfg.width, cfg.height), d.ngbSlot), c);
    }
  }

  /** A pixel step writes channels 0..2 of its own segmentation pixel with the colour its
      classification and the display flags select, and no other byte of the map. */
  lemma PixelStepSeg(cfg: Config, m: Model, frame: seq<seq<Rgb>>, i: int, x: int, y: int, d: Draws,
                     lumaEq: (Rgb, Rgb) -> bool)
    requires Shaped(cfg, m) && FrameShaped(cfg, frame) && 0 <= x < cfg.width && 0 <= y < cfg.height
    requires DrawsOk(d, cfg.n, cfg.phi)
    ensures var m' := PixelStep(cfg, m, frame, i, x, y, d, lumaEq);
      SegPixel(cfg, m', x, y) ==
        SegColour(Background(cfg, m, frame, x, y), cfg.onlyBackground, cfg.onlyForeground, frame[y][x], x, y)
    ensures var m' := PixelStep(cfg, m, frame, i, x, y, d, lumaEq);
      forall y', x', c | 0 <= y' < cfg.height && 0 <= x' < cfg.width && 0 <= c < cfg.segChannels &&
                         (x' != x || y' != y || c >= 3) ::
        m'.seg[y'][x'][c] == m.seg[y'][x'][c]
  {
    var m1 := Refresh(cfg, m, frame, i, x, y, lumaEq);
    assert m1.samples == m.samples;
  }

  /** A pixel step changes the comparison buffer only by its own refresh. */
  lemma PixelStepCompare(cfg: Config, m: Model, frame: seq<seq<Rgb>>, i: int, x: int, y: int, d: Draws,
                         lumaEq: (Rgb, Rgb) -> bool)
    requires Shaped(cfg, m) && FrameShaped(cfg, frame) && 0 <= x < cfg.width && 0 <= y < cfg.height
    requires DrawsOk(d, cfg.n, cfg.phi)
    ensures PixelStep(cfg, m, frame, i, x, y, d, lumaEq).compare == RefreshCompare(cfg, m.compare, frame, i, x, y)
  {
  }

  /** A pixel step adds one to the counter exactly when the luma test on its comparison
      slots holds. */
  lemma PixelStepCount(cfg: Config, m: Model, frame: seq<seq<Rgb>>, i: int, x: int, y: int, d: Draws,
                       lumaEq: (Rgb, Rgb) -> bool)
    requires Shaped(cfg, m) && FrameShaped(cfg, frame) && 0 <= x < cfg.width && 0 <= y < cfg.height
    requires DrawsOk(d, cfg.n, cfg.phi)
    ensures PixelStep(cfg, m, frame, i, x, y, d, lumaEq).matchCount ==
      m.matchCount + if Hit(cfg, m, frame, i, x, y, lumaEq) then 1 else 0
  {
  }

  // ---------------------------------------------------------------------------
  // Shake bookkeeping over a frame
  // ---------------------------------------------------------------------------

  /** Comparison slot s of pixel (x, y) after its refresh on frame i, in buffer `c`. */
  function Refreshed(cfg: Config, c: seq<seq<seq<Rgb>>>, frame: seq<seq<Rgb>>, i: int, x: int, y: int, s: int): (v: Rgb)
    requires Box(c, cfg.width, cfg.height, 2) && FrameShaped(cfg, frame)
    requires 0 <= x < cfg.width && 0 <= y < cfg.height && 0 <= s < 2
    ensures v == c[x][y][s] || v == frame[y][x]
    ensures !cfg.shakyCamera || i == 0 ==> v == c[x][y][s]
  {
    if RefreshedSlot(i, cfg.shakyCamera) == Some(s) then frame[y][x] else c[x][y][s]
  }

  /** The comparison buffer after the refresh of pixel (x, y) on frame i. */
  function RefreshCompare(cfg: Config, c: seq<seq<seq<Rgb>>>, frame: seq<seq<Rgb>>, i: int, x: int, y: int)
    : (c': seq<seq<seq<Rgb>>>)
    requires Box(c, cfg.width, cfg.height, 2) && FrameShaped(cfg, frame) && 0 <= x < cfg.width && 0 <= y < cfg.height
    ensures Box(c', cfg.width, cfg.height, 2)
  {
    match RefreshedSlot(i, cfg.shakyCamera)
    case None => c
    case Some(s) => c[x := c[x][y := c[x][y][s := frame[y][x]]]]
  }

  /** The comparison buffer after the refreshes of rows 0 .. y-1 of column x. */
  function RowsCompare(cfg: Config, c: seq<seq<seq<Rgb>>>, frame: seq<seq<Rgb>>, i: int, x: int, y: nat)
    : (c': seq<seq<seq<Rgb>>>)
    requires Box(c, cfg.width, cfg.height, 2) && FrameShaped(cfg, frame) && 0 <= x < cfg.width && y <= cfg.height
    ensures Box(c', cfg.width, cfg.height, 2)
  {
    if y == 0 then c else RefreshCompare(cfg, RowsCompare(cfg, c, frame, i, x, y - 1), frame, i, x, y - 1)
  }

  /** The comparison buffer after the refreshes of columns lo .. x-1. */
  function ColumnsCompare(cfg: Config, c: seq<seq<seq<Rgb>>>, frame: seq<seq<Rgb>>, i: int, lo: nat, x: nat)
    : (c': seq<seq<seq<Rgb>>>)
    requires Box(c, cfg.width, cfg.height, 2) && FrameShaped(cfg, frame) && lo <= x <= cfg.width
    ensures Box(c', cfg.width, cfg.height, 2)
    decreases x
  {
    if x == lo then c else RowsCompare(cfg, ColumnsCompare(cfg, c, frame, i, lo, x - 1), frame, i, x - 1, cfg.height)
  }

  /** Over rows 0 .. y-1 of column x exactly the comparison slots of those rows are
      refreshed: slot s of pixel (x', y') afterwards. */
  lemma {:induction false} RowsCompareAt(cfg: Config, c: seq<seq<seq<Rgb>>>, frame: seq<seq<Rgb>>, i: int, x: int,
                                         y: nat, x': int, y': int, s: int)
    requires Box(c, cfg.width, cfg.height, 2) && FrameShaped(cfg, frame) && 0 <= x < cfg.width && y <= cfg.height
    requires 0 <= x' < cfg.width && 0 <= y' < cfg.height && 0 <= s < 2
    ensures RowsCompare(cfg, c, frame, i, x, y)[x'][y'][s]
         == if x' == x && y' < y then Refreshed(cfg, c, frame, i, x', y', s) else c[x'][y'][s]
  {
    if y > 0 {
      RowsCompareAt(cfg, c, frame, i, x, y - 1, x', y', s);
      var c0 := RowsCompare(cfg, c, frame, i, x, y - 1);
      if x' == x && y' == y - 1 {
        RowsCompareAt(cfg, c, frame, i, x, y - 1, x, y - 1, s);
        assert Refreshed(cfg, c0, frame, i, x, y - 1, s) == Refreshed(cfg, c, frame, i, x, y - 1, s);
      }
    }
  }

  /** Over columns lo .. x-1 exactly the comparison slots of those columns are refreshed:
      slot s of pixel (x', y') afterwards. */
  lemma {:induction false} ColumnsCompareAt(cfg: Config, c: seq<seq<seq<Rgb>>>, frame: seq<seq<Rgb>>, i: int,
                                            lo: nat, x: nat, x': int, y': int, s: int)
    requires Box(c, cfg.width, cfg.height, 2) && FrameShaped(cfg, frame) && lo <= x <= cfg.width
    requires 0 <= x' < cfg.width && 0 <= y' < cfg.height && 0 <= s < 2
    ensures ColumnsCompare(cfg, c, frame, i, lo, x)[x'][y'][s]
         == if lo <= x' < x then Refreshed(cfg, c, frame, i, x', y', s) else c[x'][y'][s]
    decreases x
  {
    if x > lo {
      ColumnsCompareAt(cfg, c, frame, i, lo, x - 1, x', y', s);
      var c0 := ColumnsCompare(cfg, c, frame, i, lo, x - 1);
      RowsCompareAt(cfg, c0, frame, i, x - 1, cfg.height, x', y', s);
      if x' == x - 1 {
        assert Refreshed(cfg, c0, frame, i, x', y', s) == Refreshed(cfg, c, frame, i, x', y', s);
      }
    }
  }

  /** Rows 0 .. y-1 of column x change the comparison buffer by their refreshes alone. */
  lemma {:induction false} RowsRefresh(cfg: Config, m: Model, frame: seq<seq<Rgb>>, i: int, x: int, y: nat,
                                       draws: seq<seq<Draws>>, lumaEq: (Rgb, Rgb) -> bool)
    requires Shaped(cfg, m) && FrameShaped(cfg, frame) && DrawsFit(cfg, draws)
    requires 0 <= x < cfg.width && y <= cfg.height
    ensures RowsUpTo(cfg, m, frame, i, x, y, draws, lumaEq).compare == RowsCompare(cfg, m.compare, frame, i, x, y)
  {
    if y > 0 {
      RowsRefresh(cfg, m, frame, i, x, y - 1, draws, lumaEq);
      PixelStepCompare(cfg, RowsUpTo(cfg, m, frame, i, x, y - 1, draws, lumaEq), frame, i, x, y - 1,
                       draws[x][y - 1], lumaEq);
    }
  }

  /** Columns lo .. x-1 change the comparison buffer by their refreshes alone. */
  lemma {:induction false} ColumnsRefresh(cfg: Config, m: Model, frame: seq<seq<Rgb>>, i: int, lo: nat, x: nat,
                                          draws: seq<seq<Draws>>, lumaEq: (Rgb, Rgb) -> bool)
    requires Shaped(cfg, m) && FrameShaped(cfg, frame) && DrawsFit(cfg, draws) && lo <= x <= cfg.width
    ensures ColumnsUpTo(cfg, m, frame, i, lo, x, draws, lumaEq).compare
         == ColumnsCompare(cfg, m.compare, frame, i, lo, x)
    decreases x
  {
    if x > lo {
      ColumnsRefresh(cfg, m, frame, i, lo, x - 1, draws, lumaEq);
      RowsRefresh(cfg, ColumnsUpTo(cfg, m, frame, i, lo, x - 1, draws, lumaEq), frame, i, x - 1, cfg.height,
                  draws, lumaEq);
    }
  }

  /** Whether the luma test of pixel (x, y) holds on frame i, judged on the comparison
      slots the frame started with. */
  predicate Hit(cfg: Config, m: Model, frame: seq<seq<Rgb>>, i: int, x: int, y: int, lumaEq: (Rgb, Rgb) -> bool)
    requires Shaped(cfg, m) && FrameShaped(cfg, frame) && 0 <= x < cfg.width && 0 <= y < cfg.height
  {
    ShakeHit(m.compare[x][y][0], m.compare[x][y][1], frame[y][x], RefreshedSlot(i, cfg.shakyCamera), lumaEq)
  }

  /** Number of rows 0 .. y-1 of column x whose luma test holds. */
  function ColumnHits(cfg: Config, m: Model, frame: seq<seq<Rgb>>, i: int, x: int, y: nat,
                      lumaEq: (Rgb, Rgb) -> bool): (h: nat)
    requires Shaped(cfg, m) && FrameShaped(cfg, frame) && 0 <= x < cfg.width && y <= cfg.height
    ensures h <= y
  {
    if y == 0 then 0
    else ColumnHits(cfg, m, frame, i, x, y - 1, lumaEq) + if Hit(cfg, m, frame, i, x, y - 1, lumaEq) then 1 else 0
  }

  /** Number of pixels of columns lo .. x-1 whose luma test holds. */
  function Hits(cfg: Config, m: Model, frame: seq<seq<Rgb>>, i: int, lo: nat, x: nat,
                lumaEq: (Rgb, Rgb) -> bool): nat
    requires Shaped(cfg, m) && FrameShaped(cfg, frame) && lo <= x <= cfg.width
    decreases x
  {
    if x == lo then 0
    else Hits(cfg, m, frame, i, lo, x - 1, lumaEq) + ColumnHits(cfg, m, frame, i, x - 1, cfg.height, lumaEq)
  }

  /** No more pixels can match than columns lo .. x-1 hold. */
  lemma {:induction false} HitsAtMostPixels(cfg: Config, m: Model, frame: seq<seq<Rgb>>, i: int, lo: nat, x: nat,
                                            lumaEq: (Rgb, Rgb) -> bool)
    requires Shaped(cfg, m) && FrameShaped(cfg, frame) && lo <= x <= cfg.width
    ensures Hits(cfg, m, frame, i, lo, x, lumaEq) <= (x - lo) * cfg.height
    decreases x
  {
    if x > lo {
      HitsAtMostPixels(cfg, m, frame, i, lo, x - 1, lumaEq);
      assert (x - lo) * cfg.height == (x - 1 - lo) * cfg.height + cfg.height;
    }
  }

  lemma {:induction false} ColumnHitsSame(cfg: Config, m1: Model, m2: Model, frame: seq<seq<Rgb>>, i: int, x: int,
                                          y: nat, lumaEq: (Rgb, Rgb) -> bool)
    requires Shaped(cfg, m1) && Shaped(cfg, m2) && FrameShaped(cfg, frame) && 0 <= x < cfg.width && y <= cfg.height
    requires forall y', s | 0 <= y' < y && 0 <= s < 2 :: m1.compare[x][y'][s] == m2.compare[x][y'][s]
    ensures ColumnHits(cfg, m1, frame, i, x, y, lumaEq) == ColumnHits(cfg, m2, frame, i, x, y, lumaEq)
  {
    if y > 0 {
      ColumnHitsSame(cfg, m1, m2, frame, i, x, y - 1, lumaEq);
      assert m1.compare[x][y - 1][0] == m2.compare[x][y - 1][0];
      assert m1.compare[x][y - 1][1] == m2.compare[x][y - 1][1];
    }
  }

  /** Over rows 0 .. y-1 of column x the counter grows by the hits of those rows. */
  lemma {:induction false} RowsHits(cfg: Config, m: Model, frame: seq<seq<Rgb>>, i: int, x: int, y: nat,
                                    draws: seq<seq<Draws>>, lumaEq: (Rgb, Rgb) -> bool)
    requires Shaped(cfg, m) && FrameShaped(cfg, frame) && DrawsFit(cfg, draws)
    requires 0 <= x < cfg.width && y <= cfg.height
    ensures RowsUpTo(cfg, m, frame, i, x, y, draws, lumaEq).matchCount
         == m.matchCount + ColumnHits(cfg, m, frame, i, x, y, lumaEq)
  {
    if y > 0 {
      RowsHits(cfg, m, frame, i, x, y - 1, draws, lumaEq);
      RowsRefresh(cfg, m, frame, i, x, y - 1, draws, lumaEq);
      RowsCompareAt(cfg, m.compare, frame, i, x, y - 1, x, y - 1, 0);
      RowsCompareAt(cfg, m.compare, frame, i, x, y - 1, x, y - 1, 1);
      var r0 := RowsUpTo(cfg, m, frame, i, x, y - 1, draws, lumaEq);
      PixelStepCount(cfg, r0, frame, i, x, y - 1, draws[x][y - 1], lumaEq);
      assert Hit(cfg, r0, frame, i, x, y - 1, lumaEq) == Hit(cfg, m, frame, i, x, y - 1, lumaEq);
    }
  }

  /** Columns lo .. x-1 leave the comparison slots of column x alone, so its luma tests
      come out as they would have at the start of the frame. */
  lemma ColumnHitsAhead(cfg: Config, m: Model, frame: seq<seq<Rgb>>, i: int, lo: nat, x: nat,
                        draws: seq<seq<Draws>>, lumaEq: (Rgb, Rgb) -> bool)
    requires Shaped(cfg, m) && FrameShaped(cfg, frame) && DrawsFit(cfg, draws) && lo <= x < cfg.width
    ensures ColumnHits(cfg, ColumnsUpTo(cfg, m, frame, i, lo, x, draws, lumaEq), frame, i, x, cfg.height, lumaEq)
         == ColumnHits(cfg, m, frame, i, x, cfg.height, lumaEq)
  {
    ColumnsRefresh(cfg, m, frame, i, lo, x, draws, lumaEq);
    var c0 := ColumnsUpTo(cfg, m, frame, i, lo, x, draws, lumaEq);
    forall y', s | 0 <= y' < cfg.height && 0 <= s < 2
      ensures c0.compare[x][y'][s] == m.compare[x][y'][s]
    {
      ColumnsCompareAt(cfg, m.compare, frame, i, lo, x, x, y', s);
    }
    ColumnHitsSame(cfg, c0, m, frame, i, x, cfg.height, lumaEq);
  }

  /** Over columns lo .. x-1 the counter grows by the hits of those columns. */
  lemma {:induction false} ColumnsHits(cfg: Config, m: Model, frame: seq<seq<Rgb>>, i: int, lo: nat, x: nat,
                                       draws: seq<seq<Draws>>, lumaEq: (Rgb, Rgb) -> bool)
    requires Shaped(cfg, m) && FrameShaped(cfg, frame) && DrawsFit(cfg, draws) && lo <= x <= cfg.width
    ensures ColumnsUpTo(cfg, m, frame, i, lo, x, draws, lumaEq).matchCount
         == m.matchCount + Hits(cfg, m, frame, i, lo, x, lumaEq)
    decreases x
  {
    if x > lo {
      ColumnsHits(cfg, m, frame, i, lo, x - 1, draws, lumaEq);
      var c0 := ColumnsUpTo(cfg, m, frame, i, lo, x - 1, draws, lumaEq);
      RowsHits(cfg, c0, frame, i, x - 1, cfg.height, draws, lumaEq);
      ColumnHitsAhead(cfg, m, frame, i, lo, x - 1, draws, lumaEq);
      assert ColumnsUpTo(cfg, m, frame, i, lo, x, draws, lumaEq)
          == RowsUpTo(cfg, c0, frame, i, x - 1, cfg.height, draws, lumaEq);
      assert Hits(cfg, m, frame, i, lo, x, lumaEq)
          == Hits(cfg, m, frame, i, lo, x - 1, lumaEq) + ColumnHits(cfg, m, frame, i, x - 1, cfg.height, lumaEq);
    }
  }

  // ---------------------------------------------------------------------------
  // Where the samples come from
  // ---------------------------------------------------------------------------

  /** Colour `c` appears in the frame at a pixel of the 3x3 neighbourhood of slot `s`'s pixel. */
  ghost predicate Near(cfg: Config, frame: seq<seq<Rgb>>, s: Slot, c: Rgb)
    requires FrameShaped(cfg, frame)
  {
    exists px, py | 0 <= px < cfg.width && 0 <= py < cfg.height && -1 <= px - s.x <= 1 && -1 <= py - s.y <= 1 ::
      frame[py][px] == c
  }

  /** Every slot of `m` either still holds what it held in `m0`, or holds a colour of the
      frame taken from its pixel's neighbourhood, and then is not the last slot of its
      pixel unless the pixel has a single slot. */
  ghost predicate Absorbed(cfg: Config, m0: Model, m: Model, frame: seq<seq<Rgb>>)
  {
    Shaped(cfg, m0) && Shaped(cfg, m) && FrameShaped(cfg, frame) &&
    forall s | InStore(cfg, s) ::
      m.samples[s.x][s.y][s.k] == m0.samples[s.x][s.y][s.k] ||
      ((cfg.n < 2 || s.k < cfg.n - 1) && Near(cfg, frame, s, m.samples[s.x][s.y][s.k]))
  }

  /** A pixel's own colour is near every slot of the pixel and of its neighbours. */
  lemma NearPixel(cfg: Config, frame: seq<seq<Rgb>>, s: Slot, x: int, y: int)
    requires FrameShaped(cfg, frame) && 0 <= x < cfg.width && 0 <= y < cfg.height
    requires -1 <= x - s.x <= 1 && -1 <= y - s.y <= 1
    ensures Near(cfg, frame, s, frame[y][x])
  {
  }

  /** A pixel step keeps the samples absorbed: what it writes is the pixel's own colour,
      into a slot of the pixel or of an adjacent one, and into a last slot only when the
      pixel has a single slot. */
  lemma AbsorbedStep(cfg: Config, m0: Model, m: Model, frame: seq<seq<Rgb>>, i: int, x: int, y: int, d: Draws,
                     lumaEq: (Rgb, Rgb) -> bool)
    requires Shaped(cfg, m0) && Shaped(cfg, m) && FrameShaped(cfg, frame)
    requires 0 <= x < cfg.width && 0 <= y < cfg.height && DrawsOk(d, cfg.n, cfg.phi)
    requires Absorbed(cfg, m0, m, frame)
    ensures Absorbed(cfg, m0, PixelStep(cfg, m, frame, i, x, y, d, lumaEq), frame)
  {
    var m' := PixelStep(cfg, m, frame, i, x, y, d, lumaEq);
    var ws := StepWrites(cfg, m, frame, x, y, d);
    PixelStepSamples(cfg, m, frame, i, x, y, d, lumaEq);
    PixelWritesShape(x, y, d, cfg.n, cfg.phi, cfg.width, cfg.height);
    assert ws <= PixelWrites(x, y, d, cfg.n, cfg.phi, cfg.width, cfg.height);
    forall s | InStore(cfg, s)
      ensures m'.samples[s.x][s.y][s.k] == m0.samples[s.x][s.y][s.k] ||
              ((cfg.n < 2 || s.k < cfg.n - 1) && Near(cfg, frame, s, m'.samples[s.x][s.y][s.k]))
    {
      if s in ws {
        assert m'.samples[s.x][s.y][s.k] == frame[y][x];
        NearPixel(cfg, frame, s, x, y);
      } else {
        assert m'.samples[s.x][s.y][s.k] == m.samples[s.x][s.y][s.k];
      }
    }
  }

  lemma {:induction false} AbsorbedRows(cfg: Config, m0: Model, m: Model, frame: seq<seq<Rgb>>, i: int, x: int, y: nat,
                                        draws: seq<seq<Draws>>, lumaEq: (Rgb, Rgb) -> bool)
    requires Shaped(cfg, m0) && Shaped(cfg, m) && FrameShaped(cfg, frame) && DrawsFit(cfg, draws)
    requires 0 <= x < cfg.width && y <= cfg.height
    requires Absorbed(cfg, m0, m, frame)
    ensures Absorbed(cfg, m0, RowsUpTo(cfg, m, frame, i, x, y, draws, lumaEq), frame)
  {
    if y > 0 {
      AbsorbedRows(cfg, m0, m, frame, i, x, y - 1, draws, lumaEq);
      AbsorbedStep(cfg, m0, RowsUpTo(cfg, m, frame, i, x, y - 1, draws, lumaEq), frame, i, x, y - 1,
                   draws[x][y - 1], lumaEq);
    }
  }

  lemma {:induction false} AbsorbedColumns(cfg: Config, m0: Model, m: Model, frame: seq<seq<Rgb>>, i: int,
                                           lo: nat, x: nat, draws: seq<seq<Draws>>, lumaEq: (Rgb, Rgb) -> bool)
    requires Shaped(cfg, m0) && Shaped(cfg, m) && FrameShaped(cfg, frame) && DrawsFit(cfg, draws)
    requires lo <= x <= cfg.width
    requires Absorbed(cfg, m0, m, frame)
    ensures Absorbed(cfg, m0, ColumnsUpTo(cfg, m, frame, i, lo, x, draws, lumaEq), frame)
    decreases x
  {
    if x > lo {
      AbsorbedColumns(cfg, m0, m, frame, i, lo, x - 1, draws, lumaEq);
      var c0 := ColumnsUpTo(cfg, m, frame, i, lo, x - 1, draws, lumaEq);
      AbsorbedRows(cfg, m0, c0, frame, i, x - 1, cfg.height, draws, lumaEq);
      assert ColumnsUpTo(cfg, m, frame, i, lo, x, draws, lumaEq)
          == RowsUpTo(cfg, c0, frame, i, x - 1, cfg.height, draws, lumaEq);
    }
  }

  // ---------------------------------------------------------------------------
  // Initialisation and a whole update call
  // ---------------------------------------------------------------------------

  /** Initialisation sets every slot of every pixel to the pixel's colour and, in
      shaky-camera mode with at least one slot, comparison slot 0 too; comparison slot 1,
      the segmentation map and the counter are left alone. */
  lemma InitModelFills(cfg: Config, m: Model, frame: seq<seq<Rgb>>)
    requires Shaped(cfg, m) && FrameShaped(cfg, frame)
    ensures var m' := InitModel(cfg, m, frame);
      (forall s | InStore(cfg, s) :: m'.samples[s.x][s.y][s.k] == frame[s.y][s.x]) &&
      (forall x, y, c | 0 <= x < cfg.width && 0 <= y < cfg.height && 0 <= c < 2 ::
         m'.compare[x][y][c] == if c == 0 && cfg.shakyCamera && cfg.n > 0 then frame[y][x] else m.compare[x][y][c]) &&
      m'.seg == m.seg && m'.matchCount == m.matchCount
  {
  }

  /** Whether an update call on frame i ends with a reinitialisation: in shaky-camera
      mode, the counter the call starts with plus the pixels whose luma test holds are
      fewer than `pct` of all pixels. */
  predicate Reinitialises(cfg: Config, m: Model, frame: seq<seq<Rgb>>, i: int, lumaEq: (Rgb, Rgb) -> bool)
    requires Shaped(cfg, m) && FrameShaped(cfg, frame)
  {
    ReinitTriggered(m.matchCount + Hits(cfg, m, frame, i, 0, cfg.width, lumaEq),
                    cfg.width * cfg.height, cfg.pct, cfg.shakyCamera)
  }

  /** The pass over all columns of a frame counts exactly the pixels whose luma test holds and
      refreshes the comparison slot of the frame's parity in every pixel. */
  lemma PassShake(cfg: Config, m: Model, frame: seq<seq<Rgb>>, i: int, draws: seq<seq<Draws>>,
                     lumaEq: (Rgb, Rgb) -> bool)
    requires Shaped(cfg, m) && FrameShaped(cfg, frame) && DrawsFit(cfg, draws)
    ensures var m1 := ColumnsUpTo(cfg, m, frame, i, 0, cfg.width, draws, lumaEq);
      m1.matchCount == m.matchCount + Hits(cfg, m, frame, i, 0, cfg.width, lumaEq) &&
      forall x, y, c | 0 <= x < cfg.width && 0 <= y < cfg.height && 0 <= c < 2 ::
        m1.compare[x][y][c] == Refreshed(cfg, m.compare, frame, i, x, y, c)
  {
    ColumnsHits(cfg, m, frame, i, 0, cfg.width, draws, lumaEq);
    ColumnsRefresh(cfg, m, frame, i, 0, cfg.width, draws, lumaEq);
    forall x, y, c | 0 <= x < cfg.width && 0 <= y < cfg.height && 0 <= c < 2 {
      ColumnsCompareAt(cfg, m.compare, frame, i, 0, cfg.width, x, y, c);
    }
  }

  /** After an update call the counter is 0 and every pixel's comparison slot of the
      frame's parity holds its current colour, except that a reinitialisation also seeds
      slot 0 with it. */
  lemma FrameUpdateShake(cfg: Config, m: Model, frame: seq<seq<Rgb>>, i: int, draws: seq<seq<Draws>>,
                         lumaEq: (Rgb, Rgb) -> bool)
    requires Shaped(cfg, m) && FrameShaped(cfg, frame) && DrawsFit(cfg, draws)
    ensures var m' := FrameUpdate(cfg, m, frame, i, draws, lumaEq);
      m'.matchCount == 0 &&
      forall x, y, c | 0 <= x < cfg.width && 0 <= y < cfg.height && 0 <= c < 2 ::
        m'.compare[x][y][c] ==
          if Reinitialises(cfg, m, frame, i, lumaEq) && c == 0 && cfg.n > 0 then frame[y][x]
          else Refreshed(cfg, m.compare, frame, i, x, y, c)
  {
    var m1 := ColumnsUpTo(cfg, m, frame, i, 0, cfg.width, draws, lumaEq);
    var m' := FrameUpdate(cfg, m, frame, i, draws, lumaEq);
    PassShake(cfg, m, frame, i, draws, lumaEq);
    InitModelFills(cfg, m1, frame);
    var reinit := Reinitialises(cfg, m, frame, i, lumaEq);
    assert m'.compare == if reinit then InitModel(cfg, m1, frame).compare else m1.compare;
    forall x, y, c | 0 <= x < cfg.width && 0 <= y < cfg.height && 0 <= c < 2
      ensures m'.compare[x][y][c] ==
                if reinit && c == 0 && cfg.n > 0 then frame[y][x] else Refreshed(cfg, m.compare, frame, i, x, y, c)
    {
      assert m1.compare[x][y][c] == Refreshed(cfg, m.compare, frame, i, x, y, c);
    }
  }

  /** An update call that reinitialises leaves every sample equal to its pixel's colour. */
  lemma FrameUpdateReinit(cfg: Config, m: Model, frame: seq<seq<Rgb>>, i: int, draws: seq<seq<Draws>>,
                          lumaEq: (Rgb, Rgb) -> bool)
    requires Shaped(cfg, m) && FrameShaped(cfg, frame) && DrawsFit(cfg, draws)
    requires Reinitialises(cfg, m, frame, i, lumaEq)
    ensures var m' := FrameUpdate(cfg, m, frame, i, draws, lumaEq);
      forall s | InStore(cfg, s) :: m'.samples[s.x][s.y][s.k] == frame[s.y][s.x]
  {
    var m1 := ColumnsUpTo(cfg, m, frame, i, 0, cfg.width, draws, lumaEq);
    PassShake(cfg, m, frame, i, draws, lumaEq);
    InitModelFills(cfg, m1, frame);
  }

  /** An update call that does not reinitialise changes a sample only to a colour of the
      current frame from the sample's pixel's neighbourhood, and never changes the last
      slot of a pixel that has at least two. */
  lemma FrameUpdateAbsorbs(cfg: Config, m: Model, frame: seq<seq<Rgb>>, i: int, draws: seq<seq<Draws>>,
                           lumaEq: (Rgb, Rgb) -> bool)
    requires Shaped(cfg, m) && FrameShaped(cfg, frame) && DrawsFit(cfg, draws)
    requires !Reinitialises(cfg, m, frame, i, lumaEq)
    ensures Absorbed(cfg, m, FrameUpdate(cfg, m, frame, i, draws, lumaEq), frame)
  {
    var m1 := ColumnsUpTo(cfg, m, frame, i, 0, cfg.width, draws, lumaEq);
    PassShake(cfg, m, frame, i, draws, lumaEq);
    AbsorbedColumns(cfg, m, m, frame, i, 0, cfg.width, draws, lumaEq);
    assert FrameUpdate(cfg, m, frame, i, draws, lumaEq).samples == m1.samples;
  }

  // ---------------------------------------------------------------------------
  // A still scene, and diffusion into foreground pixels
  // ---------------------------------------------------------------------------

  /** On a positive frame in shaky-camera mode, with a luma test that holds between equal
      colours, every row of column x whose comparison slot of the other parity already
      holds its current colour counts. */
  lemma {:induction false} StillColumnHits(cfg: Config, m: Model, frame: seq<seq<Rgb>>, i: int, x: int, y: nat,
                                           lumaEq: (Rgb, Rgb) -> bool)
    requires Shaped(cfg, m) && FrameShaped(cfg, frame) && 0 <= x < cfg.width && y <= cfg.height
    requires cfg.shakyCamera && i > 0 && forall c :: lumaEq(c, c)
    requires forall y' | 0 <= y' < cfg.height :: m.compare[x][y'][1 - i % 2] == frame[y'][x]
    ensures ColumnHits(cfg, m, frame, i, x, y, lumaEq) == y
  {
    if y > 0 {
      StillColumnHits(cfg, m, frame, i, x, y - 1, lumaEq);
      assert m.compare[x][y - 1][1 - i % 2] == frame[y - 1][x];
      assert Hit(cfg, m, frame, i, x, y - 1, lumaEq);
    }
  }

  /** The same over columns lo .. x-1: every one of their pixels counts. */
  lemma {:induction false} StillHits(cfg: Config, m: Model, frame: seq<seq<Rgb>>, i: int, lo: nat, x: nat,
                                     lumaEq: (Rgb, Rgb) -> bool)
    requires Shaped(cfg, m) && FrameShaped(cfg, frame) && lo <= x <= cfg.width
    requires cfg.shakyCamera && i > 0 && forall c :: lumaEq(c, c)
    requires forall x', y' | 0 <= x' < cfg.width && 0 <= y' < cfg.height ::
               m.compare[x'][y'][1 - i % 2] == frame[y'][x']
    ensures Hits(cfg, m, frame, i, lo, x, lumaEq) == (x - lo) * cfg.height
    decreases x
  {
    if x > lo {
      StillHits(cfg, m, frame, i, lo, x - 1, lumaEq);
      StillColumnHits(cfg, m, frame, i, x - 1, cfg.height, lumaEq);
      assert (x - lo) * cfg.height == (x - 1 - lo) * cfg.height + cfg.height;
    }
  }

  /** An update call on a positive frame whose comparison slot of the other parity already
      holds the current frame in every pixel never reinitialises while `pct <= 1`: every
      pixel counts, so the ratio is at least 1. */
  lemma StillFrameNoReinit(cfg: Config, m: Model, frame: seq<seq<Rgb>>, i: int, lumaEq: (Rgb, Rgb) -> bool)
    requires Shaped(cfg, m) && FrameShaped(cfg, frame)
    requires i > 0 && cfg.pct <= 1.0 && forall c :: lumaEq(c, c)
    requires forall x, y | 0 <= x < cfg.width && 0 <= y < cfg.height :: m.compare[x][y][1 - i % 2] == frame[y][x]
    ensures !Reinitialises(cfg, m, frame, i, lumaEq)
  {
    var pixels := cfg.width * cfg.height;
    if cfg.shakyCamera && pixels > 0 {
      StillHits(cfg, m, frame, i, 0, cfg.width, lumaEq);
      ReinitMeansFewMatches(m.matchCount + pixels, pixels, cfg.pct);
      assert cfg.pct * (pixels as real) <= pixels as real;
    }
  }

  /** A still scene settles: after one update call on a positive frame, the call on the
      next frame with the same picture does not reinitialise, whatever the model held
      before, as long as `pct <= 1` (the engine's default is 0.125). */
  lemma StillSceneSettles(cfg: Config, m: Model, frame: seq<seq<Rgb>>, i: int, draws: seq<seq<Draws>>,
                          lumaEq: (Rgb, Rgb) -> bool)
    requires Shaped(cfg, m) && FrameShaped(cfg, frame) && DrawsFit(cfg, draws)
    requires i > 0 && cfg.pct <= 1.0 && forall c :: lumaEq(c, c)
    ensures !Reinitialises(cfg, FrameUpdate(cfg, m, frame, i, draws, lumaEq), frame, i + 1, lumaEq)
  {
    var m' := FrameUpdate(cfg, m, frame, i, draws, lumaEq);
    if cfg.shakyCamera {
      FrameUpdateShake(cfg, m, frame, i, draws, lumaEq);
      assert RefreshedSlot(i, true) == Some(i % 2);
      forall x, y | 0 <= x < cfg.width && 0 <= y < cfg.height
        ensures m'.compare[x][y][1 - (i + 1) % 2] == frame[y][x]
      {
        assert 1 - (i + 1) % 2 == i % 2;
      }
      StillFrameNoReinit(cfg, m', frame, i + 1, lumaEq);
    }
  }

  /** A 3x3 scene with two samples per pixel: pixel (0, 0) shows black against samples of
      light grey, every other pixel shows mid grey and holds samples of it. */
  const DiffusionCfg := Config(2, 1, 1, 3, 3, 3, 3, false, false, false, 0.0)

  function DiffusionModel(): Model {
    Model(seq(3, x => seq(3, y => if x == 0 && y == 0 then [Rgb(200, 200, 200), Rgb(200, 200, 200)]
                                   else [Rgb(100, 100, 100), Rgb(100, 100, 100)])),
          seq(3, y => seq(3, x => [0, 0, 0])),
          seq(3, x => seq(3, y => [Rgb(0, 0, 0), Rgb(0, 0, 0)])), 0)
  }

  function DiffusionFrame(): seq<seq<Rgb>> {
    seq(3, y => seq(3, x => if x == 0 && y == 0 then Rgb(0, 0, 0) else Rgb(100, 100, 100)))
  }

  /** The random update of a background pixel may write into a neighbour that is itself
      foreground: in the scene above pixel (1, 1) is background, pixel (0, 0) is not, and
      the step of pixel (1, 1), with its neighbour draw 0 and the neighbour picks pointing
      up and left, overwrites slot 0 of pixel (0, 0). So a foreground pixel's samples are
      not frozen over an update call; `FrameUpdateAbsorbs` bounds what they can become. */
  lemma ForegroundSampleDiffused(i: int, lumaEq: (Rgb, Rgb) -> bool)
    ensures var cfg, m, frame, d := DiffusionCfg, DiffusionModel(), DiffusionFrame(), Draws(1, 0, 0, 0, 0, 0);
      Shaped(cfg, m) && FrameShaped(cfg, frame) && DrawsOk(d, cfg.n, cfg.phi) &&
      !Background(cfg, m, frame, 0, 0) && Background(cfg, m, frame, 1, 1) &&
      PixelStep(cfg, m, frame, i, 1, 1, d, lumaEq).samples[0][0][0] == frame[1][1] != m.samples[0][0][0]
  {
    var cfg, m, frame, d := DiffusionCfg, DiffusionModel(), DiffusionFrame(), Draws(1, 0, 0, 0, 0, 0);
    var grey, light := Rgb(100, 100, 100), Rgb(200, 200, 200);
    assert Shaped(cfg, m);
    assert FrameShaped(cfg, frame);
    assert DrawsOk(d, cfg.n, cfg.phi);
    assert m.samples[0][0] == [light, light] && frame[0][0] == Rgb(0, 0, 0);
    assert [light, light][..1] == [light];
    assert MatchCount(Rgb(0, 0, 0), [light, light], cfg.r) == 0;
    assert m.samples[1][1] == [grey, grey] && frame[1][1] == grey;
    assert [grey, grey][..1] == [grey];
    assert MatchCount(grey, [grey, grey], cfg.r) == 2;
    assert Background(cfg, m, frame, 1, 1);
    assert NeighbourCoord(1, 0, 3, 3) == 0;
    assert Slot(0, 0, 0) in StepWrites(cfg, m, frame, 1, 1, d);
    PixelStepSamples(cfg, m, frame, i, 1, 1, d, lumaEq);
    assert InStore(cfg, Slot(0, 0, 0));
  }
}
