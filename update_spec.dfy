/** The per-frame work of the engine as pure functions over a snapshot of its buffers.
    Each function mirrors one loop level of the engine: a pixel, the rows of one column,
    a range of columns, the whole frame with the
    reinitialisation tail, and the model initialisation. The methods of the engine are
    proved to produce exactly these values. */
module UpdateSpec {
  import opened ViBeSpec

  /** The engine's settings; `segChannels` is the channel count of the segmentation
      buffer (4 for RGBA). */
  datatype Config = Config(n: nat, r: int, bgMMin: int, phi: int, width: nat, height: nat,
                           segChannels: nat, shakyCamera: bool,
                           onlyBackground: bool, onlyForeground: bool, pct: real)

  /** The mutable buffers as values: samples `[x][y][slot]`, segmentation bytes
      `[y][x][channel]`, comparison colours `[x][y][slot]`, and the luma match counter. */
  datatype Model = Model(samples: seq<seq<seq<Rgb>>>, seg: seq<seq<seq<byte>>>,
                         compare: seq<seq<seq<Rgb>>>, matchCount: nat)

  predicate Box<T>(s: seq<seq<seq<T>>>, a: nat, b: nat, c: nat) {
    |s| == a && (forall i | 0 <= i < a :: |s[i]| == b) &&
    (forall i, j | 0 <= i < a && 0 <= j < b :: |s[i][j]| == c)
  }

  /** Two boxes of the same shape with the same elements are equal. */
  lemma BoxExt<T>(a: seq<seq<seq<T>>>, b: seq<seq<seq<T>>>, p: nat, q: nat, r: nat)
    requires Box(a, p, q, r) && Box(b, p, q, r)
    requires forall i, j, k | 0 <= i < p && 0 <= j < q && 0 <= k < r :: a[i][j][k] == b[i][j][k]
    ensures a == b
  {
    forall i | 0 <= i < p
      ensures a[i] == b[i]
    {
      forall j | 0 <= j < q
        ensures a[i][j] == b[i][j]
      {
        assert forall k | 0 <= k < r :: a[i][j][k] == b[i][j][k];
      }
    }
  }

  predicate Shaped(cfg: Config, m: Model) {
    Box(m.samples, cfg.width, cfg.height, cfg.n) &&
    Box(m.seg, cfg.height, cfg.width, cfg.segChannels) && cfg.segChannels >= 3 &&
    Box(m.compare, cfg.width, cfg.height, 2)
  }

  /** A frame of colours, indexed `[y][x]`. */
  predicate FrameShaped(cfg: Config, frame: seq<seq<Rgb>>) {
    |frame| == cfg.height && forall y | 0 <= y < cfg.height :: |frame[y]| == cfg.width
  }

  /** One record of draws per pixel, indexed `[x][y]`, each in its range. */
  predicate DrawsFit(cfg: Config, draws: seq<seq<Draws>>) {
    |draws| == cfg.width &&
    (forall x | 0 <= x < cfg.width :: |draws[x]| == cfg.height) &&
    (forall x, y | 0 <= x < cfg.width && 0 <= y < cfg.height :: DrawsOk(draws[x][y], cfg.n, cfg.phi))
  }

  /** Draws for a whole frame exist exactly when the frame is empty or the draw ranges of
      `phi` and `n` admit a value. */
  lemma DrawsFitPossible(cfg: Config)
    ensures (exists draws :: DrawsFit(cfg, draws)) <==>
            cfg.width == 0 || cfg.height == 0 || (cfg.phi >= 1 && (cfg.phi >= 3 || cfg.n >= 1))
  {
    forall draws | DrawsFit(cfg, draws)
      ensures cfg.width == 0 || cfg.height == 0 || (cfg.phi >= 1 && (cfg.phi >= 3 || cfg.n >= 1))
    {
      if cfg.width > 0 && cfg.height > 0 {
        assert DrawsOk(draws[0][0], cfg.n, cfg.phi);
        DrawsPossible(cfg.n, cfg.phi);
      }
    }
    if cfg.width == 0 || cfg.height == 0 || (cfg.phi >= 1 && (cfg.phi >= 3 || cfg.n >= 1)) {
      var d := if cfg.n >= 1 then Draws(0, 0, 0, 0, 0, 0) else Draws(1, 0, 1, 0, 0, 0);
      var draws := seq(cfg.width, _ => seq(cfg.height, _ => d));
      assert DrawsFit(cfg, draws);
    }
  }

  predicate InStore(cfg: Config, s: Slot) {
    0 <= s.x < cfg.width && 0 <= s.y < cfg.height && 0 <= s.k < cfg.n
  }

  // ---------------------------------------------------------------------------
  // Single writes
  // ---------------------------------------------------------------------------

  function PutSample(cfg: Config, m: Model, s: Slot, c: Rgb): (m': Model)
    requires Shaped(cfg, m) && InStore(cfg, s)
  {
    m.(samples := m.samples[s.x := m.samples[s.x][s.y := m.samples[s.x][s.y][s.k := c]]])
  }

  /** Channels 0..2 of segmentation pixel (x, y). */
  function SegPixel(cfg: Config, m: Model, x: int, y: int): Rgb
    requires Shaped(cfg, m) && 0 <= x < cfg.width && 0 <= y < cfg.height
  {
    Rgb(m.seg[y][x][0], m.seg[y][x][1], m.seg[y][x][2])
  }

  function PutSeg(cfg: Config, m: Model, x: int, y: int, c: Rgb): (m': Model)
    requires Shaped(cfg, m) && 0 <= x < cfg.width && 0 <= y < cfg.height
  {
    m.(seg := m.seg[y := m.seg[y][x := m.seg[y][x][0 := c.c0][1 := c.c1][2 := c.c2]]])
  }

  function PutCompare(cfg: Config, m: Model, x: int, y: int, s: int, c: Rgb): (m': Model)
    requires Shaped(cfg, m) && 0 <= x < cfg.width && 0 <= y < cfg.height && 0 <= s < 2
  {
    m.(compare := m.compare[x := m.compare[x][y := m.compare[x][y][s := c]]])
  }

  // ---------------------------------------------------------------------------
  // One pixel of an update
  // ---------------------------------------------------------------------------

  /** Shake bookkeeping of pixel (x, y) on frame i: the comparison slot of the frame's
      parity takes the current colour, and the counter goes up when the luma test holds. */
  function Refresh(cfg: Config, m: Model, frame: seq<seq<Rgb>>, i: int, x: int, y: int,
                   lumaEq: (Rgb, Rgb) -> bool): (m': Model)
    requires Shaped(cfg, m) && FrameShaped(cfg, frame) && 0 <= x < cfg.width && 0 <= y < cfg.height
  {
    var slot := RefreshedSlot(i, cfg.shakyCamera);
    var hit := ShakeHit(m.compare[x][y][0], m.compare[x][y][1], frame[y][x], slot, lumaEq);
    var m1 := if slot.Some? then PutCompare(cfg, m, x, y, slot.value, frame[y][x]) else m;
    m1.(matchCount := m.matchCount + if hit then 1 else 0)
  }

  /** The random model update of a background pixel (x, y) of colour `c`: its own slot,
      then a slot of the clamped neighbour, each only when its draw is 0. */
  function Replace(cfg: Config, m: Model, x: int, y: int, d: Draws, c: Rgb): (m': Model)
    requires Shaped(cfg, m) && 0 <= x < cfg.width && 0 <= y < cfg.height && DrawsOk(d, cfg.n, cfg.phi)
  {
    var m1 := if d.ownDraw == 0 then PutSample(cfg, m, Slot(x, y, d.ownSlot), c) else m;
    if d.ngbDraw == 0 then
      PutSample(cfg, m1, Slot(NeighbourCoord(x, d.xPick, cfg.width, cfg.height),
                              NeighbourCoord(y, d.yPick, cfg.width, cfg.height), d.ngbSlot), c)
    else m1
  }

  /** Whether pixel (x, y) is background against its samples in `m`. */
  predicate Background(cfg: Config, m: Model, frame: seq<seq<Rgb>>, x: int, y: int)
    requires Shaped(cfg, m) && FrameShaped(cfg, frame) && 0 <= x < cfg.width && 0 <= y < cfg.height
  {
    IsBackground(frame[y][x], m.samples[x][y], cfg.r, cfg.bgMMin)
  }

  /** Everything done for pixel (x, y) on frame i with draws d. */
  function PixelStep(cfg: Config, m: Model, frame: seq<seq<Rgb>>, i: int, x: int, y: int, d: Draws,
                     lumaEq: (Rgb, Rgb) -> bool): (m': Model)
    requires Shaped(cfg, m) && FrameShaped(cfg, frame) && 0 <= x < cfg.width && 0 <= y < cfg.height
    requires DrawsOk(d, cfg.n, cfg.phi)
    ensures Shaped(cfg, m')
  {
    var m1 := Refresh(cfg, m, frame, i, x, y, lumaEq);
    var bg := Background(cfg, m1, frame, x, y);
    var m2 := PutSeg(cfg, m1, x, y, SegColour(bg, cfg.onlyBackground, cfg.onlyForeground, frame[y][x], x, y));
    if bg then Replace(cfg, m2, x, y, d, frame[y][x]) else m2
  }

  // ---------------------------------------------------------------------------
  // The loops of an update
  // ---------------------------------------------------------------------------

  /** Rows 0 .. y-1 of column x, in order. */
  function RowsUpTo(cfg: Config, m: Model, frame: seq<seq<Rgb>>, i: int, x: int, y: nat,
                    draws: seq<seq<Draws>>, lumaEq: (Rgb, Rgb) -> bool): (m': Model)
    requires Shaped(cfg, m) && FrameShaped(cfg, frame) && DrawsFit(cfg, draws)
    requires 0 <= x < cfg.width && y <= cfg.height
    ensures Shaped(cfg, m')
  {
    if y == 0 then m
    else PixelStep(cfg, RowsUpTo(cfg, m, frame, i, x, y - 1, draws, lumaEq), frame, i, x, y - 1,
                   draws[x][y - 1], lumaEq)
  }

  /** Whole columns lo .. x-1, in order. */
  function ColumnsUpTo(cfg: Config, m: Model, frame: seq<seq<Rgb>>, i: int, lo: nat, x: nat,
                       draws: seq<seq<Draws>>, lumaEq: (Rgb, Rgb) -> bool): (m': Model)
    requires Shaped(cfg, m) && FrameShaped(cfg, frame) && DrawsFit(cfg, draws)
    requires lo <= x <= cfg.width
    ensures Shaped(cfg, m')
    decreases x
  {
    if x == lo then m
    else RowsUpTo(cfg, ColumnsUpTo(cfg, m, frame, i, lo, x - 1, draws, lumaEq), frame, i, x - 1,
                  cfg.height, draws, lumaEq)
  }

  /** Running columns [a, b) and then [b, c) is running columns [a, c): the workers'
      column ranges, run one after another, add up to one left-to-right pass. */
  lemma {:induction false} ColumnsSplit(cfg: Config, m: Model, frame: seq<seq<Rgb>>, i: int, a: nat, b: nat, c: nat,
                                        draws: seq<seq<Draws>>, lumaEq: (Rgb, Rgb) -> bool)
    requires Shaped(cfg, m) && FrameShaped(cfg, frame) && DrawsFit(cfg, draws) && a <= b <= c <= cfg.width
    ensures ColumnsUpTo(cfg, ColumnsUpTo(cfg, m, frame, i, a, b, draws, lumaEq), frame, i, b, c, draws, lumaEq)
         == ColumnsUpTo(cfg, m, frame, i, a, c, draws, lumaEq)
    decreases c
  {
    if c > b {
      ColumnsSplit(cfg, m, frame, i, a, b, c - 1, draws, lumaEq);
    }
  }

  // ---------------------------------------------------------------------------
  // Initialisation and the whole frame
  // ---------------------------------------------------------------------------

  /** The model after initialisation from `frame`: every slot of every pixel holds the
      pixel's colour, and in shaky-camera mode comparison slot 0 does too (it is written
      inside the slot loop, so only when there is at least one slot). */
  function InitModel(cfg: Config, m: Model, frame: seq<seq<Rgb>>): (m': Model)
    requires Shaped(cfg, m) && FrameShaped(cfg, frame)
    ensures Shaped(cfg, m')
  {
    m.(samples := seq(cfg.width, x requires 0 <= x < cfg.width =>
                    seq(cfg.height, y requires 0 <= y < cfg.height => seq(cfg.n, k => frame[y][x]))),
       compare := if cfg.shakyCamera && cfg.n > 0 then
                    seq(cfg.width, x requires 0 <= x < cfg.width =>
                      seq(cfg.height, y requires 0 <= y < cfg.height => m.compare[x][y][0 := frame[y][x]]))
                  else m.compare)
  }

  /** A whole update call on frame i: every column, then a reinitialisation when
      the luma match ratio fell below `pct` in shaky-camera mode, then the counter reset. */
  function FrameUpdate(cfg: Config, m: Model, frame: seq<seq<Rgb>>, i: int, draws: seq<seq<Draws>>,
                       lumaEq: (Rgb, Rgb) -> bool): (m': Model)
    requires Shaped(cfg, m) && FrameShaped(cfg, frame) && DrawsFit(cfg, draws)
    ensures Shaped(cfg, m')
  {
    var m1 := ColumnsUpTo(cfg, m, frame, i, 0, cfg.width, draws, lumaEq);
    var m2 := if ReinitTriggered(m1.matchCount, cfg.width * cfg.height, cfg.pct, cfg.shakyCamera)
              then InitModel(cfg, m1, frame) else m1;
    m2.(matchCount := 0)
  }
}
