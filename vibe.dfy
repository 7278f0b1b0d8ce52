/** The ViBe engine: a per-pixel store of colour samples, updated in place frame by frame.
    The current frame is indexed `[y, x, channel]`, the sample store `[x, y, slot, channel]`,
    the segmentation map `[y, x, channel]` and the shake-comparison buffer
    `[x, y, slot, channel]`, as in the engine itself. The writes, the initialisation and
    the update steps from one pixel up to a whole frame are proved to leave the buffers
    equal to the corresponding function of `UpdateSpec` applied to their previous contents;
    the initialisation loops are stated element by element, `CountMatches` by the values it
    returns, and one worker's pass relative to the store at the start of the pass. */
module ViBeModel {
  import opened ViBeSpec
  import opened Partition
  import opened UpdateSpec

  class ViBe {
    /** Samples kept per pixel (`_n`). */
    const n: nat
    /** Per-channel distance below which a sample matches (`_r`). */
    const r: int
    /** Matches needed for a background pixel (`_bgMMin`). */
    const bgMMin: int
    /** Update-rate denominator (`_phi`). */
    const phi: int
    const frameWidth: nat
    const frameHeight: nat
    /** Number of workers the columns are split among. */
    const processorCount: nat
    const shakyCamera: bool
    const onlyBackground: bool
    const onlyForeground: bool
    /** Reinitialise when fewer than this share of pixels kept their luma. */
    const frameDifferencePercentage: real

    /** The current frame, refilled by the caller before each update. */
    const frameImageBytes: array3<byte>
    /** The background model. */
    const samples: array4<byte>
    /** The segmentation map handed to the renderer. */
    const segMapBytes: array3<byte>
    /** Two frames' colours per pixel, for shake detection. */
    const compareFrames: array4<byte>
    /** Pixels whose luma matched across the two comparison slots on this frame. */
    var matchCount: nat

    /** Buffer shapes, plus the settings under which the random draws of an update have a
        value in range (`DrawsPossible`): `Next(0, phi - 1)` needs `phi >= 1`, and with `phi`
        of 1 or 2 it is always 0, so `Next(0, n - 1)` follows and needs `n >= 1`. */
    ghost predicate Valid() {
      processorCount > 0 && phi >= 1 && (phi >= 3 || n >= 1) &&
      frameImageBytes.Length0 == frameHeight && frameImageBytes.Length1 == frameWidth &&
      frameImageBytes.Length2 >= 3 &&
      samples.Length0 == frameWidth && samples.Length1 == frameHeight &&
      samples.Length2 == n && samples.Length3 == 3 &&
      segMapBytes.Length0 == frameHeight && segMapBytes.Length1 == frameWidth &&
      segMapBytes.Length2 >= 3 &&
      compareFrames.Length0 == frameWidth && compareFrames.Length1 == frameHeight &&
      compareFrames.Length2 == 2 && compareFrames.Length3 == 3 &&
      frameImageBytes != segMapBytes && samples != compareFrames
    }

    constructor (frame: array3<byte>, n: nat, r: int, bgMMin: int, phi: int,
                 processorCount: nat, shakyCamera: bool, onlyBackground: bool,
                 onlyForeground: bool, frameDifferencePercentage: real)
      requires processorCount > 0 && frame.Length2 >= 3 && phi >= 1 && (phi >= 3 || n >= 1)
      ensures Valid() && fresh(samples) && fresh(segMapBytes) && fresh(compareFrames)
      ensures frameImageBytes == frame && frameWidth == frame.Length1 && frameHeight == frame.Length0
      ensures this.n == n && this.r == r && this.bgMMin == bgMMin && this.phi == phi
      ensures this.processorCount == processorCount && this.shakyCamera == shakyCamera
      ensures this.onlyBackground == onlyBackground && this.onlyForeground == onlyForeground
      ensures this.frameDifferencePercentage == frameDifferencePercentage
      ensures matchCount == 0
    {
      this.n, this.r, this.bgMMin, this.phi := n, r, bgMMin, phi;
      this.processorCount, this.shakyCamera := processorCount, shakyCamera;
      this.onlyBackground, this.onlyForeground := onlyBackground, onlyForeground;
      this.frameDifferencePercentage := frameDifferencePercentage;
      frameWidth, frameHeight := frame.Length1, frame.Length0;
      frameImageBytes := frame;
      samples := new byte[frame.Length1, frame.Length0, n, 3];
      segMapBytes := new byte[frame.Length0, frame.Length1, 4];
      compareFrames := new byte[frame.Length1, frame.Length0, 2, 3];
      matchCount := 0;
    }

    // -------------------------------------------------------------------------
    // Views of the buffers
    // -------------------------------------------------------------------------

    predicate InFrame(x: int, y: int) {
      0 <= x < frameWidth && 0 <= y < frameHeight
    }

    predicate InStore(x: int, y: int, k: int) {
      InFrame(x, y) && 0 <= k < n
    }

    /** Colour of frame pixel (x, y). */
    function FrameAt(x: int, y: int): Rgb
      requires Valid() && InFrame(x, y)
      reads frameImageBytes
    {
      Rgb(frameImageBytes[y, x, 0], frameImageBytes[y, x, 1], frameImageBytes[y, x, 2])
    }

    /** Sample k of pixel (x, y). */
    function SampleAt(x: int, y: int, k: int): Rgb
      requires Valid() && InStore(x, y, k)
      reads samples
    {
      Rgb(samples[x, y, k, 0], samples[x, y, k, 1], samples[x, y, k, 2])
    }

    /** Comparison slot s of pixel (x, y). */
    function CompareAt(x: int, y: int, s: int): Rgb
      requires Valid() && InFrame(x, y) && 0 <= s < 2
      reads compareFrames
    {
      Rgb(compareFrames[x, y, s, 0], compareFrames[x, y, s, 1], compareFrames[x, y, s, 2])
    }

    /** The settings as a value. */
    function Cfg(): Config {
      Config(n, r, bgMMin, phi, frameWidth, frameHeight, segMapBytes.Length2, shakyCamera,
             onlyBackground, onlyForeground, frameDifferencePercentage)
    }

    // The snapshots below are built element by element by recursion, so that a proof
    // about whole buffers unfolds them only as far as it needs; the `...At` lemmas give
    // their elements.

    /** The samples of pixel (x, y) in slot order. */
    ghost function PixelSamples(x: int, y: int): (ss: seq<Rgb>)
      requires Valid() && InFrame(x, y)
      reads samples
      ensures |ss| == n
    {
      SlotsOf(x, y, n)
    }

    /** Slots 0 .. k-1 of pixel (x, y). */
    ghost function SlotsOf(x: int, y: int, k: nat): (ss: seq<Rgb>)
      requires Valid() && InFrame(x, y) && k <= n
      reads samples
      ensures |ss| == k
    {
      if k == 0 then [] else SlotsOf(x, y, k - 1) + [SampleAt(x, y, k - 1)]
    }

    /** The current frame as colours, indexed `[y][x]`. */
    ghost function Frame(): (f: seq<seq<Rgb>>)
      requires Valid()
      reads frameImageBytes
      ensures FrameShaped(Cfg(), f)
    {
      FrameRows(frameHeight)
    }

    ghost function FrameRows(h: nat): (f: seq<seq<Rgb>>)
      requires Valid() && h <= frameHeight
      reads frameImageBytes
      ensures |f| == h && forall y | 0 <= y < h :: |f[y]| == frameWidth
    {
      if h == 0 then [] else FrameRows(h - 1) + [FrameRow(h - 1, frameWidth)]
    }

    ghost function FrameRow(y: int, w: nat): (row: seq<Rgb>)
      requires Valid() && 0 <= y < frameHeight && w <= frameWidth
      reads frameImageBytes
      ensures |row| == w
    {
      if w == 0 then [] else FrameRow(y, w - 1) + [FrameAt(w - 1, y)]
    }

    /** The sample store as colours, indexed `[x][y][slot]`. */
    ghost function Samples(): (st: seq<seq<seq<Rgb>>>)
      requires Valid()
      reads samples
      ensures Box(st, frameWidth, frameHeight, n)
    {
      SampleColumns(frameWidth)
    }

    ghost function SampleColumns(w: nat): (st: seq<seq<seq<Rgb>>>)
      requires Valid() && w <= frameWidth
      reads samples
      ensures Box(st, w, frameHeight, n)
    {
      if w == 0 then [] else SampleColumns(w - 1) + [SampleColumn(w - 1, frameHeight)]
    }

    ghost function SampleColumn(x: int, h: nat): (col: seq<seq<Rgb>>)
      requires Valid() && 0 <= x < frameWidth && h <= frameHeight
      reads samples
      ensures |col| == h && forall y | 0 <= y < h :: |col[y]| == n
    {
      if h == 0 then [] else SampleColumn(x, h - 1) + [PixelSamples(x, h - 1)]
    }

    /** The segmentation bytes, indexed `[y][x][channel]`. */
    ghost function SegMap(): (sm: seq<seq<seq<byte>>>)
      requires Valid()
      reads segMapBytes
      ensures Box(sm, frameHeight, frameWidth, segMapBytes.Length2)
    {
      SegRows(frameHeight)
    }

    ghost function SegRows(h: nat): (sm: seq<seq<seq<byte>>>)
      requires Valid() && h <= frameHeight
      reads segMapBytes
      ensures Box(sm, h, frameWidth, segMapBytes.Length2)
    {
      if h == 0 then [] else SegRows(h - 1) + [SegRow(h - 1, frameWidth)]
    }

    ghost function SegRow(y: int, w: nat): (row: seq<seq<byte>>)
      requires Valid() && 0 <= y < frameHeight && w <= frameWidth
      reads segMapBytes
      ensures |row| == w && forall x | 0 <= x < w :: |row[x]| == segMapBytes.Length2
    {
      if w == 0 then [] else SegRow(y, w - 1) + [SegBytes(w - 1, y, segMapBytes.Length2)]
    }

    ghost function SegBytes(x: int, y: int, c: nat): (bs: seq<byte>)
      requires Valid() && InFrame(x, y) && c <= segMapBytes.Length2
      reads segMapBytes
      ensures |bs| == c
    {
      if c == 0 then [] else SegBytes(x, y, c - 1) + [segMapBytes[y, x, c - 1]]
    }

    /** The comparison colours, indexed `[x][y][slot]`. */
    ghost function Compares(): (cs: seq<seq<seq<Rgb>>>)
      requires Valid()
      reads compareFrames
      ensures Box(cs, frameWidth, frameHeight, 2)
    {
      CompareColumns(frameWidth)
    }

    ghost function CompareColumns(w: nat): (cs: seq<seq<seq<Rgb>>>)
      requires Valid() && w <= frameWidth
      reads compareFrames
      ensures Box(cs, w, frameHeight, 2)
    {
      if w == 0 then [] else CompareColumns(w - 1) + [CompareColumn(w - 1, frameHeight)]
    }

    ghost function CompareColumn(x: int, h: nat): (col: seq<seq<Rgb>>)
      requires Valid() && 0 <= x < frameWidth && h <= frameHeight
      reads compareFrames
      ensures |col| == h && forall y | 0 <= y < h :: |col[y]| == 2
    {
      if h == 0 then [] else CompareColumn(x, h - 1) + [[CompareAt(x, h - 1, 0), CompareAt(x, h - 1, 1)]]
    }

    lemma SlotsOfAt(x: int, y: int, k: nat)
      requires Valid() && InFrame(x, y) && k <= n
      ensures forall k' | 0 <= k' < k :: SlotsOf(x, y, k)[k'] == SampleAt(x, y, k')
    {
      if k > 0 {
        SlotsOfAt(x, y, k - 1);
      }
    }

    lemma FrameRowAt(y: int, w: nat)
      requires Valid() && 0 <= y < frameHeight && w <= frameWidth
      ensures forall x | 0 <= x < w :: FrameRow(y, w)[x] == FrameAt(x, y)
    {
      if w > 0 {
        FrameRowAt(y, w - 1);
      }
    }

    lemma FrameRowsAt(h: nat)
      requires Valid() && h <= frameHeight
      ensures forall y | 0 <= y < h :: FrameRows(h)[y] == FrameRow(y, frameWidth)
    {
      if h > 0 {
        FrameRowsAt(h - 1);
      }
    }

    /** Frame element (x, y) is the pixel's colour. */
    lemma FrameIs(x: int, y: int)
      requires Valid() && InFrame(x, y)
      ensures Frame()[y][x] == FrameAt(x, y)
    {
      FrameRowsAt(frameHeight);
      FrameRowAt(y, frameWidth);
    }

    lemma SampleColumnAt(x: int, h: nat)
      requires Valid() && 0 <= x < frameWidth && h <= frameHeight
      ensures forall y | 0 <= y < h :: SampleColumn(x, h)[y] == PixelSamples(x, y)
    {
      if h > 0 {
        SampleColumnAt(x, h - 1);
      }
    }

    lemma SampleColumnsAt(w: nat)
      requires Valid() && w <= frameWidth
      ensures forall x | 0 <= x < w :: SampleColumns(w)[x] == SampleColumn(x, frameHeight)
    {
      if w > 0 {
        SampleColumnsAt(w - 1);
      }
    }

    /** The store's samples of pixel (x, y) are `PixelSamples(x, y)`. */
    lemma SamplesOfPixel(x: int, y: int)
      requires Valid() && InFrame(x, y)
      ensures Samples()[x][y] == PixelSamples(x, y)
    {
      SampleColumnsAt(frameWidth);
      SampleColumnAt(x, frameHeight);
    }

    /** Every element of the store snapshot is the stored sample. */
    lemma SamplesAt()
      requires Valid()
      ensures forall x, y, k | InStore(x, y, k) :: Samples()[x][y][k] == SampleAt(x, y, k)
    {
      forall x, y | InFrame(x, y)
        ensures forall k | 0 <= k < n :: Samples()[x][y][k] == SampleAt(x, y, k)
      {
        SamplesOfPixel(x, y);
        SlotsOfAt(x, y, n);
      }
    }

    lemma SegBytesAt(x: int, y: int, c: nat)
      requires Valid() && InFrame(x, y) && c <= segMapBytes.Length2
      ensures forall c' | 0 <= c' < c :: SegBytes(x, y, c)[c'] == segMapBytes[y, x, c']
    {
      if c > 0 {
        SegBytesAt(x, y, c - 1);
      }
    }

    lemma SegRowAt(y: int, w: nat)
      requires Valid() && 0 <= y < frameHeight && w <= frameWidth
      ensures forall x | 0 <= x < w :: SegRow(y, w)[x] == SegBytes(x, y, segMapBytes.Length2)
    {
      if w > 0 {
        SegRowAt(y, w - 1);
      }
    }

    lemma SegRowsAt(h: nat)
      requires Valid() && h <= frameHeight
      ensures forall y | 0 <= y < h :: SegRows(h)[y] == SegRow(y, frameWidth)
    {
      if h > 0 {
        SegRowsAt(h - 1);
      }
    }

    /** Every element of the segmentation snapshot is the stored byte. */
    lemma SegMapAt()
      requires Valid()
      ensures forall y, x, c | InFrame(x, y) && 0 <= c < segMapBytes.Length2 :: SegMap()[y][x][c] == segMapBytes[y, x, c]
    {
      SegRowsAt(frameHeight);
      forall y | 0 <= y < frameHeight
        ensures forall x, c | InFrame(x, y) && 0 <= c < segMapBytes.Length2 :: SegMap()[y][x][c] == segMapBytes[y, x, c]
      {
        SegRowAt(y, frameWidth);
        forall x | 0 <= x < frameWidth
          ensures forall c | 0 <= c < segMapBytes.Length2 :: SegMap()[y][x][c] == segMapBytes[y, x, c]
        {
          SegBytesAt(x, y, segMapBytes.Length2);
        }
      }
    }

    lemma CompareColumnAt(x: int, h: nat)
      requires Valid() && 0 <= x < frameWidth && h <= frameHeight
      ensures forall y | 0 <= y < h :: CompareColumn(x, h)[y] == [CompareAt(x, y, 0), CompareAt(x, y, 1)]
    {
      if h > 0 {
        CompareColumnAt(x, h - 1);
      }
    }

    lemma CompareColumnsAt(w: nat)
      requires Valid() && w <= frameWidth
      ensures forall x | 0 <= x < w :: CompareColumns(w)[x] == CompareColumn(x, frameHeight)
    {
      if w > 0 {
        CompareColumnsAt(w - 1);
      }
    }

    /** Every element of the comparison snapshot is the stored colour. */
    lemma ComparesAt()
      requires Valid()
      ensures forall x, y, s | InFrame(x, y) && 0 <= s < 2 :: Compares()[x][y][s] == CompareAt(x, y, s)
    {
      CompareColumnsAt(frameWidth);
      forall x | 0 <= x < frameWidth
        ensures forall y, s | InFrame(x, y) && 0 <= s < 2 :: Compares()[x][y][s] == CompareAt(x, y, s)
      {
        CompareColumnAt(x, frameHeight);
      }
    }

    /** All mutable state as one value. */
    ghost function State(): (m: Model)
      requires Valid()
      reads this, samples, segMapBytes, compareFrames
      ensures Shaped(Cfg(), m)
    {
      Model(Samples(), SegMap(), Compares(), matchCount)
    }

    // -------------------------------------------------------------------------
    // Single writes
    // -------------------------------------------------------------------------

    /** Overwrite sample k of pixel (x, y), and nothing else. */
    method WriteSample(x: int, y: int, k: int, colour: Rgb)
      requires Valid() && InStore(x, y, k)
      modifies samples
      ensures SampleAt(x, y, k) == colour
      ensures forall x', y', k' | InStore(x', y', k') && (x' != x || y' != y || k' != k) ::
                SampleAt(x', y', k') == old(SampleAt(x', y', k'))
      ensures State() == PutSample(Cfg(), old(State()), Slot(x, y, k), colour)
    {
      SamplesAt();
      samples[x, y, k, 0] := colour.c0;
      samples[x, y, k, 1] := colour.c1;
      samples[x, y, k, 2] := colour.c2;
      SamplesAt();
      BoxExt(Samples(), PutSample(Cfg(), old(State()), Slot(x, y, k), colour).samples, frameWidth, frameHeight, n);
    }

    /** Overwrite channels 0..2 of segmentation pixel (x, y), and nothing else. */
    method WriteSeg(x: int, y: int, colour: Rgb)
      requires Valid() && InFrame(x, y)
      modifies segMapBytes
      ensures State() == PutSeg(Cfg(), old(State()), x, y, colour)
    {
      SegMapAt();
      segMapBytes[y, x, 0] := colour.c0;
      segMapBytes[y, x, 1] := colour.c1;
      segMapBytes[y, x, 2] := colour.c2;
      SegMapAt();
      BoxExt(SegMap(), PutSeg(Cfg(), old(State()), x, y, colour).seg, frameHeight, frameWidth, segMapBytes.Length2);
    }

    /** Overwrite comparison slot s of pixel (x, y), and nothing else. */
    method WriteCompare(x: int, y: int, s: int, colour: Rgb)
      requires Valid() && InFrame(x, y) && 0 <= s < 2
      modifies compareFrames
      ensures CompareAt(x, y, s) == colour
      ensures forall x', y', s' | InFrame(x', y') && 0 <= s' < 2 && (x' != x || y' != y || s' != s) ::
                CompareAt(x', y', s') == old(CompareAt(x', y', s'))
      ensures State() == PutCompare(Cfg(), old(State()), x, y, s, colour)
    {
      ComparesAt();
      compareFrames[x, y, s, 0] := colour.c0;
      compareFrames[x, y, s, 1] := colour.c1;
      compareFrames[x, y, s, 2] := colour.c2;
      ComparesAt();
      BoxExt(Compares(), PutCompare(Cfg(), old(State()), x, y, s, colour).compare, frameWidth, frameHeight, 2);
    }

    // -------------------------------------------------------------------------
    // Initialisation
    // -------------------------------------------------------------------------

    /** Rows of column x for slot k: the inner loop of one worker. */
    method InitColumn(k: int, x: int)
      requires Valid() && 0 <= k < n && 0 <= x < frameWidth
      modifies samples, compareFrames
      ensures forall x', y', k' | InStore(x', y', k') ::
                SampleAt(x', y', k') == if x' == x && k' == k then FrameAt(x', y') else old(SampleAt(x', y', k'))
      ensures forall x', y', s | InFrame(x', y') && 0 <= s < 2 ::
                CompareAt(x', y', s) == if x' == x && s == 0 && shakyCamera then FrameAt(x', y') else old(CompareAt(x', y', s))
    {
      var y := 0;
      while y < frameHeight
        invariant 0 <= y <= frameHeight
        invariant forall x', y', k' | InStore(x', y', k') ::
                    SampleAt(x', y', k') == if x' == x && k' == k && y' < y then FrameAt(x', y') else old(SampleAt(x', y', k'))
        invariant forall x', y', s | InFrame(x', y') && 0 <= s < 2 ::
                    CompareAt(x', y', s) == if x' == x && y' < y && s == 0 && shakyCamera then FrameAt(x', y') else old(CompareAt(x', y', s))
      {
        if shakyCamera {
          WriteCompare(x, y, 0, FrameAt(x, y));
        }
        WriteSample(x, y, k, FrameAt(x, y));
        y := y + 1;
      }
    }

    /** Columns [lo, hi) for slot k: the body of one worker. */
    method InitColumns(k: int, lo: int, hi: int)
      requires Valid() && 0 <= k < n && 0 <= lo <= hi <= frameWidth
      modifies samples, compareFrames
      ensures forall x', y', k' | InStore(x', y', k') ::
                SampleAt(x', y', k') == if lo <= x' < hi && k' == k then FrameAt(x', y') else old(SampleAt(x', y', k'))
      ensures forall x', y', s | InFrame(x', y') && 0 <= s < 2 ::
                CompareAt(x', y', s) == if lo <= x' < hi && s == 0 && shakyCamera then FrameAt(x', y') else old(CompareAt(x', y', s))
    {
      var x := lo;
      while x < hi
        invariant lo <= x <= hi
        invariant forall x', y', k' | InStore(x', y', k') ::
                    SampleAt(x', y', k') == if lo <= x' < x && k' == k then FrameAt(x', y') else old(SampleAt(x', y', k'))
        invariant forall x', y', s | InFrame(x', y') && 0 <= s < 2 ::
                    CompareAt(x', y', s) == if lo <= x' < x && s == 0 && shakyCamera then FrameAt(x', y') else old(CompareAt(x', y', s))
      {
        InitColumn(k, x);
        x := x + 1;
      }
    }

    /** Slot k of every pixel, the columns split among the workers. */
    method InitSlot(k: int)
      requires Valid() && 0 <= k < n
      modifies samples, compareFrames
      ensures forall x', y', k' | InStore(x', y', k') ::
                SampleAt(x', y', k') == if k' == k then FrameAt(x', y') else old(SampleAt(x', y', k'))
      ensures forall x', y', s | InFrame(x', y') && 0 <= s < 2 ::
                CompareAt(x', y', s) == if s == 0 && shakyCamera then FrameAt(x', y') else old(CompareAt(x', y', s))
    {
      ColumnStartEnds(frameWidth, processorCount);
      var core := 0;
      while core < processorCount
        invariant 0 <= core <= processorCount
        invariant forall x', y', k' | InStore(x', y', k') ::
                    SampleAt(x', y', k') == if x' < ColumnStart(frameWidth, processorCount, core) && k' == k
                                            then FrameAt(x', y') else old(SampleAt(x', y', k'))
        invariant forall x', y', s | InFrame(x', y') && 0 <= s < 2 ::
                    CompareAt(x', y', s) == if x' < ColumnStart(frameWidth, processorCount, core) && s == 0 && shakyCamera
                                            then FrameAt(x', y') else old(CompareAt(x', y', s))
      {
        ColumnRangeInBounds(frameWidth, processorCount, core);
        var max := frameWidth * (core + 1) / processorCount;
        InitColumns(k, frameWidth * core / processorCount, max);
        core := core + 1;
      }
    }

    /** Fill every slot of every pixel with the current frame; in shaky-camera mode also
        seed comparison slot 0 with it. */
    method BackgroundModelInitialization()
      requires Valid()
      modifies samples, compareFrames
      ensures forall x, y, k | InStore(x, y, k) :: SampleAt(x, y, k) == FrameAt(x, y)
      ensures forall x, y, s | InFrame(x, y) && 0 <= s < 2 ::
                CompareAt(x, y, s) == if s == 0 && shakyCamera && n > 0 then FrameAt(x, y) else old(CompareAt(x, y, s))
      ensures State() == InitModel(Cfg(), old(State()), Frame())
    {
      ComparesAt();
      var k := 0;
      while k < n
        invariant 0 <= k <= n
        invariant forall x', y', k' | InStore(x', y', k') ::
                    SampleAt(x', y', k') == if k' < k then FrameAt(x', y') else old(SampleAt(x', y', k'))
        invariant forall x', y', s | InFrame(x', y') && 0 <= s < 2 ::
                    CompareAt(x', y', s) == if 0 < k && s == 0 && shakyCamera then FrameAt(x', y') else old(CompareAt(x', y', s))
      {
        InitSlot(k);
        k := k + 1;
      }
      ghost var m := InitModel(Cfg(), old(State()), Frame());
      forall x, y | InFrame(x, y) {
        FrameIs(x, y);
      }
      SamplesAt();
      ComparesAt();
      BoxExt(Samples(), m.samples, frameWidth, frameHeight, n);
      BoxExt(Compares(), m.compare, frameWidth, frameHeight, 2);
    }


    // -------------------------------------------------------------------------
    // Per-frame update
    // -------------------------------------------------------------------------

    /** Shake bookkeeping for pixel (x, y) on frame i: refresh the comparison slot of this
        frame's parity with the current colour and count the pixel when the lumas of the
        two slots are equal (`lumaEq` stands for that floating-point test). */
    method RefreshComparison(i: int, x: int, y: int, lumaEq: (Rgb, Rgb) -> bool)
      requires Valid() && InFrame(x, y)
      modifies compareFrames, this`matchCount
      ensures State() == Refresh(Cfg(), old(State()), Frame(), i, x, y, lumaEq)
    {
      ComparesAt();
      FrameIs(x, y);
      if CsRem2(i) == 0 && i != 0 && shakyCamera {
        WriteCompare(x, y, 0, FrameAt(x, y));
        if lumaEq(CompareAt(x, y, 0), CompareAt(x, y, 1)) {
          matchCount := matchCount + 1;
        }
      } else if CsRem2(i) == 1 && shakyCamera {
        WriteCompare(x, y, 1, FrameAt(x, y));
        if lumaEq(CompareAt(x, y, 0), CompareAt(x, y, 1)) {
          matchCount := matchCount + 1;
        }
      }
    }

    /** The match scan of pixel (x, y): slots in index order, stopping at `bgMMin` matches
        or after the last slot. Its count reaches `bgMMin` exactly when the pixel is
        background against all of its samples. */
    method CountMatches(x: int, y: int) returns (count: nat, index: nat)
      requires Valid() && InFrame(x, y)
      ensures index <= n && (count >= bgMMin || index == n)
      ensures count <= bgMMin || index == 0
      ensures count == MatchCount(FrameAt(x, y), PixelSamples(x, y)[..index], r)
      ensures count >= bgMMin <==> IsBackground(FrameAt(x, y), PixelSamples(x, y), r, bgMMin)
    {
      ghost var p, ss := FrameAt(x, y), PixelSamples(x, y);
      SlotsOfAt(x, y, n);
      count, index := 0, 0;
      while count < bgMMin && index < n
        invariant index <= n && (count <= bgMMin || index == 0)
        invariant count == MatchCount(p, ss[..index], r)
      {
        var db := AbsDiff(frameImageBytes[y, x, 0], samples[x, y, index, 0]);
        var dg := AbsDiff(frameImageBytes[y, x, 1], samples[x, y, index, 1]);
        var dr := AbsDiff(frameImageBytes[y, x, 2], samples[x, y, index, 2]);
        MatchCountStep(p, ss, r, index);
        if db < r && dg < r && dr < r {
          count := count + 1;
        }
        index := index + 1;
      }
      EarlyExitIsExact(p, ss, r, bgMMin, index);
    }

    /** The random model update of background pixel (x, y): with draw `ownDraw` equal to 0
        its own slot `ownSlot` takes the current colour, and with draw `ngbDraw` equal to 0
        slot `ngbSlot` of the clamped neighbour does. */
    method ReplaceSamples(x: int, y: int, d: Draws)
      requires Valid() && InFrame(x, y) && DrawsOk(d, n, phi)
      modifies samples
      ensures State() == Replace(Cfg(), old(State()), x, y, d, FrameAt(x, y))
    {
      var colour := FrameAt(x, y);
      if d.ownDraw == 0 {
        WriteSample(x, y, d.ownSlot, colour);
      }
      if d.ngbDraw == 0 {
        var xNg := NeighbourCoord(x, d.xPick, frameWidth, frameHeight);
        var yNg := NeighbourCoord(y, d.yPick, frameWidth, frameHeight);
        WriteSample(xNg, yNg, d.ngbSlot, colour);
      }
    }

    /** Everything done for pixel (x, y) on frame i with draws d: shake bookkeeping, the
        match scan, the segmentation write and, for a background pixel only, the random
        replacement of one of its own samples and of one sample of a neighbour. */
    method UpdatePixel(i: int, x: int, y: int, d: Draws, lumaEq: (Rgb, Rgb) -> bool)
      requires Valid() && InFrame(x, y) && DrawsOk(d, n, phi)
      modifies samples, segMapBytes, compareFrames, this`matchCount
      ensures State() == PixelStep(Cfg(), old(State()), Frame(), i, x, y, d, lumaEq)
    {
      RefreshComparison(i, x, y, lumaEq);
      SamplesOfPixel(x, y);
      FrameIs(x, y);
      var count, index := CountMatches(x, y);
      var colour := FrameAt(x, y);
      if count >= bgMMin {
        if onlyBackground {
          WriteSeg(x, y, colour);
        } else {
          WriteSeg(x, y, Black);
        }
        ReplaceSamples(x, y, d);
      } else {
        if onlyForeground {
          WriteSeg(x, y, colour);
        } else if onlyBackground {
          if (x + y) % 2 == 0 {
            WriteSeg(x, y, Magenta);
          } else {
            WriteSeg(x, y, Black);
          }
        } else {
          WriteSeg(x, y, White);
        }
      }
    }

    /** Rows of column x on frame i: the inner loop of one worker. */
    method UpdateColumn(i: int, x: int, draws: seq<seq<Draws>>, lumaEq: (Rgb, Rgb) -> bool)
      requires Valid() && 0 <= x < frameWidth && DrawsFit(Cfg(), draws)
      modifies samples, segMapBytes, compareFrames, this`matchCount
      ensures State() == RowsUpTo(Cfg(), old(State()), Frame(), i, x, frameHeight, draws, lumaEq)
    {
      ghost var cfg, m0, frame := Cfg(), State(), Frame();
      var y := 0;
      while y < frameHeight
        invariant 0 <= y <= frameHeight
        invariant State() == RowsUpTo(cfg, m0, frame, i, x, y, draws, lumaEq)
      {
        UpdatePixel(i, x, y, draws[x][y], lumaEq);
        y := y + 1;
      }
    }

    /** The body run by worker `core` on frame i: its columns, left to right. Run after
        workers 0 .. core-1 on the model `m0` the pass started from, it carries that pass
        on to the end of its own range. */
    method UpdateWorker(i: int, core: int, draws: seq<seq<Draws>>, lumaEq: (Rgb, Rgb) -> bool,
                        ghost m0: Model)
      requires Valid() && 0 <= core < processorCount && DrawsFit(Cfg(), draws) && Shaped(Cfg(), m0)
      requires ColumnStart(frameWidth, processorCount, core) <= frameWidth
      requires State() == ColumnsUpTo(Cfg(), m0, Frame(), i, 0, ColumnStart(frameWidth, processorCount, core), draws, lumaEq)
      modifies samples, segMapBytes, compareFrames, this`matchCount
      ensures ColumnStart(frameWidth, processorCount, core + 1) <= frameWidth
      ensures State() == ColumnsUpTo(Cfg(), m0, Frame(), i, 0, ColumnStart(frameWidth, processorCount, core + 1), draws, lumaEq)
    {
      ghost var cfg, frame := Cfg(), Frame();
      ColumnRangeInBounds(frameWidth, processorCount, core);
      var min := frameWidth * core / processorCount;
      var max := frameWidth * (core + 1) / processorCount;
      var x := min;
      while x < max
        invariant min <= x <= max
        invariant State() == ColumnsUpTo(cfg, m0, frame, i, 0, x, draws, lumaEq)
      {
        UpdateColumn(i, x, draws, lumaEq);
        x := x + 1;
      }
    }

    /** Every worker's body on frame i, worker 0 first: together one pass over all
        columns from left to right. */
    method UpdateWorkers(i: int, draws: seq<seq<Draws>>, lumaEq: (Rgb, Rgb) -> bool)
      requires Valid() && DrawsFit(Cfg(), draws)
      modifies samples, segMapBytes, compareFrames, this`matchCount
      ensures State() == ColumnsUpTo(Cfg(), old(State()), Frame(), i, 0, frameWidth, draws, lumaEq)
    {
      ghost var m0 := State();
      ColumnStartEnds(frameWidth, processorCount);
      var core := 0;
      while core < processorCount
        invariant 0 <= core <= processorCount
        invariant ColumnStart(frameWidth, processorCount, core) <= frameWidth
        invariant State() == ColumnsUpTo(Cfg(), m0, Frame(), i, 0, ColumnStart(frameWidth, processorCount, core), draws, lumaEq)
      {
        UpdateWorker(i, core, draws, lumaEq, m0);
        core := core + 1;
      }
    }

    /** One update call on frame i: every worker's column range in turn, then the
        reinitialisation test on the share of pixels whose luma matched, then the counter
        reset. `draws[x][y]` are the random values pixel (x, y) consumes. */
    method BackgroundModelUpdate(i: int, draws: seq<seq<Draws>>, lumaEq: (Rgb, Rgb) -> bool)
      requires Valid() && DrawsFit(Cfg(), draws)
      modifies samples, segMapBytes, compareFrames, this`matchCount
      ensures State() == FrameUpdate(Cfg(), old(State()), Frame(), i, draws, lumaEq)
    {
      UpdateWorkers(i, draws, lumaEq);
      var pixels := frameWidth * frameHeight;
      if pixels > 0 && (matchCount as real) / (pixels as real) < frameDifferencePercentage && shakyCamera {
        BackgroundModelInitialization();
      }
      matchCount := 0;
    }
  }
}
