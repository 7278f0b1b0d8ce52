/** Values and pure functions of the ViBe background model: colours, the per-channel
    match test and match count, the segmentation colour, the ranges of the random draws,
    the neighbour-coordinate clamp and the shake-detector bookkeeping. */
module ViBeSpec {

  /** An unsigned 8-bit channel value (C#'s `byte`). */
  newtype byte = x: int | 0 <= x < 256

  /** Channels 0, 1 and 2 of a frame pixel, of a stored sample or of an output pixel. */
  datatype Rgb = Rgb(c0: byte, c1: byte, c2: byte)

  datatype Option<T> = None | Some(value: T)

  /** One sample slot of the store: pixel (x, y), slot index k. */
  datatype Slot = Slot(x: int, y: int, k: int)

  const Black := Rgb(0, 0, 0)
  const White := Rgb(255, 255, 255)
  const Magenta := Rgb(255, 0, 255)

  // ---------------------------------------------------------------------------
  // Classification
  // ---------------------------------------------------------------------------

  /** `(int)Math.Abs(a - b)` for two bytes promoted to `int`. */
  function AbsDiff(a: byte, b: byte): (d: int)
    ensures 0 <= d < 256
    ensures d == 0 <==> a == b
  {
    if a >= b then a as int - b as int else b as int - a as int
  }

  /** A sample matches the current colour when every channel, on its own, is strictly
      closer than `r` (a box test, not a Euclidean distance). */
  predicate Close(p: Rgb, s: Rgb, r: int) {
    AbsDiff(p.c0, s.c0) < r && AbsDiff(p.c1, s.c1) < r && AbsDiff(p.c2, s.c2) < r
  }

  /** Number of samples of `ss` that match `p`. */
  function MatchCount(p: Rgb, ss: seq<Rgb>, r: int): (c: nat)
    ensures c <= |ss|
  {
    if ss == [] then 0
    else MatchCount(p, ss[..|ss| - 1], r) + (if Close(p, ss[|ss| - 1], r) then 1 else 0)
  }

  /** The pixel is background when at least `bgMin` of its samples match it. */
  predicate IsBackground(p: Rgb, ss: seq<Rgb>, r: int, bgMin: int) {
    MatchCount(p, ss, r) >= bgMin
  }

  /** Extending a prefix by one sample adds one to the count exactly when that sample matches. */
  lemma MatchCountStep(p: Rgb, ss: seq<Rgb>, r: int, k: nat)
    requires k < |ss|
    ensures MatchCount(p, ss[..k + 1], r) == MatchCount(p, ss[..k], r) + (if Close(p, ss[k], r) then 1 else 0)
  {
    assert ss[..k + 1][..k] == ss[..k];
  }

  /** A prefix never has more matches than the whole sequence. */
  lemma {:induction false} MatchCountPrefix(p: Rgb, ss: seq<Rgb>, r: int, k: nat)
    requires k <= |ss|
    ensures MatchCount(p, ss[..k], r) <= MatchCount(p, ss, r)
  {
    if k < |ss| {
      MatchCountPrefix(p, ss[..|ss| - 1], r, k);
      assert ss[..|ss| - 1][..k] == ss[..k];
    } else {
      assert ss[..k] == ss;
    }
  }

  /** The scan over slots 0, 1, ... may stop as soon as `bgMin` matches are found: once the
      prefix count reaches `bgMin`, or the prefix is the whole sequence, comparing the
      prefix count with `bgMin` decides the classification of the full sample set. */
  lemma EarlyExitIsExact(p: Rgb, ss: seq<Rgb>, r: int, bgMin: int, k: nat)
    requires k <= |ss|
    requires MatchCount(p, ss[..k], r) >= bgMin || k == |ss|
    ensures IsBackground(p, ss, r, bgMin) <==> MatchCount(p, ss[..k], r) >= bgMin
  {
    MatchCountPrefix(p, ss, r, k);
    if k == |ss| {
      assert ss[..k] == ss;
    }
  }

  /** A freshly initialised pixel (all samples equal to the colour) matches in every slot,
      so an unchanged frame is classified background whenever `bgMin <= |ss|`. */
  lemma {:induction false} UniformSamplesAllMatch(p: Rgb, ss: seq<Rgb>, r: int)
    requires r > 0
    requires forall k | 0 <= k < |ss| :: ss[k] == p
    ensures MatchCount(p, ss, r) == |ss|
  {
    if ss != [] {
      UniformSamplesAllMatch(p, ss[..|ss| - 1], r);
    }
  }

  /** If every sample is a colour `q` that is not close to `p`, nothing matches, so `p` is
      foreground for any positive `bgMin`. */
  lemma {:induction false} DistantSamplesNeverMatch(p: Rgb, q: Rgb, ss: seq<Rgb>, r: int)
    requires !Close(p, q, r)
    requires forall k | 0 <= k < |ss| :: ss[k] == q
    ensures MatchCount(p, ss, r) == 0
  {
    if ss != [] {
      DistantSamplesNeverMatch(p, q, ss[..|ss| - 1], r);
    }
  }

  // ---------------------------------------------------------------------------
  // Segmentation output
  // ---------------------------------------------------------------------------

  /** The colour written to the segmentation map for a pixel at (x, y) of colour `p`.
      The frame colour shows through only for the class the display flags select; every
      other pixel gets a constant colour, with a magenta/black checkerboard for foreground
      pixels when only the background is displayed. */
  function SegColour(background: bool, onlyBackground: bool, onlyForeground: bool,
                     p: Rgb, x: nat, y: nat): (out: Rgb)
    ensures (background && onlyBackground) || (!background && onlyForeground) ==> out == p
    ensures !((background && onlyBackground) || (!background && onlyForeground)) ==>
              out in {Black, White, Magenta}
    ensures background ==> out in {p, Black}
    ensures background && !onlyBackground ==> out == Black
    ensures !background && !onlyForeground && onlyBackground ==>
              out == if (x + y) % 2 == 0 then Magenta else Black
    ensures !background && !onlyForeground && !onlyBackground ==> out == White
  {
    if background then
      if onlyBackground then p else Black
    else if onlyForeground then p
    else if onlyBackground then
      if (x + y) % 2 == 0 then Magenta else Black
    else White
  }

  /** Outside the selected class the output does not depend on the frame colour. */
  lemma SegColourHidesUnselected(background: bool, onlyBackground: bool, onlyForeground: bool,
                                 p: Rgb, q: Rgb, x: nat, y: nat)
    requires !((background && onlyBackground) || (!background && onlyForeground))
    ensures SegColour(background, onlyBackground, onlyForeground, p, x, y)
         == SegColour(background, onlyBackground, onlyForeground, q, x, y)
  {
  }

  /** The foreground checkerboard alternates between horizontally and vertically adjacent pixels. */
  lemma CheckerboardAlternates(p: Rgb, x: nat, y: nat)
    ensures SegColour(false, true, false, p, x, y) != SegColour(false, true, false, p, x + 1, y)
    ensures SegColour(false, true, false, p, x, y) != SegColour(false, true, false, p, x, y + 1)
  {
  }

  // ---------------------------------------------------------------------------
  // Random draws and the neighbour clamp
  // ---------------------------------------------------------------------------

  /** `v` is a possible value of `Random.Next(0, hi)`: in [0, hi), or 0 when `hi` is 0
      (a negative `hi` throws, so no value is possible). */
  predicate IsNextDraw(v: int, hi: int) {
    if hi == 0 then v == 0 else 0 <= v < hi
  }

  /** The random values one background pixel may consume: the own-update draw and slot,
      the neighbour-update draw and slot, and the two indices into `[-1, 0, 1]` that pick
      the neighbour's offset on each axis. */
  datatype Draws = Draws(ownDraw: int, ownSlot: int, ngbDraw: int, ngbSlot: int,
                         xPick: int, yPick: int)

  /** The ranges of the draws: `Next(0, phi - 1)` for the two update draws, and, only
      when the update draw before them came up 0 (otherwise they are never drawn),
      `Next(0, n - 1)` for the slot and `Next(3)` for the two offsets. */
  predicate DrawsOk(d: Draws, n: int, phi: int) {
    IsNextDraw(d.ownDraw, phi - 1) && (d.ownDraw == 0 ==> IsNextDraw(d.ownSlot, n - 1)) &&
    IsNextDraw(d.ngbDraw, phi - 1) &&
    (d.ngbDraw == 0 ==> IsNextDraw(d.ngbSlot, n - 1) && 0 <= d.xPick < 3 && 0 <= d.yPick < 3)
  }

  /** Some record of draws is in range exactly when `phi >= 1` and either `phi >= 3` or the
      store has a slot: for `phi` of 1 or 2 the update draw `Next(0, phi - 1)` is always 0,
      so the slot draw `Next(0, n - 1)` follows, and it throws when `n` is 0. */
  lemma DrawsPossible(n: int, phi: int)
    ensures (exists d :: DrawsOk(d, n, phi)) <==> phi >= 1 && (phi >= 3 || n >= 1)
  {
    if phi >= 1 && (phi >= 3 || n >= 1) {
      var d := if n >= 1 then Draws(0, 0, 0, 0, 0, 0) else Draws(1, 0, 1, 0, 0, 0);
      assert DrawsOk(d, n, phi);
    }
  }

  /** The neighbour coordinate chosen for `coord`: unchanged when `coord` is 0 or equals
      either `width - 1` or `height - 1` (whichever axis `coord` belongs to), otherwise
      `coord` plus the picked offset of `[-1, 0, 1]`. */
  function NeighbourCoord(coord: int, pick: int, width: int, height: int): (c: int)
    requires 0 <= pick < 3
    ensures coord == 0 || coord == width - 1 || coord == height - 1 ==> c == coord
    ensures coord - 1 <= c <= coord + 1
    ensures 0 <= coord < width ==> 0 <= c < width
    ensures 0 <= coord < height ==> 0 <= c < height
  {
    if coord == height - 1 || coord == width - 1 || coord == 0 then coord
    else coord + [-1, 0, 1][pick]
  }

  /** The sample slots a background pixel (x, y) overwrites with its colour, given its draws:
      its own slot `ownSlot` when the first draw is 0, and slot `ngbSlot` of the clamped
      neighbour when the second draw is 0. */
  function PixelWrites(x: int, y: int, d: Draws, n: int, phi: int, width: int, height: int): (ws: set<Slot>)
    requires DrawsOk(d, n, phi) && 0 <= x < width && 0 <= y < height
    ensures forall w | w in ws :: 0 <= w.x < width && 0 <= w.y < height && 0 <= w.k < n
  {
    (if d.ownDraw == 0 then {Slot(x, y, d.ownSlot)} else {}) +
    (if d.ngbDraw == 0
     then {Slot(NeighbourCoord(x, d.xPick, width, height), NeighbourCoord(y, d.yPick, width, height), d.ngbSlot)}
     else {})
  }

  /** A background pixel writes at most two slots, only its own or an adjacent pixel's,
      nothing unless a draw came up 0, its own slot whenever the first draw did, and, when
      the pixel has at least two slots, never its last one: `Next(0, n - 1)` stops short
      of `n - 1`, except that with `n == 1` it returns 0, which is the last slot. */
  lemma PixelWritesShape(x: int, y: int, d: Draws, n: int, phi: int, width: int, height: int)
    requires DrawsOk(d, n, phi) && 0 <= x < width && 0 <= y < height
    ensures var ws := PixelWrites(x, y, d, n, phi, width, height);
      (forall w | w in ws :: -1 <= w.x - x <= 1 && -1 <= w.y - y <= 1) &&
      (forall w | w in ws :: n >= 2 ==> w.k != n - 1) &&
      (d.ownDraw != 0 && d.ngbDraw != 0 ==> ws == {}) &&
      (d.ownDraw == 0 ==> Slot(x, y, d.ownSlot) in ws) &&
      (d.ngbDraw != 0 ==> forall w | w in ws :: w == Slot(x, y, d.ownSlot)) &&
      |ws| <= 2
  {
  }

  // ---------------------------------------------------------------------------
  // Shake detection
  // ---------------------------------------------------------------------------

  /** C#'s `i % 2`, which truncates toward zero (so it is -1 for negative odd `i`). */
  function CsRem2(i: int): (m: int)
    ensures -1 <= m <= 1
    ensures i >= 0 ==> m == i % 2
    ensures i < 0 ==> m <= 0 && (m == 0 <==> i % 2 == 0)
  {
    if i >= 0 then i % 2 else -((-i) % 2)
  }

  /** The comparison slot refreshed on frame `i`, if any: slot 0 on even frames other
      than frame 0, slot 1 on odd frames, and nothing without shaky-camera mode. */
  function RefreshedSlot(i: int, shakyCamera: bool): (s: Option<nat>)
    ensures s.Some? ==> shakyCamera && i != 0 && s.value < 2
    ensures s == Some(0) <==> shakyCamera && i != 0 && i % 2 == 0
    ensures shakyCamera && i > 0 ==> s == Some(i % 2)
    ensures i < 0 && i % 2 == 1 ==> s == None
  {
    if CsRem2(i) == 0 && i != 0 && shakyCamera then Some(0)
    else if CsRem2(i) == 1 && shakyCamera then Some(1)
    else None
  }

  /** Whether the luma test of one pixel succeeds on this frame, given the comparison slots
      before the refresh, the current colour and the refreshed slot; the refreshed slot
      holds the current colour when the test runs. */
  function ShakeHit(slot0: Rgb, slot1: Rgb, current: Rgb, refreshed: Option<nat>,
                    lumaEq: (Rgb, Rgb) -> bool): bool
  {
    match refreshed
    case None => false
    case Some(s) => if s == 0 then lumaEq(current, slot1) else lumaEq(slot0, current)
  }

  /** The reinitialisation test `matchCount / (width * height) < pct` in shaky-camera mode.
      With no pixels the quotient is not a number (or infinite) and the test fails. */
  predicate ReinitTriggered(matchCount: nat, pixels: nat, pct: real, shakyCamera: bool) {
    pixels > 0 && (matchCount as real) / (pixels as real) < pct && shakyCamera
  }

  /** The ratio test is the same as comparing the match count with `pct` pixels; in
      particular a scene where every pixel's luma matched never triggers a reset while
      `pct <= 1`. */
  lemma ReinitMeansFewMatches(matchCount: nat, pixels: nat, pct: real)
    requires pixels > 0
    ensures ReinitTriggered(matchCount, pixels, pct, true) <==> (matchCount as real) < pct * (pixels as real)
    ensures pct <= 1.0 && matchCount == pixels ==> !ReinitTriggered(matchCount, pixels, pct, true)
  {
    var q := (matchCount as real) / (pixels as real);
    assert q * (pixels as real) == matchCount as real;
  }
}
