/** The column split used by both parallel loops of the engine: worker `core` of
    `workers` handles the columns `[width * core / workers, width * (core + 1) / workers)`.
    The lemmas show that these ranges are ordered, pairwise disjoint and together cover
    exactly `[0, width)`, so running the workers one after another visits every column once. */
module Partition {

  /** First column of worker `core`; `ColumnStart(width, workers, core + 1)` is one past its last. */
  function ColumnStart(width: nat, workers: nat, core: nat): nat
    requires workers > 0
  {
    width * core / workers
  }

  lemma MulMono(w: nat, a: nat, b: nat)
    requires a <= b
    ensures w * a <= w * b
  {
    assert w * b == w * a + w * (b - a);
  }

  lemma DivMono(a: nat, b: nat, d: nat)
    requires d > 0 && a <= b
    ensures a / d <= b / d
  {
    if a / d > b / d {
      MulMono(d, b / d + 1, a / d);
      assert false;
    }
  }

  /** Later workers start no earlier than earlier ones. */
  lemma ColumnStartMono(width: nat, workers: nat, c1: nat, c2: nat)
    requires workers > 0 && c1 <= c2
    ensures ColumnStart(width, workers, c1) <= ColumnStart(width, workers, c2)
  {
    MulMono(width, c1, c2);
    DivMono(width * c1, width * c2, workers);
  }

  /** The first worker starts at column 0 and the last one ends at column `width`. */
  lemma ColumnStartEnds(width: nat, workers: nat)
    requires workers > 0
    ensures ColumnStart(width, workers, 0) == 0
    ensures ColumnStart(width, workers, workers) == width
  {
    DivExact(width, workers);
  }

  lemma DivExact(w: nat, d: nat)
    requires d > 0
    ensures w * d / d == w
  {
    var q := w * d / d;
    if q < w {
      MulMono(d, q + 1, w);
      assert false;
    } else if q > w {
      assert false;
    }
  }

  /** Every worker's range lies inside `[0, width)` and is never reversed. */
  lemma ColumnRangeInBounds(width: nat, workers: nat, core: nat)
    requires workers > 0 && core < workers
    ensures 0 <= ColumnStart(width, workers, core) <= ColumnStart(width, workers, core + 1) <= width
  {
    ColumnStartMono(width, workers, core, core + 1);
    ColumnStartMono(width, workers, core + 1, workers);
    ColumnStartEnds(width, workers);
  }

  /** Two different workers never share a column. */
  lemma ColumnRangesDisjoint(width: nat, workers: nat, c1: nat, c2: nat, x: int)
    requires workers > 0 && c1 < workers && c2 < workers && c1 != c2
    ensures !(ColumnStart(width, workers, c1) <= x < ColumnStart(width, workers, c1 + 1) &&
              ColumnStart(width, workers, c2) <= x < ColumnStart(width, workers, c2 + 1))
  {
    if c1 < c2 {
      ColumnStartMono(width, workers, c1 + 1, c2);
    } else {
      ColumnStartMono(width, workers, c2 + 1, c1);
    }
  }

  /** Every column in `[0, width)` belongs to some worker. */
  lemma ColumnsCovered(width: nat, workers: nat, x: int)
    requires workers > 0 && 0 <= x < width
    ensures exists core: nat :: core < workers &&
              ColumnStart(width, workers, core) <= x < ColumnStart(width, workers, core + 1)
  {
    ColumnStartEnds(width, workers);
    ColumnsCoveredFrom(width, workers, x, 0);
  }

  lemma {:induction false} ColumnsCoveredFrom(width: nat, workers: nat, x: int, core: nat)
    requires workers > 0 && core < workers && x < width
    requires ColumnStart(width, workers, core) <= x
    ensures exists c: nat :: core <= c < workers &&
              ColumnStart(width, workers, c) <= x < ColumnStart(width, workers, c + 1)
    decreases workers - core
  {
    if x >= ColumnStart(width, workers, core + 1) {
      if core + 1 == workers {
        ColumnStartEnds(width, workers);
        assert false;
      }
      ColumnsCoveredFrom(width, workers, x, core + 1);
    }
  }
}
