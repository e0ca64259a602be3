/**
 * Grid shape of the patrol partition (script.js:573-586):
 * `cols = Math.ceil(Math.sqrt(n))`, `rows = Math.ceil(n / cols)`, and slot
 * `i` sits at row `Math.floor(i / cols)`, column `i % cols`.
 * Integer arithmetic stands in for the floating-point square root.
 */
module Grid {

  /** Counts up from `from` to the first `c` with `c * c >= n`. */
  function CeilSqrtFrom(n: nat, from: nat): (c: nat)
    ensures c >= from
    decreases n - from
  {
    if from * from >= n then from
    else
      assert from < n by {
        if from > 0 { assert from <= from * from; }
      }
      CeilSqrtFrom(n, from + 1)
  }

  /** Counting up from below the root stops at the least `c` with `c * c >= n`. */
  lemma {:induction false} CeilSqrtFromIsLeast(n: nat, from: nat)
    requires from == 0 || (from - 1) * (from - 1) < n
    ensures CeilSqrtFrom(n, from) * CeilSqrtFrom(n, from) >= n
    ensures CeilSqrtFrom(n, from) == 0 || (CeilSqrtFrom(n, from) - 1) * (CeilSqrtFrom(n, from) - 1) < n
    decreases n - from
  {
    if from * from < n {
      CeilSqrtFromIsLeast(n, from + 1);
    }
  }

  /** `Math.ceil(Math.sqrt(n))`. */
  function CeilSqrt(n: nat): (c: nat)
    ensures n > 0 ==> c > 0
  {
    if n == 0 then 0 else CeilSqrtFrom(n, 1)
  }

  /** `CeilSqrt(n)` is the least `c` with `c * c >= n`. */
  lemma CeilSqrtIsLeast(n: nat)
    ensures CeilSqrt(n) * CeilSqrt(n) >= n
    ensures CeilSqrt(n) == 0 || (CeilSqrt(n) - 1) * (CeilSqrt(n) - 1) < n
  {
    if n > 0 {
      CeilSqrtFromIsLeast(n, 1);
    }
  }

  /** `Math.ceil(n / d)`. */
  function CeilDiv(n: nat, d: nat): (q: nat)
    requires d > 0
    ensures n > 0 ==> q > 0
  {
    if n == 0 then 0 else (n - 1) / d + 1
  }

  /** `CeilDiv(n, d)` is the least `q` with `q * d >= n`. */
  lemma CeilDivIsLeast(n: nat, d: nat)
    requires d > 0
    ensures CeilDiv(n, d) * d >= n
    ensures CeilDiv(n, d) == 0 || (CeilDiv(n, d) - 1) * d < n
  {
    if n > 0 {
      var k := (n - 1) / d;
      assert k * d <= n - 1 < (k + 1) * d;
    }
  }

  function Cols(n: nat): nat
  {
    CeilSqrt(n)
  }

  function Rows(n: nat): nat
  {
    if Cols(n) == 0 then 0 else CeilDiv(n, Cols(n))
  }

  lemma MulMonotone(a: nat, b: nat, c: nat)
    requires a <= b
    ensures a * c <= b * c
  {
  }

  /** `i < q * d` puts `i` before row `q`. */
  lemma DivBelow(i: nat, d: nat, q: nat)
    requires d > 0 && i < q * d
    ensures i / d < q
  {
    var k := i / d;
    assert k * d <= i;
    if k >= q {
      MulMonotone(q, k, d);
    }
  }

  /** `q * d <= i` puts `i` at or after row `q`. */
  lemma DivAbove(i: nat, d: nat, q: nat)
    requires d > 0 && q * d <= i
    ensures q <= i / d
  {
    var k := i / d;
    assert i < (k + 1) * d;
    if k + 1 <= q {
      MulMonotone(k + 1, q, d);
    }
  }

  /** Both sides of the grid of `n > 0` slots, with the bounds that make them the least ones. */
  lemma GridSides(n: nat)
    requires n > 0
    ensures Cols(n) > 0 && Rows(n) > 0
    ensures Cols(n) * Cols(n) >= n && (Cols(n) - 1) * (Cols(n) - 1) < n
    ensures Rows(n) * Cols(n) >= n && (Rows(n) - 1) * Cols(n) < n
  {
    CeilSqrtIsLeast(n);
    CeilDivIsLeast(n, Cols(n));
  }

  /** Slot `i < n` lies inside the grid. */
  lemma SlotInGrid(n: nat, i: nat)
    requires i < n
    ensures Cols(n) > 0 && i / Cols(n) < Rows(n) && i % Cols(n) < Cols(n)
  {
    GridSides(n);
    DivBelow(i, Cols(n), Rows(n));
  }

  lemma RowsAtMostCols(n: nat)
    requires n > 0
    ensures Cols(n) > 0 && Rows(n) <= Cols(n)
  {
    GridSides(n);
    var cols := Cols(n);
    var rows := Rows(n);
    assert (rows - 1) * cols < n <= cols * cols;
    if rows > cols {
      MulMonotone(cols, rows - 1, cols);
    }
  }

  /**
   * The grid has room for every slot and no wasted row: `rows * cols >= n`,
   * every slot's row and column are in range, the last slot lies in the last
   * row, and the grid is never taller than it is wide.
   */
  lemma GridCoversSlots(n: nat)
    requires n > 0
    ensures Cols(n) > 0 && Rows(n) > 0
    ensures Rows(n) * Cols(n) >= n
    ensures Rows(n) <= Cols(n)
    ensures (n - 1) / Cols(n) == Rows(n) - 1
    ensures forall i :: 0 <= i < n ==> i / Cols(n) < Rows(n) && i % Cols(n) < Cols(n)
  {
    GridSides(n);
    var cols := Cols(n);
    var rows := Rows(n);
    RowsAtMostCols(n);
    assert rows * cols >= n;
    assert (rows - 1) * cols < n;
    forall i | 0 <= i < n
      ensures i / cols < rows
    {
      DivBelow(i, cols, rows);
    }
    DivBelow(n - 1, cols, rows);
    DivAbove(n - 1, cols, rows - 1);
  }
}
