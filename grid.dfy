/** The 30-pixel block grid shared by the terrain and the vegetation planner:
    the block pitch, Java's truncating integer division, the way a
    [minX, maxX) request is aligned to the grid, and the column sequence a
    `for (x = startX; x < endX; x += Block.SIZE)` loop visits. */
module Grid {

  /** Side of a square block in pixels (Block.SIZE). */
  const SIZE: int := 30

  /** Java's `a / b` on int, which rounds toward zero (Dafny's `/` is Euclidean).
      The remainder `a - q * b` has the sign of `a` and is smaller than `b`. */
  function JavaDiv(a: int, b: int): (q: int)
    requires b > 0
    ensures a >= 0 ==> 0 <= a - q * b < b
    ensures a < 0 ==> -b < a - q * b <= 0
  {
    if a >= 0 then a / b else -((-a) / b)
  }

  /** First column of a request, as written: `(minX / SIZE) * SIZE`. */
  function AlignStart(minX: int): int
  {
    JavaDiv(minX, SIZE) * SIZE
  }

  /** Exclusive end of a request's columns, as written: `((maxX + SIZE - 1) / SIZE) * SIZE`. */
  function AlignEnd(maxX: int): int
  {
    JavaDiv(maxX + SIZE - 1, SIZE) * SIZE
  }

  /** The x-values visited by `for (x = start; x < end; x += SIZE)`. */
  function Columns(start: int, end: int): seq<int>
    decreases end - start
  {
    if start < end then [start] + Columns(start + SIZE, end) else []
  }

  /** The columns a `createInRange(minX, maxX)` call visits. */
  function RangeColumns(minX: int, maxX: int): seq<int>
  {
    Columns(AlignStart(minX), AlignEnd(maxX))
  }

  lemma ModShift(a: int)
    ensures (a + SIZE) % SIZE == a % SIZE
  {
  }

  /** The loop visits `start` first, then continues from `start + SIZE`. */
  lemma ColumnsStep(start: int, end: int)
    requires start < end
    ensures Columns(start, end) != [] && Columns(start, end)[0] == start
    ensures Columns(start, end)[1..] == Columns(start + SIZE, end)
  {
    assert Columns(start, end) == [start] + Columns(start + SIZE, end);
  }

  /** Column `i` of the loop is `start + i * SIZE`; the loop runs
      `ceil((end - start) / SIZE)` times, so every column lies in [start, end). */
  lemma {:induction false} ColumnsAt(start: int, end: int, i: int)
    requires 0 <= i < |Columns(start, end)|
    ensures Columns(start, end)[i] == start + i * SIZE
    ensures start <= Columns(start, end)[i] < end
    decreases end - start
  {
    if i > 0 {
      ColumnsAt(start + SIZE, end, i - 1);
    }
  }

  /** The loop runs `ceil((end - start) / SIZE)` times (none when start >= end). */
  lemma {:induction false} ColumnsLength(start: int, end: int)
    ensures |Columns(start, end)| == if start < end then (end - start + SIZE - 1) / SIZE else 0
    decreases end - start
  {
    if start < end {
      ColumnsLength(start + SIZE, end);
    }
  }

  /** A value is visited exactly when it lies in [start, end) on the grid that starts at `start`. */
  lemma {:induction false} ColumnsMembership(start: int, end: int, x: int)
    ensures x in Columns(start, end) <==> start <= x < end && (x - start) % SIZE == 0
    decreases end - start
  {
    if start < end {
      ColumnsMembership(start + SIZE, end, x);
      ModShift(x - start - SIZE);
    }
  }

  /** Splitting the loop at a grid point `b` visits the same columns in the same order. */
  lemma {:induction false} ColumnsSplit(a: int, b: int, c: int)
    requires a <= b <= c
    requires (b - a) % SIZE == 0
    ensures Columns(a, c) == Columns(a, b) + Columns(b, c)
    decreases b - a
  {
    if a < b {
      ModShift(b - a - SIZE);
      ColumnsSplit(a + SIZE, b, c);
    }
  }

  /** As written: two requests meeting at a negative grid point `b` both visit column `b`. */
  lemma NegativeSeamShared(a: int, b: int, c: int)
    requires a < b < c && b < 0 && a % SIZE == 0 && b % SIZE == 0
    ensures b in RangeColumns(a, b) && b in RangeColumns(b, c)
  {
    AlignStartOnGrid(a);
    AlignStartOnGrid(b);
    AlignEndNegativeOvershoot(b);
    ColumnsMembership(a, b + SIZE, b);
    ColumnsMembership(b, AlignEnd(c), b);
  }

  /** For a non-negative request the columns start at or before `minX`, less than one block
      before it, and end at or after `maxX`, less than one block after it. */
  lemma AlignBoundsNonNegative(minX: int, maxX: int)
    requires 0 <= minX <= maxX
    ensures AlignStart(minX) % SIZE == 0 && AlignEnd(maxX) % SIZE == 0
    ensures AlignStart(minX) <= minX < AlignStart(minX) + SIZE
    ensures maxX <= AlignEnd(maxX) < maxX + SIZE
  {
    MultipleOnGrid(JavaDiv(minX, SIZE));
    MultipleOnGrid(JavaDiv(maxX + SIZE - 1, SIZE));
  }

  lemma MultipleOnGrid(k: int)
    ensures (k * SIZE) % SIZE == 0
  {
  }

  /** A multiple of SIZE is its own start column. */
  lemma AlignStartOnGrid(a: int)
    requires a % SIZE == 0
    ensures AlignStart(a) == a
  {
    var k := a / SIZE;
    assert a == k * SIZE;
    if a < 0 {
      assert -a == (-k) * SIZE;
      assert (-a) / SIZE == -k;
    }
  }

  /** A non-negative multiple of SIZE is its own end bound. */
  lemma AlignEndOnGrid(b: int)
    requires b >= 0 && b % SIZE == 0
    ensures AlignEnd(b) == b
  {
    var k := b / SIZE;
    assert b + SIZE - 1 == k * SIZE + (SIZE - 1);
  }

  /** As written: for `maxX` a negative multiple of SIZE, truncating division makes the end
      bound one block past `maxX`, so the loop also visits the column at `maxX` itself. */
  lemma AlignEndNegativeOvershoot(maxX: int)
    requires maxX < 0 && maxX % SIZE == 0
    ensures AlignEnd(maxX) == maxX + SIZE
    ensures maxX in RangeColumns(maxX - SIZE, maxX)
  {
    var k := maxX / SIZE;
    assert maxX == k * SIZE && k <= -1;
    var a := maxX + SIZE - 1;
    assert -a == (-k - 1) * SIZE + 1;
    assert (-a) / SIZE == -k - 1;
    AlignStartOnGrid(maxX - SIZE);
    ColumnsMembership(maxX - SIZE, maxX + SIZE, maxX);
  }

  /** As written: for a negative `minX` off the grid, truncating division rounds the start up
      to the next column, so the column holding `minX` is not visited. */
  lemma AlignStartNegativeUndershoot(minX: int)
    requires minX < 0 && minX % SIZE != 0
    ensures AlignStart(minX) == FloorToGrid(minX) + SIZE
    ensures minX < AlignStart(minX)
    ensures FloorToGrid(minX) !in Columns(AlignStart(minX), AlignEnd(0))
    ensures forall maxX :: FloorToGrid(minX) !in RangeColumns(minX, maxX)
  {
    var q := (-minX) / SIZE;
    assert -minX == q * SIZE + (-minX) % SIZE;
    assert minX == (-q - 1) * SIZE + (SIZE - (-minX) % SIZE);
    assert minX / SIZE == -q - 1;
    ColumnsMembership(AlignStart(minX), AlignEnd(0), FloorToGrid(minX));
    forall maxX ensures FloorToGrid(minX) !in RangeColumns(minX, maxX) {
      ColumnsMembership(AlignStart(minX), AlignEnd(maxX), FloorToGrid(minX));
    }
  }

  /** `createInRange(0, 800)` (an 800-pixel-wide window) visits 27 columns. */
  lemma EightHundredPixelsIsTwentySevenColumns()
    ensures AlignStart(0) == 0 && AlignEnd(800) == 810
    ensures |RangeColumns(0, 800)| == 27
  {
    ColumnsLength(0, 810);
  }

  /** Non-negative aligned requests compose: [a, c) visits the columns of [a, b) then those of [b, c). */
  lemma RangeColumnsSplit(a: int, b: int, c: int)
    requires a <= b <= c && 0 <= b
    requires a % SIZE == 0 && b % SIZE == 0 && c % SIZE == 0
    ensures RangeColumns(a, c) == RangeColumns(a, b) + RangeColumns(b, c)
  {
    AlignStartOnGrid(a);
    AlignStartOnGrid(b);
    AlignEndOnGrid(b);
    AlignEndOnGrid(c);
    ColumnsSplit(a, b, c);
  }

  // ---------------------------------------------------------------------------
  // Corrected alignment (rounding toward negative infinity)

  /** The grid point at or below `x`: floor division. */
  function FloorToGrid(x: int): (r: int)
    ensures r % SIZE == 0
    ensures r <= x < r + SIZE
  {
    (x / SIZE) * SIZE
  }

  /** The grid point at or above `x`: ceiling division. */
  function CeilToGrid(x: int): (r: int)
    ensures r % SIZE == 0
    ensures r - SIZE < x <= r
  {
    ((x + SIZE - 1) / SIZE) * SIZE
  }

  /** The columns of a request under the corrected alignment. */
  function CorrectedRangeColumns(minX: int, maxX: int): seq<int>
  {
    Columns(FloorToGrid(minX), CeilToGrid(maxX))
  }

  /** Under the corrected alignment a column is visited exactly when it is on the grid and its
      block [x, x + SIZE) overlaps [minX, maxX), for every sign of the bounds. */
  lemma CorrectedColumnsCover(minX: int, maxX: int, x: int)
    ensures x in CorrectedRangeColumns(minX, maxX) <==> x % SIZE == 0 && minX < x + SIZE && x < maxX
  {
    var s := FloorToGrid(minX);
    ColumnsMembership(s, CeilToGrid(maxX), x);
    assert (x - s) % SIZE == 0 <==> x % SIZE == 0 by {
      assert s == (s / SIZE) * SIZE;
      ModShiftBy(x - s, s / SIZE);
    }
  }

  lemma ModShiftBy(a: int, k: int)
    ensures (a + k * SIZE) % SIZE == a % SIZE
  {
  }

  /** Grid points less than one block apart are ordered as their blocks are. */
  lemma GridOrder(a: int, b: int)
    requires a % SIZE == 0 && b % SIZE == 0 && a < b + SIZE
    ensures a <= b
  {
    var k, l := a / SIZE, b / SIZE;
    assert a == k * SIZE && b == l * SIZE;
    assert k < l + 1;
  }

  /** A grid point is its own floor and ceiling. */
  lemma OnGridFixed(a: int)
    requires a % SIZE == 0
    ensures FloorToGrid(a) == a && CeilToGrid(a) == a
  {
    var k := a / SIZE;
    assert a == k * SIZE;
    assert (a + SIZE - 1) / SIZE == k;
  }

  /** Under the corrected alignment adjacent aligned requests compose for every sign. */
  lemma CorrectedRangeSplit(a: int, b: int, c: int)
    requires a <= b <= c
    requires a % SIZE == 0 && b % SIZE == 0 && c % SIZE == 0
    ensures CorrectedRangeColumns(a, c) == CorrectedRangeColumns(a, b) + CorrectedRangeColumns(b, c)
  {
    OnGridFixed(a);
    OnGridFixed(b);
    OnGridFixed(c);
    ColumnsSplit(a, b, c);
  }
}
