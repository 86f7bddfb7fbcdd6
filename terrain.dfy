/** The ground block grid (Terrain.createInRange): every column of a request gets
    TERRAIN_DEPTH blocks stacked downward from the surface, snapped to the grid.
    The noise-based surface `groundHeightAt` is a parameter `height`, giving the
    int part of the height at a column. */
module Terrain {
  import opened Grid

  /** Number of blocks stacked in each column (TERRAIN_DEPTH). */
  const TERRAIN_DEPTH: int := 20

  /** Tag every ground block carries. */
  const GROUND_TAG: string := "ground"

  /** A ground block: its top-left corner and its tag. */
  datatype Block = Block(x: int, y: int, tag: string)

  /** Surface snapped to the grid: `((int) (rawHeight / SIZE)) * SIZE`. The cast truncates, so
      the result is the grid point between `rawHeight` and zero. */
  function TopBlockY(rawHeight: int): (y: int)
    ensures y % SIZE == 0
    ensures rawHeight >= 0 ==> 0 <= y <= rawHeight < y + SIZE
    ensures rawHeight < 0 ==> y - SIZE < rawHeight <= y <= 0
  {
    JavaDiv(rawHeight, SIZE) * SIZE
  }

  /** Block `i` from the top of the column at `x` whose top block is at `top`. */
  function ColumnBlock(x: int, top: int, i: int): Block
  {
    Block(x, top + i * SIZE, GROUND_TAG)
  }

  /** The first `n` blocks of a column, top first. */
  function ColumnPrefix(x: int, top: int, n: nat): seq<Block>
  {
    if n == 0 then [] else ColumnPrefix(x, top, n - 1) + [ColumnBlock(x, top, n - 1)]
  }

  /** The whole column at `x`. */
  function Column(height: int -> int, x: int): seq<Block>
  {
    ColumnPrefix(x, TopBlockY(height(x)), TERRAIN_DEPTH)
  }

  /** The blocks of the given columns, column after column. */
  function BlocksOver(height: int -> int, cols: seq<int>): seq<Block>
  {
    if cols == [] then [] else Column(height, cols[0]) + BlocksOver(height, cols[1..])
  }

  /** What `createInRange(minX, maxX)` returns. */
  function Blocks(height: int -> int, minX: int, maxX: int): seq<Block>
  {
    BlocksOver(height, RangeColumns(minX, maxX))
  }

  /** Terrain.createInRange: the nested column and depth loops. */
  method CreateInRange(height: int -> int, minX: int, maxX: int) returns (blocks: seq<Block>)
    ensures blocks == Blocks(height, minX, maxX)
  {
    blocks := [];
    var startX := AlignStart(minX);  // (minX / SIZE) * SIZE
    var endX := AlignEnd(maxX);      // ((maxX + SIZE - 1) / SIZE) * SIZE
    var x := startX;
    ghost var total := Blocks(height, minX, maxX);
    while x < endX
      invariant blocks + BlocksOver(height, Columns(x, endX)) == total
      decreases endX - x
    {
      var rawHeight := height(x);
      var topBlockY := JavaDiv(rawHeight, SIZE) * SIZE;
      ghost var before := blocks;
      var column := StackColumn(x, topBlockY);
      blocks := blocks + column;
      ColumnAdvance(height, x, endX, before, total);
      x := x + SIZE;
    }
  }

  method StackColumn(x: int, topBlockY: int) returns (column: seq<Block>)
    ensures column == ColumnPrefix(x, topBlockY, TERRAIN_DEPTH)
  {
    column := [];
    var i := 0;
    while i < TERRAIN_DEPTH
      invariant 0 <= i <= TERRAIN_DEPTH
      invariant column == ColumnPrefix(x, topBlockY, i)
    {
      var blockY := topBlockY + i * SIZE;
      column := column + [Block(x, blockY, GROUND_TAG)];
      i := i + 1;
    }
  }

  lemma ColumnAdvance(height: int -> int, x: int, endX: int, done: seq<Block>, total: seq<Block>)
    requires x < endX
    requires done + BlocksOver(height, Columns(x, endX)) == total
    ensures (done + Column(height, x)) + BlocksOver(height, Columns(x + SIZE, endX)) == total
  {
    assert Columns(x, endX) == [x] + Columns(x + SIZE, endX);
  }

  lemma {:induction false} ColumnPrefixAt(x: int, top: int, n: nat, i: int)
    requires 0 <= i < n
    ensures |ColumnPrefix(x, top, n)| == n
    ensures ColumnPrefix(x, top, n)[i] == ColumnBlock(x, top, i)
  {
    if i < n - 1 {
      ColumnPrefixAt(x, top, n - 1, i);
    } else if n > 1 {
      ColumnPrefixAt(x, top, n - 1, 0);
    }
  }

  lemma {:induction false} ColumnPrefixLength(x: int, top: int, n: nat)
    ensures |ColumnPrefix(x, top, n)| == n
  {
    if n > 0 {
      ColumnPrefixLength(x, top, n - 1);
    }
  }

  /** A block is in a column prefix exactly when it is one of its `n` grid cells below `top`. */
  lemma {:induction false} ColumnPrefixMembership(x: int, top: int, n: nat, b: Block)
    ensures b in ColumnPrefix(x, top, n) <==>
      b.x == x && b.tag == GROUND_TAG && top <= b.y < top + n * SIZE && (b.y - top) % SIZE == 0
  {
    if n > 0 {
      ColumnPrefixMembership(x, top, n - 1, b);
      if b.y == top + (n - 1) * SIZE {
        ModShiftBy(0, n - 1);
      }
      if top <= b.y < top + n * SIZE && (b.y - top) % SIZE == 0 && b.y != top + (n - 1) * SIZE {
        assert b.y < top + (n - 1) * SIZE by {
          var k := (b.y - top) / SIZE;
          assert b.y - top == k * SIZE;
        }
      }
    }
  }

  /** Every column contributes exactly TERRAIN_DEPTH blocks. */
  lemma {:induction false} BlockCountOver(height: int -> int, cols: seq<int>)
    ensures |BlocksOver(height, cols)| == TERRAIN_DEPTH * |cols|
  {
    if cols != [] {
      ColumnPrefixLength(cols[0], TopBlockY(height(cols[0])), TERRAIN_DEPTH);
      BlockCountOver(height, cols[1..]);
    }
  }

  /** Block `k` of the output is block `k % 20` of column `k / 20`: it sits at
      `(x, topBlockY + (k % 20) * SIZE)` with `topBlockY` the snapped surface at `x`. */
  lemma {:induction false} BlockAtOver(height: int -> int, cols: seq<int>, k: int)
    requires 0 <= k < TERRAIN_DEPTH * |cols|
    ensures |BlocksOver(height, cols)| == TERRAIN_DEPTH * |cols|
    ensures BlocksOver(height, cols)[k] ==
      Block(cols[k / TERRAIN_DEPTH], TopBlockY(height(cols[k / TERRAIN_DEPTH])) + (k % TERRAIN_DEPTH) * SIZE, GROUND_TAG)
  {
    BlockCountOver(height, cols);
    var top := TopBlockY(height(cols[0]));
    ColumnPrefixLength(cols[0], top, TERRAIN_DEPTH);
    if k < TERRAIN_DEPTH {
      ColumnPrefixAt(cols[0], top, TERRAIN_DEPTH, k);
    } else {
      BlockAtOver(height, cols[1..], k - TERRAIN_DEPTH);
      assert (k - TERRAIN_DEPTH) / TERRAIN_DEPTH == k / TERRAIN_DEPTH - 1;
      assert (k - TERRAIN_DEPTH) % TERRAIN_DEPTH == k % TERRAIN_DEPTH;
    }
  }

  /** The output holds 20 blocks per visited column, in column order, block `i` of a column at
      `(x, topBlockY + i * SIZE)`. */
  lemma BlockLayout(height: int -> int, minX: int, maxX: int, k: int)
    requires 0 <= k < |Blocks(height, minX, maxX)|
    ensures |Blocks(height, minX, maxX)| == TERRAIN_DEPTH * |RangeColumns(minX, maxX)|
    ensures var x := RangeColumns(minX, maxX)[k / TERRAIN_DEPTH];
      Blocks(height, minX, maxX)[k] == Block(x, TopBlockY(height(x)) + (k % TERRAIN_DEPTH) * SIZE, GROUND_TAG)
  {
    BlockCountOver(height, RangeColumns(minX, maxX));
    BlockAtOver(height, RangeColumns(minX, maxX), k);
  }

  /** A block is produced exactly when its x is a visited column and it is one of the 20 grid
      cells from that column's snapped surface downward; in particular every block is tagged "ground". */
  lemma {:induction false} BlocksOverMembership(height: int -> int, cols: seq<int>, b: Block)
    ensures b in BlocksOver(height, cols) <==>
      b.x in cols && b in Column(height, b.x)
  {
    if cols != [] {
      BlocksOverMembership(height, cols[1..], b);
      ColumnPrefixMembership(cols[0], TopBlockY(height(cols[0])), TERRAIN_DEPTH, b);
    }
  }

  lemma BlocksMembership(height: int -> int, minX: int, maxX: int, b: Block)
    ensures b in Blocks(height, minX, maxX) <==>
      && b.x in RangeColumns(minX, maxX)
      && b.tag == GROUND_TAG
      && TopBlockY(height(b.x)) <= b.y < TopBlockY(height(b.x)) + TERRAIN_DEPTH * SIZE
      && (b.y - TopBlockY(height(b.x))) % SIZE == 0
  {
    BlocksOverMembership(height, RangeColumns(minX, maxX), b);
    ColumnPrefixMembership(b.x, TopBlockY(height(b.x)), TERRAIN_DEPTH, b);
  }

  /** Two requests that both visit a column produce the same blocks in it, whatever their bounds. */
  lemma OverlapAgrees(height: int -> int, minX1: int, maxX1: int, minX2: int, maxX2: int, b: Block)
    requires b.x in RangeColumns(minX1, maxX1) && b.x in RangeColumns(minX2, maxX2)
    ensures b in Blocks(height, minX1, maxX1) <==> b in Blocks(height, minX2, maxX2)
  {
    BlocksMembership(height, minX1, maxX1, b);
    BlocksMembership(height, minX2, maxX2, b);
  }

  /** Every produced block is tagged "ground". */
  lemma AllGround(height: int -> int, minX: int, maxX: int, b: Block)
    requires b in Blocks(height, minX, maxX)
    ensures b.tag == GROUND_TAG
  {
    BlocksMembership(height, minX, maxX, b);
  }

  lemma {:induction false} BlocksOverAppend(height: int -> int, c1: seq<int>, c2: seq<int>)
    ensures BlocksOver(height, c1 + c2) == BlocksOver(height, c1) + BlocksOver(height, c2)
  {
    if c1 == [] {
      assert c1 + c2 == c2;
    } else {
      assert (c1 + c2)[1..] == c1[1..] + c2;
      BlocksOverAppend(height, c1[1..], c2);
    }
  }

  /** Aligned requests compose: [a, c) yields the blocks of [a, b) followed by those of [b, c). */
  lemma BlocksSplit(height: int -> int, a: int, b: int, c: int)
    requires a <= b <= c && 0 <= b
    requires a % SIZE == 0 && b % SIZE == 0 && c % SIZE == 0
    ensures Blocks(height, a, c) == Blocks(height, a, b) + Blocks(height, b, c)
  {
    RangeColumnsSplit(a, b, c);
    BlocksOverAppend(height, RangeColumns(a, b), RangeColumns(b, c));
  }
}
