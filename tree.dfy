/** Tree placement (Tree.plantTree): a trunk of 4..7 blocks stacked upward from the
    ground and a 3 x 3 grid of leaf cells above it, each cell skipped on its own draw.
    The parts are returned with the layer plantTree adds them to, so that the
    vegetation planner can use this as its `Tree.createTree`. */
module Tree {
  import opened Grid
  import opened Layers
  import opened Rand

  /** `trunkHeight = 4 + rand.nextInt(4)`. */
  const MIN_TRUNK: int := 4
  const TRUNK_CHOICES: nat := 4

  /** PROB = 0.15f, widened to double where it is compared with `nextDouble()`. */
  const LEAF_SKIP_PROB: real := 0.1500000059604644775390625

  /** The leaf grid is 3 columns (dx = -1, 0, 1) by 3 rows (dy = 0, 1, 2). */
  const LEAF_CELLS: nat := 9

  /** One draw for the trunk height and one per leaf cell. */
  const DRAWS_PER_TREE: nat := 1 + LEAF_CELLS

  /** What a tree part is. plantTree builds both as plain Blocks; `Leaf` stands for a leaf cell,
      which this model takes to be a `Leaf` object (a LayerProvider whose default layer is
      BACKGROUND), the layer plantTree adds leaf cells to. */
  datatype PartKind = Trunk | Leaf

  /** A tree part: its top-left corner, its kind and the layer plantTree adds it to. */
  datatype Part = Part(x: int, y: int, kind: PartKind, layer: Layer)

  /** Leaf.defaultLayer(). */
  const LEAF_LAYER: Layer := Background

  /** The trunk height drawn as draw `p` of stream `k`. */
  function TrunkHeight(o: Oracle, k: StreamKey, p: nat): (h: nat)
    ensures MIN_TRUNK <= h <= MIN_TRUNK + TRUNK_CHOICES - 1
  {
    MIN_TRUNK + IntAt(o, k, p, TRUNK_CHOICES)
  }

  /** The first `n` trunk blocks: block `i` has its top at `groundY - SIZE * (i + 1)`. */
  function TrunkPrefix(x: int, groundY: int, n: nat): (r: seq<Part>)
    ensures |r| == n
  {
    if n == 0 then []
    else TrunkPrefix(x, groundY, n - 1) + [Part(x, groundY - SIZE * n, Trunk, StaticObjects)]
  }

  /** `leafStartY = (int) (groundY - SIZE * trunkHeight)`. */
  function LeafStartY(groundY: int, trunkHeight: int): int
  {
    groundY - SIZE * trunkHeight
  }

  /** Leaf cell `c` of the loops `for dx in -1..1 { for dy in 0..2 }`: `c = (dx + 1) * 3 + dy`. */
  function LeafCell(x: int, leafStartY: int, c: nat): Part
  {
    Part(x + (c / 3 - 1) * SIZE, leafStartY - (c % 3) * SIZE, Leaf, Background)
  }

  /** The leaves of the first `n` cells; cell `c` consumes draw `p + c` and is skipped iff that
      draw is below LEAF_SKIP_PROB. */
  function Leaves(o: Oracle, k: StreamKey, p: nat, x: int, leafStartY: int, n: nat): (r: seq<Part>)
    ensures |r| <= n
  {
    if n == 0 then []
    else
      Leaves(o, k, p, x, leafStartY, n - 1)
      + (if DoubleAt(o, k, p + n - 1) < LEAF_SKIP_PROB then [] else [LeafCell(x, leafStartY, n - 1)])
  }

  /** All parts of the tree planted at column `x` on ground `groundY`, drawing from stream `k`
      starting at draw `p`. */
  function TreeParts(o: Oracle, k: StreamKey, p: nat, x: int, groundY: int): seq<Part>
  {
    var h := TrunkHeight(o, k, p);
    TrunkPrefix(x, groundY, h) + Leaves(o, k, p + 1, x, LeafStartY(groundY, h), LEAF_CELLS)
  }

  /** The cell index of `(dx, dy)` decodes back to that offset. */
  lemma CellIndex(dx: int, dy: int)
    requires -1 <= dx <= 1 && 0 <= dy <= 2
    ensures ((dx + 1) * 3 + dy) / 3 - 1 == dx && ((dx + 1) * 3 + dy) % 3 == dy
  {
  }

  /** Tree.plantTree: one trunk loop, then the nested 3 x 3 leaf loops, consuming `rand`. */
  method PlantTree(x: int, groundY: int, rand: Random) returns (parts: seq<Part>)
    modifies rand
    ensures parts == TreeParts(rand.oracle, rand.key, old(rand.pos), x, groundY)
    ensures rand.pos == old(rand.pos) + DRAWS_PER_TREE
  {
    var r := rand.NextInt(TRUNK_CHOICES);
    var trunkHeight := MIN_TRUNK + r;
    parts := [];
    var i := 0;
    while i < trunkHeight
      invariant 0 <= i <= trunkHeight
      invariant parts == TrunkPrefix(x, groundY, i)
    {
      parts := parts + [Part(x, groundY - SIZE * (i + 1), Trunk, StaticObjects)];
      i := i + 1;
    }
    var leafStartY := groundY - SIZE * trunkHeight;
    var leaves := PlantLeaves(x, leafStartY, rand);
    parts := parts + leaves;
  }

  /** The nested leaf loops of plantTree: cell `(dx, dy)` consumes one draw and holds a leaf
      unless that draw is below PROB. */
  method PlantLeaves(x: int, leafStartY: int, rand: Random) returns (leaves: seq<Part>)
    modifies rand
    ensures leaves == Leaves(rand.oracle, rand.key, old(rand.pos), x, leafStartY, LEAF_CELLS)
    ensures rand.pos == old(rand.pos) + LEAF_CELLS
  {
    ghost var p0, o, k := rand.pos, rand.oracle, rand.key;
    leaves := [];
    var dx := -1;
    while dx <= 1
      invariant -1 <= dx <= 2
      invariant rand.pos == p0 + (dx + 1) * 3
      invariant leaves == Leaves(o, k, p0, x, leafStartY, (dx + 1) * 3)
    {
      var dy := 0;
      while dy <= 2
        invariant 0 <= dy <= 3
        invariant rand.pos == p0 + (dx + 1) * 3 + dy
        invariant leaves == Leaves(o, k, p0, x, leafStartY, (dx + 1) * 3 + dy)
      {
        ghost var c := (dx + 1) * 3 + dy;
        var d := rand.NextDouble();
        assert d == DoubleAt(o, k, p0 + c);
        CellIndex(dx, dy);
        assert LeafCell(x, leafStartY, c) == Part(x + dx * SIZE, leafStartY - dy * SIZE, Leaf, Background);
        if d >= LEAF_SKIP_PROB {
          leaves := leaves + [Part(x + dx * SIZE, leafStartY - dy * SIZE, Leaf, Background)];
        }
        dy := dy + 1;
      }
      dx := dx + 1;
    }
  }

  /** The leaves of the first `n` cells depend only on draws `p .. p + n - 1` of stream `k`. */
  lemma {:induction false} LeavesLocal(o1: Oracle, o2: Oracle, k: StreamKey, p: nat, x: int, ly: int, n: nat)
    requires forall i: nat :: p <= i < p + n ==> o1(k, i) == o2(k, i)
    ensures Leaves(o1, k, p, x, ly, n) == Leaves(o2, k, p, x, ly, n)
  {
    if n > 0 {
      LeavesLocal(o1, o2, k, p, x, ly, n - 1);
      assert o1(k, p + n - 1) == o2(k, p + n - 1);
    }
  }

  /** A tree depends only on the DRAWS_PER_TREE draws of its stream that plantTree consumes. */
  lemma TreePartsLocal(o1: Oracle, o2: Oracle, k: StreamKey, p: nat, x: int, groundY: int)
    requires forall i: nat :: p <= i < p + DRAWS_PER_TREE ==> o1(k, i) == o2(k, i)
    ensures TreeParts(o1, k, p, x, groundY) == TreeParts(o2, k, p, x, groundY)
  {
    assert o1(k, p) == o2(k, p);
    var h := TrunkHeight(o1, k, p);
    LeavesLocal(o1, o2, k, p + 1, x, LeafStartY(groundY, h), LEAF_CELLS);
  }

  // ---------------------------------------------------------------------------
  // Properties of the tree shape

  lemma {:induction false} TrunkPrefixAt(x: int, groundY: int, n: nat, i: int)
    requires 0 <= i < n
    ensures |TrunkPrefix(x, groundY, n)| == n
    ensures TrunkPrefix(x, groundY, n)[i] == Part(x, groundY - SIZE * (i + 1), Trunk, StaticObjects)
  {
    TrunkPrefixLength(x, groundY, n - 1);
    if i < n - 1 {
      TrunkPrefixAt(x, groundY, n - 1, i);
    }
  }

  lemma {:induction false} TrunkPrefixLength(x: int, groundY: int, n: nat)
    ensures |TrunkPrefix(x, groundY, n)| == n
  {
    if n > 0 {
      TrunkPrefixLength(x, groundY, n - 1);
    }
  }

  /** Leaves of the first `n` cells: at most `n` of them, each a Leaf on BACKGROUND at one of the
      first `n` cells. */
  lemma {:induction false} LeavesShape(o: Oracle, k: StreamKey, p: nat, x: int, ly: int, n: nat)
    ensures |Leaves(o, k, p, x, ly, n)| <= n
    ensures forall q :: q in Leaves(o, k, p, x, ly, n) ==>
      q.kind == Leaf && q.layer == Background && exists c :: 0 <= c < n && q == LeafCell(x, ly, c)
  {
    if n > 0 {
      LeavesShape(o, k, p, x, ly, n - 1);
    }
  }

  /** Distinct cells of the 3 x 3 grid are at distinct positions. */
  lemma LeafCellInjective(x: int, ly: int, c: nat, d: nat)
    requires c < LEAF_CELLS && d < LEAF_CELLS && c != d
    ensures LeafCell(x, ly, c) != LeafCell(x, ly, d)
  {
    assert c == (c / 3) * 3 + c % 3;
    assert d == (d / 3) * 3 + d % 3;
  }

  /** Cell `c` holds a leaf exactly when its draw `p + c` is not below LEAF_SKIP_PROB. */
  lemma {:induction false} LeafPresentIff(o: Oracle, k: StreamKey, p: nat, x: int, ly: int, n: nat, c: nat)
    requires n <= LEAF_CELLS && c < LEAF_CELLS
    ensures LeafCell(x, ly, c) in Leaves(o, k, p, x, ly, n) <==> c < n && DoubleAt(o, k, p + c) >= LEAF_SKIP_PROB
  {
    if n > 0 {
      LeafPresentIff(o, k, p, x, ly, n - 1, c);
      if c != n - 1 {
        LeafCellInjective(x, ly, c, n - 1);
      }
    }
  }

  /** A tree is `h` trunk blocks (4 <= h <= 7) followed by at most 9 other parts. Trunk block `i`
      is at `(x, groundY - SIZE * (i + 1))` on STATIC_OBJECTS, and the bottom leaf row starts at
      the top trunk block's y. */
  lemma TreeTrunk(o: Oracle, k: StreamKey, p: nat, x: int, groundY: int)
    ensures var h := TrunkHeight(o, k, p);
      && MIN_TRUNK <= h <= MIN_TRUNK + TRUNK_CHOICES - 1
      && h <= |TreeParts(o, k, p, x, groundY)| <= h + LEAF_CELLS
      && TreeParts(o, k, p, x, groundY)[..h] == TrunkPrefix(x, groundY, h)
      && (forall i :: 0 <= i < h ==>
            TreeParts(o, k, p, x, groundY)[i] == Part(x, groundY - SIZE * (i + 1), Trunk, StaticObjects))
      && TreeParts(o, k, p, x, groundY)[h - 1].y == LeafStartY(groundY, h)
  {
    var h := TrunkHeight(o, k, p);
    var trunk := TrunkPrefix(x, groundY, h);
    var leaves := Leaves(o, k, p + 1, x, LeafStartY(groundY, h), LEAF_CELLS);
    TrunkPrefixLength(x, groundY, h);
    LeavesShape(o, k, p + 1, x, LeafStartY(groundY, h), LEAF_CELLS);
    assert TreeParts(o, k, p, x, groundY) == trunk + leaves;
    forall i | 0 <= i < h
      ensures TreeParts(o, k, p, x, groundY)[i] == Part(x, groundY - SIZE * (i + 1), Trunk, StaticObjects)
    {
      TrunkPrefixAt(x, groundY, h, i);
    }
  }

  /** Cell `(dx, dy)` of the 3 x 3 grid, at `(x + dx * SIZE, leafStartY - dy * SIZE)`, holds a leaf
      exactly when its draw `p + (dx + 1) * 3 + dy` is not below PROB. */
  lemma LeafGrid(o: Oracle, k: StreamKey, p: nat, x: int, ly: int)
    ensures forall dx, dy :: -1 <= dx <= 1 && 0 <= dy <= 2 ==>
      (Part(x + dx * SIZE, ly - dy * SIZE, Leaf, Background) in Leaves(o, k, p, x, ly, LEAF_CELLS)
       <==> DoubleAt(o, k, p + (dx + 1) * 3 + dy) >= LEAF_SKIP_PROB)
  {
    forall dx, dy | -1 <= dx <= 1 && 0 <= dy <= 2
      ensures Part(x + dx * SIZE, ly - dy * SIZE, Leaf, Background) in Leaves(o, k, p, x, ly, LEAF_CELLS)
              <==> DoubleAt(o, k, p + (dx + 1) * 3 + dy) >= LEAF_SKIP_PROB
    {
      CellIndex(dx, dy);
      var c := (dx + 1) * 3 + dy;
      assert LeafCell(x, ly, c) == Part(x + dx * SIZE, ly - dy * SIZE, Leaf, Background);
      LeafPresentIff(o, k, p, x, ly, LEAF_CELLS, c);
    }
  }

  /** After the trunk come only the leaves of the 3 x 3 grid, whose first draw follows the
      trunk-height draw; with LeavesShape and LeafGrid, every one is a Leaf on BACKGROUND. */
  lemma TreeLeaves(o: Oracle, k: StreamKey, p: nat, x: int, groundY: int, q: Part)
    requires q in TreeParts(o, k, p, x, groundY)
    ensures q.kind == Trunk <==> q in TrunkPrefix(x, groundY, TrunkHeight(o, k, p))
    ensures q.kind == Leaf <==> q in Leaves(o, k, p + 1, x, LeafStartY(groundY, TrunkHeight(o, k, p)), LEAF_CELLS)
    ensures q.kind == Trunk ==> q.layer == StaticObjects
    ensures q.kind == Leaf ==> q.layer == Background
  {
    var h := TrunkHeight(o, k, p);
    var ly := LeafStartY(groundY, h);
    LeavesShape(o, k, p + 1, x, ly, LEAF_CELLS);
    TrunkKinds(x, groundY, h);
  }

  /** Every trunk block is a Trunk on STATIC_OBJECTS. */
  lemma {:induction false} TrunkKinds(x: int, groundY: int, n: nat)
    ensures forall q :: q in TrunkPrefix(x, groundY, n) ==> q.kind == Trunk && q.layer == StaticObjects
  {
    if n > 0 {
      TrunkKinds(x, groundY, n - 1);
    }
  }
}
