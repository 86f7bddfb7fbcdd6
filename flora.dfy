/** The vegetation planner (Flora.createInRange): for each column of a request, in
    increasing x, a salt-0 draw decides whether a tree stands there; a tree column
    queries the ground height at x and plants a tree from its salt-1 stream; every
    part is returned with its layer (its `defaultLayer()` when it is a
    LayerProvider, STATIC_OBJECTS otherwise). All randomness is keyed on
    (x, salt, worldSeed). */
module Flora {
  import opened Grid
  import opened Layers
  import opened Rand
  import opened Tree

  /** TREE_PROBABILITY = 0.10, as the double nearest to it. */
  const TREE_PROBABILITY: real := 0.1000000000000000055511151231257827021181583404541015625

  /** `record LayeredObject(int layer, GameObject obj)`. */
  datatype LayeredObject = LayeredObject(layer: Layer, part: Part)

  /** `rngForX(x, salt)`: the stream seeded with `Objects.hash(x, salt, worldSeed)`. */
  function RngForX(x: int, salt: int, worldSeed: int): StreamKey
  {
    StreamKey(x, salt, worldSeed)
  }

  /** The layer rule: a LayerProvider's `defaultLayer()`, STATIC_OBJECTS for anything else.
      A trunk Block is not a LayerProvider; Leaf is (BACKGROUND). */
  function LayerFor(kind: PartKind): Layer
  {
    match kind
    case Trunk => StaticObjects
    case Leaf => LEAF_LAYER
  }

  /** The salt-0 draw of column `x` is below TREE_PROBABILITY. */
  predicate HasTree(o: Oracle, worldSeed: int, x: int)
  {
    DoubleAt(o, RngForX(x, 0, worldSeed), 0) < TREE_PROBABILITY
  }

  /** The parts paired with their layers, in order. */
  function Layered(parts: seq<Part>): (r: seq<LayeredObject>)
    ensures |r| == |parts|
  {
    if parts == [] then []
    else Layered(parts[..|parts| - 1]) + [LayeredObject(LayerFor(parts[|parts| - 1].kind), parts[|parts| - 1])]
  }

  /** What column `x` contributes: nothing, or the tree built from the salt-1 stream on the
      ground height at x. */
  function ColumnObjects(o: Oracle, height: int -> int, worldSeed: int, x: int): seq<LayeredObject>
  {
    if !HasTree(o, worldSeed, x) then []
    else Layered(TreeParts(o, RngForX(x, 1, worldSeed), 0, x, height(x)))
  }

  /** The objects of the given columns, column after column. */
  function ObjectsOver(o: Oracle, height: int -> int, worldSeed: int, cols: seq<int>): seq<LayeredObject>
  {
    if cols == [] then []
    else ColumnObjects(o, height, worldSeed, cols[0]) + ObjectsOver(o, height, worldSeed, cols[1..])
  }

  /** What `createInRange(minX, maxX)` returns. */
  function Objects(o: Oracle, height: int -> int, worldSeed: int, minX: int, maxX: int): seq<LayeredObject>
  {
    ObjectsOver(o, height, worldSeed, RangeColumns(minX, maxX))
  }

  /** The tree columns among `cols`, in order: where the ground height gets queried. */
  function TreeColumns(o: Oracle, worldSeed: int, cols: seq<int>): seq<int>
  {
    if cols == [] then []
    else (if HasTree(o, worldSeed, cols[0]) then [cols[0]] else []) + TreeColumns(o, worldSeed, cols[1..])
  }

  /** Flora.createInRange over the column loop. Besides the objects it returns the x-values at which
      it queried the ground height, in order of the queries. */
  method CreateInRange(o: Oracle, height: int -> int, worldSeed: int, minX: int, maxX: int)
    returns (out: seq<LayeredObject>, queried: seq<int>)
    ensures out == Objects(o, height, worldSeed, minX, maxX)
    ensures queried == TreeColumns(o, worldSeed, RangeColumns(minX, maxX))
  {
    out, queried := [], [];
    var startX := AlignStart(minX);  // (minX / SIZE) * SIZE
    var endX := AlignEnd(maxX);      // ((maxX + SIZE - 1) / SIZE) * SIZE
    var x := startX;
    ghost var allObjects := Objects(o, height, worldSeed, minX, maxX);
    ghost var allQueried := TreeColumns(o, worldSeed, RangeColumns(minX, maxX));
    while x < endX
      invariant out + ObjectsOver(o, height, worldSeed, Columns(x, endX)) == allObjects
      invariant queried + TreeColumns(o, worldSeed, Columns(x, endX)) == allQueried
      decreases endX - x
    {
      var objs, hasTree := PlantColumn(o, height, worldSeed, x);
      ColumnAdvance(o, height, worldSeed, x, endX, out, queried, allObjects, allQueried);
      if hasTree {
        out := out + objs;
        queried := queried + [x];
      }
      x := x + SIZE;
    }
  }

  /** The body of the column loop for column `x`: the salt-0 presence draw and, for a tree
      column, the ground-height query, the tree from the salt-1 stream and its layered parts. */
  method PlantColumn(o: Oracle, height: int -> int, worldSeed: int, x: int)
    returns (objs: seq<LayeredObject>, hasTree: bool)
    ensures hasTree == HasTree(o, worldSeed, x)
    ensures objs == ColumnObjects(o, height, worldSeed, x)
  {
    var presence := new Random(o, RngForX(x, 0, worldSeed));
    var draw := presence.NextDouble();
    hasTree := draw < TREE_PROBABILITY;
    if !hasTree {
      return [], false;
    }
    var groundY := height(x);
    var treeRng := new Random(o, RngForX(x, 1, worldSeed));
    var parts := PlantTree(x, groundY, treeRng);
    objs := LayerParts(parts);
  }

  /** One step of the column loop: the first visited column, then the rest. */
  lemma ColumnStep(o: Oracle, height: int -> int, worldSeed: int, x: int, endX: int)
    requires x < endX
    ensures HasTree(o, worldSeed, x) ==>
      && ObjectsOver(o, height, worldSeed, Columns(x, endX))
         == ColumnObjects(o, height, worldSeed, x) + ObjectsOver(o, height, worldSeed, Columns(x + SIZE, endX))
      && TreeColumns(o, worldSeed, Columns(x, endX)) == [x] + TreeColumns(o, worldSeed, Columns(x + SIZE, endX))
    ensures !HasTree(o, worldSeed, x) ==>
      && ObjectsOver(o, height, worldSeed, Columns(x, endX)) == ObjectsOver(o, height, worldSeed, Columns(x + SIZE, endX))
      && TreeColumns(o, worldSeed, Columns(x, endX)) == TreeColumns(o, worldSeed, Columns(x + SIZE, endX))
  {
    ColumnsStep(x, endX);
    if !HasTree(o, worldSeed, x) {
      assert ColumnObjects(o, height, worldSeed, x) == [];
    }
  }

  /** The loop invariants carried past column `x`: a tree column moves its objects and its x to
      the accumulators, any other column moves nothing. */
  lemma ColumnAdvance(o: Oracle, height: int -> int, worldSeed: int, x: int, endX: int,
                      out: seq<LayeredObject>, queried: seq<int>,
                      allObjects: seq<LayeredObject>, allQueried: seq<int>)
    requires x < endX
    requires out + ObjectsOver(o, height, worldSeed, Columns(x, endX)) == allObjects
    requires queried + TreeColumns(o, worldSeed, Columns(x, endX)) == allQueried
    ensures HasTree(o, worldSeed, x) ==>
      && (out + ColumnObjects(o, height, worldSeed, x)) + ObjectsOver(o, height, worldSeed, Columns(x + SIZE, endX)) == allObjects
      && (queried + [x]) + TreeColumns(o, worldSeed, Columns(x + SIZE, endX)) == allQueried
    ensures !HasTree(o, worldSeed, x) ==>
      && out + ObjectsOver(o, height, worldSeed, Columns(x + SIZE, endX)) == allObjects
      && queried + TreeColumns(o, worldSeed, Columns(x + SIZE, endX)) == allQueried
  {
    ColumnStep(o, height, worldSeed, x, endX);
    if HasTree(o, worldSeed, x) {
      MoveHead(out, ColumnObjects(o, height, worldSeed, x), ObjectsOver(o, height, worldSeed, Columns(x + SIZE, endX)), allObjects);
      MoveHead(queried, [x], TreeColumns(o, worldSeed, Columns(x + SIZE, endX)), allQueried);
    }
  }

  /** An accumulator step: the head of what is left moves to what is done. */
  lemma MoveHead<T>(done: seq<T>, head: seq<T>, rest: seq<T>, all: seq<T>)
    requires done + (head + rest) == all
    ensures (done + head) + rest == all
  {
  }

  /** The inner loop of createInRange: each part of a tree with its layer, in order. */
  method LayerParts(parts: seq<Part>) returns (out: seq<LayeredObject>)
    ensures out == Layered(parts)
  {
    out := [];
    var j := 0;
    while j < |parts|
      invariant 0 <= j <= |parts|
      invariant out == Layered(parts[..j])
    {
      var layer := LayerFor(parts[j].kind);
      assert parts[..j + 1][..j] == parts[..j];
      out := out + [LayeredObject(layer, parts[j])];
      j := j + 1;
    }
    assert parts[..|parts|] == parts;
  }

  // ---------------------------------------------------------------------------
  // Properties of the planner

  lemma {:induction false} LayeredAt(parts: seq<Part>, i: int)
    requires 0 <= i < |parts|
    ensures Layered(parts)[i] == LayeredObject(LayerFor(parts[i].kind), parts[i])
  {
    if i < |parts| - 1 {
      LayeredAt(parts[..|parts| - 1], i);
    }
  }

  /** A column yields objects exactly when its salt-0 draw is below TREE_PROBABILITY. */
  lemma ColumnYieldsIff(o: Oracle, height: int -> int, worldSeed: int, x: int)
    ensures ColumnObjects(o, height, worldSeed, x) != [] <==> HasTree(o, worldSeed, x)
  {
    if HasTree(o, worldSeed, x) {
      TreeTrunk(o, RngForX(x, 1, worldSeed), 0, x, height(x));
    }
  }

  /** What a tree column contributes: its tree's parts in plantTree's order, each paired with the
      layer of the LayerProvider rule, which is the layer plantTree adds it to (trunk blocks on
      STATIC_OBJECTS, leaves, taken to be Leaf objects, on BACKGROUND). */
  lemma ColumnLayers(o: Oracle, height: int -> int, worldSeed: int, x: int, i: int)
    requires HasTree(o, worldSeed, x)
    requires 0 <= i < |ColumnObjects(o, height, worldSeed, x)|
    ensures var parts := TreeParts(o, RngForX(x, 1, worldSeed), 0, x, height(x));
      var obj := ColumnObjects(o, height, worldSeed, x)[i];
      && |ColumnObjects(o, height, worldSeed, x)| == |parts|
      && obj.part == parts[i]
      && obj.layer == obj.part.layer
      && (obj.layer == Background <==> obj.part.kind == Leaf)
  {
    var parts := TreeParts(o, RngForX(x, 1, worldSeed), 0, x, height(x));
    LayeredAt(parts, i);
    assert parts[i] in parts;
    TreeLeaves(o, RngForX(x, 1, worldSeed), 0, x, height(x), parts[i]);
  }

  /** Coordinate determinism: what column `x` contributes depends only on the first draw of its
      salt-0 stream, the DRAWS_PER_TREE draws of its salt-1 stream and the ground height at `x`.
      Two worlds that agree on those give the column the same objects, whatever else was drawn
      or generated before. */
  lemma ColumnLocal(o1: Oracle, o2: Oracle, h1: int -> int, h2: int -> int, worldSeed: int, x: int)
    requires o1(RngForX(x, 0, worldSeed), 0) == o2(RngForX(x, 0, worldSeed), 0)
    requires forall i: nat :: i < DRAWS_PER_TREE ==>
      o1(RngForX(x, 1, worldSeed), i) == o2(RngForX(x, 1, worldSeed), i)
    requires h1(x) == h2(x)
    ensures HasTree(o1, worldSeed, x) == HasTree(o2, worldSeed, x)
    ensures ColumnObjects(o1, h1, worldSeed, x) == ColumnObjects(o2, h2, worldSeed, x)
  {
    TreePartsLocal(o1, o2, RngForX(x, 1, worldSeed), 0, x, h1(x));
  }

  /** An object is produced exactly when some visited column contributes it; what a column
      contributes depends only on the oracle, the seed, x and the ground height at x, so the
      output for a column is the same whatever request visits it. */
  lemma {:induction false} ObjectsOverMembership(o: Oracle, height: int -> int, worldSeed: int, cols: seq<int>, obj: LayeredObject)
    ensures obj in ObjectsOver(o, height, worldSeed, cols) <==>
      exists i :: 0 <= i < |cols| && obj in ColumnObjects(o, height, worldSeed, cols[i])
  {
    if cols != [] {
      ObjectsOverMembership(o, height, worldSeed, cols[1..], obj);
      if obj in ObjectsOver(o, height, worldSeed, cols[1..]) {
        var i :| 0 <= i < |cols[1..]| && obj in ColumnObjects(o, height, worldSeed, cols[1..][i]);
        assert cols[i + 1] == cols[1..][i];
      }
      if exists i :: 0 <= i < |cols| && obj in ColumnObjects(o, height, worldSeed, cols[i]) {
        var i :| 0 <= i < |cols| && obj in ColumnObjects(o, height, worldSeed, cols[i]);
        if i > 0 {
          assert cols[1..][i - 1] == cols[i];
        }
      }
    }
  }

  /** Vegetation is stable: if two requests both visit column `x`, both contain everything `x`
      contributes, with the same parts and layers. */
  lemma ColumnStable(o: Oracle, height: int -> int, worldSeed: int, minX1: int, maxX1: int, minX2: int, maxX2: int, x: int)
    requires x in RangeColumns(minX1, maxX1) && x in RangeColumns(minX2, maxX2)
    ensures forall obj :: obj in ColumnObjects(o, height, worldSeed, x) ==>
      obj in Objects(o, height, worldSeed, minX1, maxX1) && obj in Objects(o, height, worldSeed, minX2, maxX2)
  {
    forall obj | obj in ColumnObjects(o, height, worldSeed, x)
      ensures obj in Objects(o, height, worldSeed, minX1, maxX1) && obj in Objects(o, height, worldSeed, minX2, maxX2)
    {
      var c1, c2 := RangeColumns(minX1, maxX1), RangeColumns(minX2, maxX2);
      var i1 :| 0 <= i1 < |c1| && c1[i1] == x;
      var i2 :| 0 <= i2 < |c2| && c2[i2] == x;
      ObjectsOverMembership(o, height, worldSeed, c1, obj);
      ObjectsOverMembership(o, height, worldSeed, c2, obj);
    }
  }

  lemma {:induction false} ObjectsOverAppend(o: Oracle, height: int -> int, worldSeed: int, c1: seq<int>, c2: seq<int>)
    ensures ObjectsOver(o, height, worldSeed, c1 + c2) == ObjectsOver(o, height, worldSeed, c1) + ObjectsOver(o, height, worldSeed, c2)
  {
    if c1 == [] {
      assert c1 + c2 == c2;
    } else {
      assert (c1 + c2)[1..] == c1[1..] + c2;
      ObjectsOverAppend(o, height, worldSeed, c1[1..], c2);
    }
  }

  /** Aligned requests compose: [a, c) yields the objects of [a, b) followed by those of [b, c). */
  lemma ObjectsSplit(o: Oracle, height: int -> int, worldSeed: int, a: int, b: int, c: int)
    requires a <= b <= c && 0 <= b
    requires a % SIZE == 0 && b % SIZE == 0 && c % SIZE == 0
    ensures Objects(o, height, worldSeed, a, c) == Objects(o, height, worldSeed, a, b) + Objects(o, height, worldSeed, b, c)
  {
    RangeColumnsSplit(a, b, c);
    ObjectsOverAppend(o, height, worldSeed, RangeColumns(a, b), RangeColumns(b, c));
  }

  /** Only tree columns are queried for their ground height: the queried x-values are exactly the
      visited columns whose salt-0 draw is below TREE_PROBABILITY. */
  lemma {:induction false} TreeColumnsMembership(o: Oracle, worldSeed: int, cols: seq<int>, x: int)
    ensures x in TreeColumns(o, worldSeed, cols) <==> x in cols && HasTree(o, worldSeed, x)
  {
    if cols != [] {
      TreeColumnsMembership(o, worldSeed, cols[1..], x);
    }
  }
}
