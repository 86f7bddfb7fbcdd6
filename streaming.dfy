/** World streaming (InfiniteWorldManager.update): the generated strip [minGeneratedX,
    maxGeneratedX) grows by CHUNK pixels on a side whenever the camera edge on that
    side, widened by BUFFER, leaves it; each growth is announced through the
    `onRangeNeeded(lo, hi)` callback with the new strip. The camera edges arrive as
    reals, and whether a callback call throws is an input of the frame. */
module Streaming {
  import opened Grid
  import Terrain

  /** How far beyond the camera edge the world is kept filled (`Block.SIZE * 2`). */
  const BUFFER: int := SIZE * 2

  /** Blocks added per growth step. */
  const BLOCK_BUFFER: int := 20

  /** Pixels added per growth step (`Block.SIZE * BLOCK_BUFFER`). */
  const CHUNK: int := SIZE * BLOCK_BUFFER

  /** One `onRangeNeeded.accept(lo, hi)` call. */
  datatype Range = Range(lo: int, hi: int)

  /** The generated bounds. */
  datatype Window = Window(min: int, max: int)

  /** One frame: the camera edges the suppliers return and whether each callback call throws. */
  datatype Frame = Frame(camLeft: real, camRight: real, leftThrows: bool, rightThrows: bool)

  /** The bounds after a frame, the callback calls made in it, and whether one of them threw. */
  datatype Outcome = Outcome(window: Window, requests: seq<Range>, thrown: bool)

  /** The left test: the buffered left camera edge is left of the generated strip. */
  predicate LeftNeeded(w: Window, camLeft: real)
  {
    camLeft - BUFFER as real < w.min as real
  }

  /** The right test: the buffered right camera edge is right of the generated strip. */
  predicate RightNeeded(w: Window, camRight: real)
  {
    camRight + BUFFER as real > w.max as real
  }

  /** The buffered camera view lies inside the window: neither test fires. */
  predicate Covers(w: Window, f: Frame)
  {
    !LeftNeeded(w, f.camLeft) && !RightNeeded(w, f.camRight)
  }

  /** The right half of update, after `before` calls were made. A throwing callback ends the frame
      with the bound not updated. */
  function RightHalf(w: Window, f: Frame, before: seq<Range>): Outcome
  {
    if !RightNeeded(w, f.camRight) then Outcome(w, before, false)
    else if f.rightThrows then Outcome(w, before + [Range(w.max, w.max + CHUNK)], true)
    else Outcome(w.(max := w.max + CHUNK), before + [Range(w.max, w.max + CHUNK)], false)
  }

  /** One call of InfiniteWorldManager.update. A left callback that throws ends the frame there:
      minGeneratedX is not updated and the right test is not reached. */
  function Step(w: Window, f: Frame): (r: Outcome)
    ensures r.window.min == w.min || r.window.min == w.min - CHUNK
    ensures r.window.max == w.max || r.window.max == w.max + CHUNK
    ensures |r.requests| <= 2
    ensures forall q :: q in r.requests ==>
      q.hi - q.lo == CHUNK && (q == Range(w.min - CHUNK, w.min) || q == Range(w.max, w.max + CHUNK))
    ensures LeftNeeded(w, f.camLeft) ==> |r.requests| >= 1 && r.requests[0] == Range(w.min - CHUNK, w.min)
    ensures w.min <= w.max ==>
      && (LeftNeeded(w, f.camLeft) <==> Range(w.min - CHUNK, w.min) in r.requests)
      && (Range(w.max, w.max + CHUNK) in r.requests <==>
            RightNeeded(w, f.camRight) && !(LeftNeeded(w, f.camLeft) && f.leftThrows))
    ensures !r.thrown ==>
      && (r.window.min < w.min <==> LeftNeeded(w, f.camLeft))
      && (r.window.max > w.max <==> RightNeeded(w, f.camRight))
      && r.window.max - r.window.min == w.max - w.min + CHUNK * |r.requests|
    ensures Covers(w, f) ==> r == Outcome(w, [], false)
    ensures LeftNeeded(w, f.camLeft) && f.leftThrows ==> r == Outcome(w, [Range(w.min - CHUNK, w.min)], true)
    ensures r.thrown ==> r.window.max == w.max
    ensures w.min <= w.max ==> r.window.min <= r.window.max
  {
    if !LeftNeeded(w, f.camLeft) then RightHalf(w, f, [])
    else if f.leftThrows then Outcome(w, [Range(w.min - CHUNK, w.min)], true)
    else RightHalf(w.(min := w.min - CHUNK), f, [Range(w.min - CHUNK, w.min)])
  }

  /** The frames in order: the final bounds, every callback call, and whether any threw. */
  function Run(w0: Window, frames: seq<Frame>): Outcome
    decreases |frames|
  {
    if frames == [] then Outcome(w0, [], false)
    else
      var prev := Run(w0, frames[..|frames| - 1]);
      var last := Step(prev.window, frames[|frames| - 1]);
      Outcome(last.window, prev.requests + last.requests, prev.thrown || last.thrown)
  }

  /** No callback call throws in any frame. */
  predicate NoThrows(frames: seq<Frame>)
  {
    forall i :: 0 <= i < |frames| ==> !frames[i].leftThrows && !frames[i].rightThrows
  }

  /** The requests, in order, each extend the window by the chunk adjacent to it, leading from
      `w0` to `w`. */
  predicate Tiling(w0: Window, requests: seq<Range>, w: Window)
    decreases |requests|
  {
    if requests == [] then w == w0
    else
      var q := requests[|requests| - 1];
      var rest := requests[..|requests| - 1];
      (q == Range(w.min, w.min + CHUNK) && Tiling(w0, rest, Window(w.min + CHUNK, w.max)))
      || (q == Range(w.max - CHUNK, w.max) && Tiling(w0, rest, Window(w.min, w.max - CHUNK)))
  }

  /** The generated bounds as a class, as in the source. */
  class InfiniteWorldManager {
    var minGeneratedX: int
    var maxGeneratedX: int

    function Bounds(): Window
      reads this
    {
      Window(minGeneratedX, maxGeneratedX)
    }

    constructor (initialMinX: int, initialMaxX: int)
      ensures Bounds() == Window(initialMinX, initialMaxX)
    {
      minGeneratedX := initialMinX;
      maxGeneratedX := initialMaxX;
    }

    /** InfiniteWorldManager.update: the left test, then the right test, each growing its bound after
        its callback returns. `requests` are the callback calls in order; `thrown` that one threw and
        ended the frame. */
    method Update(camLeft: real, camRight: real, leftThrows: bool, rightThrows: bool)
      returns (requests: seq<Range>, thrown: bool)
      modifies this
      ensures Outcome(Bounds(), requests, thrown) == Step(old(Bounds()), Frame(camLeft, camRight, leftThrows, rightThrows))
    {
      requests, thrown := [], false;
      if camLeft - BUFFER as real < minGeneratedX as real {
        var newMin := minGeneratedX - SIZE * BLOCK_BUFFER;
        requests := requests + [Range(newMin, minGeneratedX)];
        if leftThrows {
          return requests, true;
        }
        minGeneratedX := newMin;
      }
      if camRight + BUFFER as real > maxGeneratedX as real {
        var newMax := maxGeneratedX + SIZE * BLOCK_BUFFER;
        requests := requests + [Range(maxGeneratedX, newMax)];
        if rightThrows {
          return requests, true;
        }
        maxGeneratedX := newMax;
      }
    }
  }

  // ---------------------------------------------------------------------------
  // Keeping up with the camera

  /** The buffered camera view is at most one chunk beyond the window on either side. */
  predicate WithinChunk(w: Window, f: Frame)
  {
    (w.min - CHUNK) as real <= f.camLeft - BUFFER as real && f.camRight + BUFFER as real <= (w.max + CHUNK) as real
  }

  /** Each camera edge moves at most one chunk from frame `f` to frame `g`. */
  predicate SlowMove(f: Frame, g: Frame)
  {
    -(CHUNK as real) <= g.camLeft - f.camLeft <= CHUNK as real
    && -(CHUNK as real) <= g.camRight - f.camRight <= CHUNK as real
  }

  /** A frame whose buffered view is within one chunk of the window, with no callback throwing,
      leaves the window covering that view. */
  lemma CatchUp(w: Window, f: Frame)
    requires WithinChunk(w, f) && !f.leftThrows && !f.rightThrows
    ensures Covers(Step(w, f).window, f)
  {
  }

  /** A covering window stays within one chunk of the view after a slow camera move. */
  lemma SlowMoveStaysWithinChunk(w: Window, f: Frame, g: Frame)
    requires Covers(w, f) && SlowMove(f, g)
    ensures WithinChunk(w, g)
  {
  }

  /** If the first frame's view is within one chunk of the initial window, the camera edges move at
      most one chunk per frame and no callback throws, then after every frame the generated strip
      covers that frame's buffered camera view. */
  lemma {:induction false} RunCovers(w0: Window, frames: seq<Frame>)
    requires frames != [] && WithinChunk(w0, frames[0]) && NoThrows(frames)
    requires forall i :: 0 < i < |frames| ==> SlowMove(frames[i - 1], frames[i])
    ensures Covers(Run(w0, frames).window, frames[|frames| - 1])
    decreases |frames|
  {
    var n := |frames|;
    var prefix := frames[..n - 1];
    var prev := Run(w0, prefix).window;
    if n == 1 {
      assert prev == w0;
    } else {
      assert prefix[0] == frames[0];
      assert NoThrows(prefix) by {
        forall i | 0 <= i < |prefix| ensures !prefix[i].leftThrows && !prefix[i].rightThrows {
          assert prefix[i] == frames[i];
        }
      }
      forall i | 0 < i < |prefix| ensures SlowMove(prefix[i - 1], prefix[i]) {
        assert prefix[i - 1] == frames[i - 1] && prefix[i] == frames[i];
      }
      RunCovers(w0, prefix);
      assert prefix[n - 2] == frames[n - 2];
      SlowMoveStaysWithinChunk(prev, frames[n - 2], frames[n - 1]);
    }
    CatchUp(prev, frames[n - 1]);
  }

  /** Hysteresis on the left: once frame `g` extends the left side past a window that covered the
      left edge of frame `f`, the left bound stays where `g` put it over every later frame
      whose left edge is at most one chunk left of `f`'s. So the camera must travel more than
      CHUNK pixels leftward from `f`'s edge before the left side is extended again: at v pixels
      per frame, more than CHUNK / v frames. */
  lemma {:induction false} LeftHysteresis(w: Window, f: Frame, g: Frame, frames: seq<Frame>)
    requires !LeftNeeded(w, f.camLeft) && LeftNeeded(w, g.camLeft) && !g.leftThrows
    requires forall i :: 0 <= i < |frames| ==> frames[i].camLeft >= f.camLeft - CHUNK as real
    ensures Run(Step(w, g).window, frames).window.min == w.min - CHUNK
    decreases |frames|
  {
    if frames != [] {
      var prefix := frames[..|frames| - 1];
      forall i | 0 <= i < |prefix| ensures prefix[i].camLeft >= f.camLeft - CHUNK as real {
        assert prefix[i] == frames[i];
      }
      LeftHysteresis(w, f, g, prefix);
      var prev := Run(Step(w, g).window, prefix).window;
      assert !LeftNeeded(prev, frames[|frames| - 1].camLeft);
    }
  }

  /** Hysteresis on the right, the mirror of LeftHysteresis: a right extension made by frame `g`
      (its left callback not throwing, the right test being reached) keeps maxGeneratedX in place
      until the camera's right edge is more than CHUNK pixels right of the last edge covered. */
  lemma {:induction false} RightHysteresis(w: Window, f: Frame, g: Frame, frames: seq<Frame>)
    requires !RightNeeded(w, f.camRight) && RightNeeded(w, g.camRight) && !g.rightThrows
    requires !(LeftNeeded(w, g.camLeft) && g.leftThrows)
    requires forall i :: 0 <= i < |frames| ==> frames[i].camRight <= f.camRight + CHUNK as real
    ensures Run(Step(w, g).window, frames).window.max == w.max + CHUNK
    decreases |frames|
  {
    if frames != [] {
      var prefix := frames[..|frames| - 1];
      forall i | 0 <= i < |prefix| ensures prefix[i].camRight <= f.camRight + CHUNK as real {
        assert prefix[i] == frames[i];
      }
      RightHysteresis(w, f, g, prefix);
      var prev := Run(Step(w, g).window, prefix).window;
      assert !RightNeeded(prev, frames[|frames| - 1].camRight);
    }
  }

  // ---------------------------------------------------------------------------
  // The requested strips

  /** Without throws, one frame's requests tile the way from the old window to the new one. */
  lemma StepTiles(w0: Window, before: seq<Range>, w: Window, f: Frame)
    requires Tiling(w0, before, w) && !f.leftThrows && !f.rightThrows
    ensures Tiling(w0, before + Step(w, f).requests, Step(w, f).window)
  {
    var r := Step(w, f);
    if LeftNeeded(w, f.camLeft) {
      var w1 := w.(min := w.min - CHUNK);
      var left := Range(w.min - CHUNK, w.min);
      assert (before + [left])[..|before|] == before;
      assert Tiling(w0, before + [left], w1);
      if RightNeeded(w1, f.camRight) {
        assert (before + [left, Range(w1.max, w1.max + CHUNK)])[..|before| + 1] == before + [left];
        assert r.requests == [left, Range(w1.max, w1.max + CHUNK)];
      } else {
        assert r.requests == [left];
      }
    } else if RightNeeded(w, f.camRight) {
      assert (before + [Range(w.max, w.max + CHUNK)])[..|before|] == before;
    } else {
      assert before + [] == before;
    }
  }

  /** Without throws, the requests made over a run tile the way from the initial to the final window. */
  lemma {:induction false} RunTiles(w0: Window, frames: seq<Frame>)
    requires NoThrows(frames)
    ensures Tiling(w0, Run(w0, frames).requests, Run(w0, frames).window)
    ensures !Run(w0, frames).thrown
    decreases |frames|
  {
    if frames != [] {
      var prefix := frames[..|frames| - 1];
      assert NoThrows(prefix) by {
        forall i | 0 <= i < |prefix| ensures !prefix[i].leftThrows && !prefix[i].rightThrows {
          assert prefix[i] == frames[i];
        }
      }
      RunTiles(w0, prefix);
      StepTiles(w0, Run(w0, prefix).requests, Run(w0, prefix).window, frames[|frames| - 1]);
    }
  }

  /** Over any sequence of frames, throwing callbacks included, minGeneratedX never increases and
      maxGeneratedX never decreases, and each moves in whole chunks. */
  lemma {:induction false} RunMonotone(w0: Window, frames: seq<Frame>)
    ensures Run(w0, frames).window.min <= w0.min && w0.max <= Run(w0, frames).window.max
    ensures (w0.min - Run(w0, frames).window.min) % CHUNK == 0
    ensures (Run(w0, frames).window.max - w0.max) % CHUNK == 0
    decreases |frames|
  {
    if frames != [] {
      var prev := Run(w0, frames[..|frames| - 1]).window;
      RunMonotone(w0, frames[..|frames| - 1]);
      var next := Run(w0, frames).window;
      if next.min != prev.min {
        assert w0.min - next.min == (w0.min - prev.min) + CHUNK;
      }
      if next.max != prev.max {
        assert next.max - w0.max == (prev.max - w0.max) + CHUNK;
      }
    }
  }

  /** The initial window and the strips of a tiling cover the final window: every x in it lies in
      the initial window or in a requested strip. */
  lemma {:induction false} TilingCovers(w0: Window, requests: seq<Range>, w: Window, x: int)
    requires Tiling(w0, requests, w) && w.min <= x < w.max
    ensures (w0.min <= x < w0.max) || exists i :: 0 <= i < |requests| && requests[i].lo <= x < requests[i].hi
    decreases |requests|
  {
    if requests != [] {
      var n := |requests|;
      var q := requests[n - 1];
      var rest := requests[..n - 1];
      var w1 := if q == Range(w.min, w.min + CHUNK) && Tiling(w0, rest, Window(w.min + CHUNK, w.max))
        then Window(w.min + CHUNK, w.max) else Window(w.min, w.max - CHUNK);
      if q.lo <= x < q.hi {
        assert requests[n - 1] == q;
      } else {
        TilingCovers(w0, rest, w1, x);
        if !(w0.min <= x < w0.max) {
          var i :| 0 <= i < |rest| && rest[i].lo <= x < rest[i].hi;
          assert requests[i] == rest[i];
        }
      }
    }
  }

  /** A tiling's strips are one chunk wide, lie inside the final window and outside the initial
      one, are pairwise disjoint, and together widen the window by CHUNK each. */
  lemma {:induction false} TilingShape(w0: Window, requests: seq<Range>, w: Window)
    requires Tiling(w0, requests, w) && w0.min <= w0.max
    ensures w.min <= w0.min && w0.max <= w.max
    ensures w.max - w.min == w0.max - w0.min + CHUNK * |requests|
    ensures forall i :: 0 <= i < |requests| ==>
      && requests[i].hi - requests[i].lo == CHUNK
      && w.min <= requests[i].lo && requests[i].hi <= w.max
      && (requests[i].hi <= w0.min || w0.max <= requests[i].lo)
    ensures forall i, j :: 0 <= i < j < |requests| ==>
      requests[i].hi <= requests[j].lo || requests[j].hi <= requests[i].lo
    decreases |requests|
  {
    if requests != [] {
      var n := |requests|;
      var q := requests[n - 1];
      var rest := requests[..n - 1];
      var w1 := if q == Range(w.min, w.min + CHUNK) && Tiling(w0, rest, Window(w.min + CHUNK, w.max))
        then Window(w.min + CHUNK, w.max) else Window(w.min, w.max - CHUNK);
      TilingShape(w0, rest, w1);
      forall i | 0 <= i < n - 1 ensures requests[i] == rest[i] {
      }
    }
  }

  /** Grown from an on-grid start, the window and every requested strip stay on the grid. */
  lemma {:induction false} TilingOnGrid(w0: Window, requests: seq<Range>, w: Window)
    requires Tiling(w0, requests, w) && w0.min % SIZE == 0 && w0.max % SIZE == 0
    ensures w.min % SIZE == 0 && w.max % SIZE == 0
    ensures forall q :: q in requests ==> q.lo % SIZE == 0 && q.hi % SIZE == 0
    decreases |requests|
  {
    if requests != [] {
      var n := |requests|;
      var q := requests[n - 1];
      var rest := requests[..n - 1];
      var w1 := if q == Range(w.min, w.min + CHUNK) && Tiling(w0, rest, Window(w.min + CHUNK, w.max))
        then Window(w.min + CHUNK, w.max) else Window(w.min, w.max - CHUNK);
      TilingOnGrid(w0, rest, w1);
      ModShiftBy(w1.min, -BLOCK_BUFFER);
      ModShiftBy(w1.max, BLOCK_BUFFER);
      assert requests == rest + [q];
    }
  }

  // ---------------------------------------------------------------------------
  // Strips at their seams

  /** As written: two strips that meet at a negative grid point `b` both visit column `b`, so the
      terrain of that column is generated twice, once for each strip. */
  lemma NegativeSeamOverlap(height: int -> int, a: int, b: int, c: int, blk: Terrain.Block)
    requires a < b < c && b < 0 && a % SIZE == 0 && b % SIZE == 0
    requires blk in Terrain.Column(height, b)
    ensures b in RangeColumns(a, b) && b in RangeColumns(b, c)
    ensures blk in Terrain.Blocks(height, a, b) && blk in Terrain.Blocks(height, b, c)
  {
    NegativeSeamShared(a, b, c);
    Terrain.ColumnPrefixMembership(b, Terrain.TopBlockY(height(b)), Terrain.TERRAIN_DEPTH, blk);
    Terrain.BlocksMembership(height, a, b, blk);
    Terrain.BlocksMembership(height, b, c, blk);
  }

  /** As written, growing left from an on-grid bound `m` below CHUNK requests two adjacent strips
      that both visit the column at their seam `m - CHUNK`. */
  lemma LeftStripsShareSeam(m: int)
    requires m % SIZE == 0 && m < CHUNK
    ensures m - CHUNK in RangeColumns(m - 2 * CHUNK, m - CHUNK)
    ensures m - CHUNK in RangeColumns(m - CHUNK, m)
  {
    ModShiftBy(m, -2 * BLOCK_BUFFER);
    ModShiftBy(m, -BLOCK_BUFFER);
    NegativeSeamShared(m - 2 * CHUNK, m - CHUNK, m);
  }

  /** Corrected: with floor and ceiling alignment, strips that do not overlap as pixel ranges and
      have on-grid bounds visit disjoint columns, whatever their signs. */
  lemma CorrectedStripsDisjoint(q1: Range, q2: Range, x: int)
    requires q1.hi <= q2.lo && q1.hi % SIZE == 0 && q2.lo % SIZE == 0
    ensures !(x in CorrectedRangeColumns(q1.lo, q1.hi) && x in CorrectedRangeColumns(q2.lo, q2.hi))
  {
    CorrectedColumnsCover(q1.lo, q1.hi, x);
    CorrectedColumnsCover(q2.lo, q2.hi, x);
    if x % SIZE == 0 && q2.lo < x + SIZE {
      GridOrder(q2.lo, x);
    }
  }

  /** Corrected: the strips requested over a run from an on-grid window, without throws, visit
      pairwise disjoint columns. */
  lemma CorrectedRunDisjoint(w0: Window, frames: seq<Frame>, i: int, j: int, x: int)
    requires NoThrows(frames) && w0.min <= w0.max && w0.min % SIZE == 0 && w0.max % SIZE == 0
    requires 0 <= i < j < |Run(w0, frames).requests|
    ensures var rs := Run(w0, frames).requests;
      !(x in CorrectedRangeColumns(rs[i].lo, rs[i].hi) && x in CorrectedRangeColumns(rs[j].lo, rs[j].hi))
  {
    var r := Run(w0, frames);
    RunTiles(w0, frames);
    TilingShape(w0, r.requests, r.window);
    TilingOnGrid(w0, r.requests, r.window);
    assert r.requests[i] in r.requests && r.requests[j] in r.requests;
    if r.requests[i].hi <= r.requests[j].lo {
      CorrectedStripsDisjoint(r.requests[i], r.requests[j], x);
    } else {
      CorrectedStripsDisjoint(r.requests[j], r.requests[i], x);
    }
  }
}
