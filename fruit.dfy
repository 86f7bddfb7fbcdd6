/** A collectable fruit (Fruit.java) as a two-state object: *available* (an oval
    renderable of a palette colour, DIAM x DIAM) and *depleted* (no renderable,
    size zero). Pickup by the avatar hands ENERGY_VALUE to the avatar, depletes the
    fruit and schedules one respawn after RESPAWN_TIME seconds; the respawn
    restores the size and draws a fresh colour from the fruit's own stream. */
module Fruits {
  import opened Layers
  import opened Rand

  /** Energy handed to the avatar on pickup (ENERGY_VALUE = 10f). */
  const ENERGY_VALUE: real := 10.0

  /** Seconds until the fruit reappears (RESPAWN_TIME = 30f). */
  const RESPAWN_TIME: real := 30.0

  /** Diameter: `Block.SIZE * 0.6f`, which rounds to exactly 18 in float. */
  const DIAM: real := 18.0

  const AVATAR_TAG: string := "avatar"
  const FRUIT_TAG: string := "fruit"

  /** Fruit.defaultLayer(). */
  const DEFAULT_LAYER: Layer := StaticObjects

  datatype Color = Color(r: int, g: int, b: int)

  datatype Option<T> = None | Some(value: T)

  /** Red, orange and purple. */
  const PALETTE: seq<Color> := [Color(220, 40, 40), Color(240, 180, 30), Color(160, 40, 160)]

  /** The colour `randomColor` returns when its `nextInt(3)` is draw `i` of stream `k`. */
  function ColorAt(o: Oracle, k: StreamKey, i: nat): (c: Color)
    ensures c in PALETTE
  {
    PALETTE[IntAt(o, k, i, |PALETTE|)]
  }

  /** Fruit.randomColor: one `nextInt(palette.length)` draw picks the palette entry. */
  method RandomColor(r: Random) returns (c: Color)
    modifies r
    ensures c == ColorAt(r.oracle, r.key, old(r.pos)) && c in PALETTE
    ensures r.pos == old(r.pos) + 1
  {
    var palette := PALETTE;
    var n := r.NextInt(|palette|);
    c := palette[n];
  }

  class Fruit {
    const x: real
    const y: real
    const rand: Random
    const tag: string

    /** The renderer's renderable: the colour of its oval, or None once it was set to null. */
    var renderable: Option<Color>
    var width: real
    var height: real

    /** Delays of the respawn tasks scheduled and not yet run, oldest first. */
    var scheduled: seq<real>

    ghost predicate Available()
      reads this
    {
      renderable.Some? && renderable.value in PALETTE && width == DIAM && height == DIAM
    }

    ghost predicate Depleted()
      reads this
    {
      renderable.None? && width == 0.0 && height == 0.0
    }

    /** `new Fruit(topLeftCorner, rand)`: available, DIAM x DIAM, with a colour drawn from `rand`. */
    constructor (x: real, y: real, rand: Random)
      modifies rand
      ensures this.x == x && this.y == y && this.rand == rand && tag == FRUIT_TAG
      ensures Available() && renderable == Some(ColorAt(rand.oracle, rand.key, old(rand.pos)))
      ensures scheduled == []
      ensures rand.pos == old(rand.pos) + 1
    {
      var c := RandomColor(rand);
      this.x := x;
      this.y := y;
      this.rand := rand;
      tag := FRUIT_TAG;
      renderable := Some(c);
      width := DIAM;
      height := DIAM;
      scheduled := [];
    }

    /** `onCollisionEnter(other, col)`: nothing happens unless `other` is tagged "avatar"; then
        ENERGY_VALUE goes to the avatar (returned here as `energyGiven`, 0 when nothing is handed
        over), the fruit is depleted and one respawn is scheduled RESPAWN_TIME seconds ahead. */
    method OnCollisionEnter(otherTag: string) returns (energyGiven: real)
      modifies this
      ensures otherTag != AVATAR_TAG ==>
        energyGiven == 0.0 && unchanged(this)
      ensures otherTag == AVATAR_TAG ==>
        && energyGiven == ENERGY_VALUE
        && Depleted()
        && scheduled == old(scheduled) + [RESPAWN_TIME]
      ensures rand.pos == old(rand.pos)
    {
      if otherTag != AVATAR_TAG {
        return 0.0;
      }
      energyGiven := ENERGY_VALUE;
      Deactivate();
      scheduled := scheduled + [RESPAWN_TIME];
    }

    /** `deactivate()`: the renderable is set to null and the size to zero. */
    method Deactivate()
      modifies this
      ensures Depleted()
      ensures scheduled == old(scheduled)
    {
      renderable := None;
      width, height := 0.0, 0.0;
    }

    /** `reactivate()`: a fresh colour from the fruit's own stream and DIAM x DIAM again. */
    method Reactivate()
      modifies this, rand
      ensures Available() && renderable == Some(ColorAt(rand.oracle, rand.key, old(rand.pos)))
      ensures rand.pos == old(rand.pos) + 1
      ensures scheduled == old(scheduled)
    {
      var c := RandomColor(rand);
      renderable := Some(c);
      width, height := DIAM, DIAM;
    }

    /** The oldest scheduled respawn task runs once its RESPAWN_TIME has elapsed: it is removed
        and `reactivate` runs. */
    method RunScheduledRespawn()
      requires scheduled != []
      modifies this, rand
      ensures scheduled == old(scheduled)[1..]
      ensures Available() && renderable == Some(ColorAt(rand.oracle, rand.key, old(rand.pos)))
      ensures rand.pos == old(rand.pos) + 1
    {
      scheduled := scheduled[1..];
      Reactivate();
    }
  }

  /** A pickup followed by its respawn leaves the fruit available again with the colour drawn next
      from its stream, and nothing pending that was not pending before. */
  method PickupThenRespawn(f: Fruit) returns (energyGiven: real)
    requires f.Available() && f.scheduled == []
    modifies f, f.rand
    ensures energyGiven == ENERGY_VALUE
    ensures f.Available() && f.scheduled == []
    ensures f.renderable == Some(ColorAt(f.rand.oracle, f.rand.key, old(f.rand.pos)))
  {
    energyGiven := f.OnCollisionEnter(AVATAR_TAG);
    assert f.Depleted() && f.scheduled == [RESPAWN_TIME];
    f.RunScheduledRespawn();
  }
}
