/** The player character (Avatar.java): an energy budget of at most DEF_ENERGY that
    pays for walking and jumping and regenerates by one on every frame without a jump.
    The danogl physics step (`super.update`, gravity, collision resolution) is not
    modelled: `velocityY` stands for the vertical velocity that step leaves behind. */
module Avatars {
  import opened Terrain

  const VELOCITY_X: real := 400.0
  const VELOCITY_Y: real := -650.0
  const JUMP_VALUE: int := 10
  const MOVE_VALUE: int := 1
  const DEF_ENERGY: int := 100

  /** The tag onCollisionEnter compares with. */
  const BLOCK_TAG: string := "block"

  /** The keys `inputListener.isKeyPressed` reports during one frame. */
  datatype Keys = Keys(left: bool, right: bool, space: bool)

  /** The fields one frame reads and writes. */
  datatype Motion = Motion(energy: int, velocityX: real, velocityY: real)

  /** A valid energy level: walking never takes the last unit and a jump needs more than ten. */
  predicate EnergyInRange(energy: int)
  {
    MOVE_VALUE <= energy <= DEF_ENERGY
  }

  /** The left-key step: it is taken only while energy exceeds MOVE_VALUE. */
  predicate WalksLeft(m: Motion, keys: Keys)
  {
    keys.left && m.energy > MOVE_VALUE
  }

  /** The energy after the left-key step. */
  function AfterLeft(m: Motion, keys: Keys): int
  {
    if WalksLeft(m, keys) then m.energy - MOVE_VALUE else m.energy
  }

  /** The right-key step, tested on the energy the left step left behind. */
  predicate WalksRight(m: Motion, keys: Keys)
  {
    keys.right && AfterLeft(m, keys) > MOVE_VALUE
  }

  /** The energy after both walking steps. */
  function AfterWalking(m: Motion, keys: Keys): int
  {
    if WalksRight(m, keys) then AfterLeft(m, keys) - MOVE_VALUE else AfterLeft(m, keys)
  }

  /** The jump test: space, zero vertical velocity and more than JUMP_VALUE left after walking. */
  predicate Jumps(m: Motion, keys: Keys)
  {
    keys.space && m.velocityY == 0.0 && AfterWalking(m, keys) > JUMP_VALUE
  }

  /** One frame of Avatar.update. Energy within [MOVE_VALUE, DEF_ENERGY] stays there; a frame costs
      at most two walking units and a jump and regenerates at most one unit, which happens exactly
      on a frame without walking or jumping below DEF_ENERGY. The horizontal velocity is
      -VELOCITY_X, 0 or VELOCITY_X, both keys together cancelling out; the vertical velocity
      becomes VELOCITY_Y on a jump and is left alone otherwise. */
  function Frame(m: Motion, keys: Keys): (r: Motion)
    ensures EnergyInRange(m.energy) ==> EnergyInRange(r.energy)
    ensures m.energy - 2 * MOVE_VALUE - JUMP_VALUE <= r.energy <= m.energy + 1
    ensures r.energy > m.energy <==>
      !Jumps(m, keys) && !WalksLeft(m, keys) && !WalksRight(m, keys) && m.energy < DEF_ENERGY
    ensures Jumps(m, keys) ==> r.energy == AfterWalking(m, keys) - JUMP_VALUE
    ensures !Jumps(m, keys) ==>
      r.energy == if AfterWalking(m, keys) < DEF_ENERGY then AfterWalking(m, keys) + 1 else AfterWalking(m, keys)
    ensures r.velocityX == if WalksLeft(m, keys) == WalksRight(m, keys) then 0.0
                           else if WalksLeft(m, keys) then -VELOCITY_X else VELOCITY_X
    ensures r.velocityY == if Jumps(m, keys) then VELOCITY_Y else m.velocityY
  {
    var e := AfterWalking(m, keys);
    var vx := (if WalksLeft(m, keys) then -VELOCITY_X else 0.0) + (if WalksRight(m, keys) then VELOCITY_X else 0.0);
    if Jumps(m, keys) then Motion(e - JUMP_VALUE, vx, VELOCITY_Y)
    else Motion(if e < DEF_ENERGY then e + 1 else e, vx, m.velocityY)
  }

  /** The vertical velocity after onCollisionEnter with an object tagged `tag`, as written:
      only an object tagged "block" stops the fall. */
  function CollisionVelocityY(tag: string, velocityY: real): real
  {
    if tag == BLOCK_TAG then 0.0 else velocityY
  }

  /** The frames of a run, one per key sample. */
  function Run(m: Motion, frames: seq<Keys>): Motion
    decreases |frames|
  {
    if frames == [] then m else Run(Frame(m, frames[0]), frames[1..])
  }

  class Avatar {
    var energy: int
    var velocityX: real
    var velocityY: real

    ghost predicate Valid()
      reads this
    {
      EnergyInRange(energy)
    }

    function State(): Motion
      reads this
    {
      Motion(energy, velocityX, velocityY)
    }

    /** `new Avatar(...)`: full energy, at rest. */
    constructor ()
      ensures Valid() && energy == DEF_ENERGY
      ensures velocityX == 0.0 && velocityY == 0.0
    {
      energy := DEF_ENERGY;
      velocityX, velocityY := 0.0, 0.0;
    }

    /** Avatar.update: walking left and right, then either a jump or one unit of regeneration. */
    method Update(left: bool, right: bool, space: bool)
      modifies this
      ensures State() == Frame(old(State()), Keys(left, right, space))
      ensures old(Valid()) ==> Valid()
    {
      var xVel := 0.0;
      if left && energy > MOVE_VALUE {
        energy := energy - MOVE_VALUE;
        xVel := xVel - VELOCITY_X;
      }
      if right && energy > MOVE_VALUE {
        energy := energy - MOVE_VALUE;
        xVel := xVel + VELOCITY_X;
      }
      velocityX := xVel;
      if space && velocityY == 0.0 && energy > JUMP_VALUE {
        energy := energy - JUMP_VALUE;
        velocityY := VELOCITY_Y;
      } else {
        if energy < DEF_ENERGY {
          energy := energy + 1;
        }
      }
    }

    /** Avatar.getEnergy. */
    method GetEnergy() returns (e: int)
      requires Valid()
      ensures e == energy && EnergyInRange(e)
    {
      e := energy;
    }

    /** Avatar.onCollisionEnter: the vertical velocity is reset only by an object tagged "block". */
    method OnCollisionEnter(otherTag: string)
      modifies this
      ensures State() == old(State()).(velocityY := CollisionVelocityY(otherTag, old(velocityY)))
    {
      if otherTag == BLOCK_TAG {
        velocityY := 0.0;
      }
    }
  }

  // ---------------------------------------------------------------------------
  // Properties of a run

  /** Over any sequence of frames energy stays within [MOVE_VALUE, DEF_ENERGY]. */
  lemma {:induction false} RunKeepsEnergyInRange(m: Motion, frames: seq<Keys>)
    requires EnergyInRange(m.energy)
    ensures EnergyInRange(Run(m, frames).energy)
    decreases |frames|
  {
    if frames != [] {
      RunKeepsEnergyInRange(Frame(m, frames[0]), frames[1..]);
    }
  }

  /** `n` idle frames from energy `e` give `min(e + n, DEF_ENERGY)`. */
  lemma {:induction false} IdleRun(m: Motion, n: nat)
    ensures Run(m, seq(n, _ => Keys(false, false, false))).energy ==
      if m.energy + n <= DEF_ENERGY then m.energy + n else if m.energy <= DEF_ENERGY then DEF_ENERGY else m.energy
    decreases n
  {
    var idle := seq(n, _ => Keys(false, false, false));
    if n > 0 {
      assert idle[1..] == seq(n - 1, _ => Keys(false, false, false));
      IdleRun(Frame(m, idle[0]), n - 1);
    }
  }

  // ---------------------------------------------------------------------------
  // Landing on terrain

  /** As written: no terrain block resets the vertical velocity, since every one is tagged
      "ground", so a falling avatar that lands on terrain keeps a non-zero velocityY and
      cannot jump from it. */
  lemma TerrainNeverStopsFall(height: int -> int, minX: int, maxX: int, b: Block, m: Motion, keys: Keys)
    requires b in Blocks(height, minX, maxX)
    requires m.velocityY != 0.0
    ensures CollisionVelocityY(b.tag, m.velocityY) == m.velocityY
    ensures !Jumps(m.(velocityY := CollisionVelocityY(b.tag, m.velocityY)), keys)
  {
    AllGround(height, minX, maxX, b);
  }

  /** Corrected: the landing test checks the tag the terrain gives its blocks. */
  function LandingVelocityY(tag: string, velocityY: real): real
  {
    if tag == GROUND_TAG then 0.0 else velocityY
  }

  /** With the corrected test, landing on any terrain block stops the fall, so a frame with space
      pressed right after it jumps whenever the avatar has more than JUMP_VALUE left after walking. */
  lemma LandingOnTerrainEnablesJump(height: int -> int, minX: int, maxX: int, b: Block, m: Motion, keys: Keys)
    requires b in Blocks(height, minX, maxX)
    ensures LandingVelocityY(b.tag, m.velocityY) == 0.0
    ensures var landed := m.(velocityY := LandingVelocityY(b.tag, m.velocityY));
      keys.space && AfterWalking(landed, keys) > JUMP_VALUE ==> Frame(landed, keys).velocityY == VELOCITY_Y
  {
    AllGround(height, minX, maxX, b);
  }
}
