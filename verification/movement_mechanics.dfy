/**
  Jump bookkeeping of the movement layer (MovementMechanics).

  A character holds a number of jumps it may still perform while airborne.
  Landing restores the designer-set maximum, leaving the ground spends one,
  and each jump requested in the air spends one more; a jump from the ground
  is always granted.  Only the integer and branch logic is modelled: the
  launch speed is a designer value that is passed through unchanged.
*/
module Movement {

  datatype Vector2 = Vector2(x: real, y: real)

  /** The physics body: whether it is airborne and its velocity. */
  class CustomPhysics2D {
    var isInAir: bool
    var velocity: Vector2

    constructor (isInAir: bool, velocity: Vector2)
      ensures this.isInAir == isInAir && this.velocity == velocity
    {
      this.isInAir := isInAir;
      this.velocity := velocity;
    }
  }

  /**
    One jump request: whether it is granted, and the jumps left afterwards.
    It is granted exactly when the character is grounded or has a jump left,
    and only an airborne jump spends one.
  */
  function JumpStep(isInAir: bool, jumpsAvailable: int): (r: (bool, int))
    ensures r.0 <==> !isInAir || jumpsAvailable > 0
    ensures r.1 == (if isInAir && r.0 then jumpsAvailable - 1 else jumpsAvailable)
    ensures jumpsAvailable >= 0 ==> r.1 >= 0
  {
    if !isInAir then (true, jumpsAvailable)
    else if jumpsAvailable > 0 then (true, jumpsAvailable - 1)
    else (false, jumpsAvailable)
  }

  /** The answers to `n` consecutive jump requests made while airborne, and the jumps left at the end. */
  function AirborneJumps(jumpsAvailable: int, n: nat): (seq<bool>, int)
  {
    if n == 0 then ([], jumpsAvailable)
    else
      var step := JumpStep(true, jumpsAvailable);
      var rest := AirborneJumps(step.1, n - 1);
      ([step.0] + rest.0, rest.1)
  }

  /**
    Starting airborne with `k` jumps left, exactly the first `k` of the
    requests are granted (none when `k` is zero or negative), and the
    counter stops at zero rather than going below it.
  */
  lemma {:induction false} AirborneJumpsGrantFirstK(k: int, n: nat)
    ensures |AirborneJumps(k, n).0| == n
    ensures forall i :: 0 <= i < n ==> AirborneJumps(k, n).0[i] == (i < k)
    ensures AirborneJumps(k, n).1 == if k <= 0 then k else if n <= k then k - n else 0
  {
    if n > 0 {
      var step := JumpStep(true, k);
      AirborneJumpsGrantFirstK(step.1, n - 1);
      var rest := AirborneJumps(step.1, n - 1);
      assert AirborneJumps(k, n).0 == [step.0] + rest.0;
      forall i | 0 <= i < n ensures AirborneJumps(k, n).0[i] == (i < k) {
        if i > 0 {
          assert AirborneJumps(k, n).0[i] == rest.0[i - 1];
        }
      }
    }
  }

  class MovementMechanics {
    var maxAvailableJumps: int
    var currentJumpsAvailable: int
    /** The launch speed; derived from the jump height and time to apex, which is not modelled. */
    var jumpVelocity: real
    var rigid: CustomPhysics2D

    /** The counter never exceeds the maximum. */
    ghost predicate JumpsWithinMax()
      reads this
    {
      currentJumpsAvailable <= maxAvailableJumps
    }

    /** A component with its designer values; the private counter starts at 0. */
    constructor (rigid: CustomPhysics2D, maxAvailableJumps: int, jumpVelocity: real)
      ensures this.rigid == rigid && this.maxAvailableJumps == maxAvailableJumps
      ensures this.jumpVelocity == jumpVelocity && currentJumpsAvailable == 0
    {
      this.rigid := rigid;
      this.maxAvailableJumps := maxAvailableJumps;
      this.jumpVelocity := jumpVelocity;
      currentJumpsAvailable := 0;
    }

    method Awake()
      modifies this`currentJumpsAvailable
      ensures currentJumpsAvailable == maxAvailableJumps
      ensures JumpsWithinMax()
    {
      currentJumpsAvailable := maxAvailableJumps;
    }

    /** Raises a negative maximum to zero; a non-negative one is kept. */
    method OnValidate()
      modifies this`maxAvailableJumps
      ensures maxAvailableJumps >= 0
      ensures maxAvailableJumps == if old(maxAvailableJumps) < 0 then 0 else old(maxAvailableJumps)
      ensures old(JumpsWithinMax()) ==> JumpsWithinMax()
    {
      if maxAvailableJumps < 0 {
        maxAvailableJumps := 0;
      }
    }

    /**
      A jump request.  When granted, the vertical velocity becomes the launch
      speed and the horizontal velocity is kept; when refused, nothing changes.
    */
    method Jump() returns (jumped: bool)
      modifies this`currentJumpsAvailable, rigid`velocity
      ensures (jumped, currentJumpsAvailable) == JumpStep(rigid.isInAir, old(currentJumpsAvailable))
      ensures jumped ==> rigid.velocity == Vector2(old(rigid.velocity.x), jumpVelocity)
      ensures !jumped ==> rigid.velocity == old(rigid.velocity)
      ensures old(JumpsWithinMax()) ==> JumpsWithinMax()
    {
      if !rigid.isInAir {
      } else if currentJumpsAvailable > 0 {
        currentJumpsAvailable := currentJumpsAvailable - 1;
      } else {
        return false;
      }
      rigid.velocity := Vector2(rigid.velocity.x, jumpVelocity);
      return true;
    }

    /** Landing restores every jump, whatever the counter held. */
    method OnGroundedEvent()
      modifies this`currentJumpsAvailable
      ensures currentJumpsAvailable == maxAvailableJumps
      ensures JumpsWithinMax()
    {
      currentJumpsAvailable := maxAvailableJumps;
    }

    /** Leaving the ground spends one jump; there is no floor at zero. */
    method OnAirborneEvent()
      modifies this`currentJumpsAvailable
      ensures currentJumpsAvailable == old(currentJumpsAvailable) - 1
      ensures old(JumpsWithinMax()) ==> JumpsWithinMax()
    {
      currentJumpsAvailable := currentJumpsAvailable - 1;
    }
  }
}
