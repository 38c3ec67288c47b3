/**
 * A discrete PI-lead controller: a proportional-integral law whose output is
 * passed through a first-order lead filter, discretised with the bilinear
 * (Tustin) transform.  Arithmetic is exact, over `real`.
 *
 * The module has two layers:
 *  - a value-level specification (`ControllerConfig`, `ControllerState`,
 *    `Filter`, `Step`) that describes one sampling step as a pure transition;
 *  - the class `PILeadController`, which keeps the recursive state in mutable
 *    fields exactly as the program does and is proved against that transition.
 */
module PILead {

  /**
   * The fixed parameters: gains, lead zero and pole time constants, sample
   * period, and the four filter coefficients the constructor stores.
   */
  datatype ControllerConfig = ControllerConfig(kp: real, ki: real, T1: real, T2: real, dt: real,
                                               a0: real, a1: real, b0: real, b1: real)

  /** The recursive state: the integrator, the last filter input and the last output. */
  datatype ControllerState = ControllerState(integral: real, xPrev: real, yPrev: real)

  /** The state of a freshly constructed or freshly reset controller. */
  const Zero: ControllerState := ControllerState(0.0, 0.0, 0.0)

  /**
   * The coefficients are those of (1 + T1 s) / (1 + T2 s) under the bilinear
   * substitution s = (2 / dt) (z - 1) / (z + 1), multiplied through by dt (z + 1).
   */
  predicate TustinCoefficients(c: ControllerConfig)
  {
    && c.a0 == 2.0 * c.T2 + c.dt
    && c.a1 == c.dt - 2.0 * c.T2
    && c.b0 == 2.0 * c.T1 + c.dt
    && c.b1 == c.dt - 2.0 * c.T1
  }

  /** The continuous-time lead transfer function (1 + T1 s) / (1 + T2 s), where defined. */
  function LeadResponse(c: ControllerConfig, s: real): real
    requires 1.0 + c.T2 * s != 0.0
  {
    (1.0 + c.T1 * s) / (1.0 + c.T2 * s)
  }

  /** The discrete-time transfer function (b0 z + b1) / (a0 z + a1) of the filter, where defined. */
  function DiscreteResponse(c: ControllerConfig, z: real): real
    requires c.a0 * z + c.a1 != 0.0
  {
    (c.b0 * z + c.b1) / (c.a0 * z + c.a1)
  }

  /**
   * One step of the lead filter: the output y for input x, given the previous
   * input and output.  The result is the unique solution of the first-order
   * difference equation a0 y[k] + a1 y[k-1] = b0 x[k] + b1 x[k-1].
   */
  function Filter(c: ControllerConfig, x: real, xPrev: real, yPrev: real): (y: real)
    requires c.a0 != 0.0
    ensures c.a0 * y + c.a1 * yPrev == c.b0 * x + c.b1 * xPrev
  {
    (c.b0 * x + c.b1 * xPrev - c.a1 * yPrev) / c.a0
  }

  /** The PI law on the already accumulated integral. */
  function PiOutput(c: ControllerConfig, error: real, integral: real): real
  {
    c.kp * error + c.ki * integral
  }

  /**
   * One call of `update`: accumulate the integral, form the PI output, filter
   * it against the OLD filter memory, then carry input and output forward.
   * Returns the new state and the control signal.
   */
  function Step(c: ControllerConfig, s: ControllerState, error: real): (r: (ControllerState, real))
    requires c.a0 != 0.0
  {
    var integral := s.integral + error * c.dt;
    var u := PiOutput(c, error, integral);
    var y := Filter(c, u, s.xPrev, s.yPrev);
    (ControllerState(integral, u, y), y)
  }

  /**
   * The controller object.  The configuration and the derived coefficients are
   * written only by the constructor, so they are `const`; the three state
   * fields are overwritten by `Reset` and `Update`.
   */
  class PILeadController {
    const kp: real
    const ki: real
    const T1: real
    const T2: real
    const dt: real

    const a0: real
    const a1: real
    const b0: real
    const b1: real

    var integral: real
    var xPrev: real  // previous PI output (filter input)
    var yPrev: real  // previous controller output (filter output)

    /** The stored coefficients are the Tustin coefficients of the stored time constants. */
    ghost predicate Valid()
    {
      TustinCoefficients(Config())
    }

    function Config(): ControllerConfig
    {
      ControllerConfig(kp, ki, T1, T2, dt, a0, a1, b0, b1)
    }

    function State(): ControllerState
      reads this
    {
      ControllerState(integral, xPrev, yPrev)
    }

    constructor (kp: real, ki: real, T1: real, T2: real, sampleTime: real)
      ensures this.kp == kp && this.ki == ki && this.T1 == T1 && this.T2 == T2 && this.dt == sampleTime
      ensures a0 == 2.0 * T2 + sampleTime && a1 == sampleTime - 2.0 * T2
      ensures b0 == 2.0 * T1 + sampleTime && b1 == sampleTime - 2.0 * T1
      ensures integral == 0.0 && xPrev == 0.0 && yPrev == 0.0
      ensures Valid() && State() == Zero
    {
      this.kp := kp;
      this.ki := ki;
      this.T1 := T1;
      this.T2 := T2;
      this.dt := sampleTime;
      a0 := 2.0 * T2 + sampleTime;
      a1 := sampleTime - 2.0 * T2;
      b0 := 2.0 * T1 + sampleTime;
      b1 := sampleTime - 2.0 * T1;
      integral := 0.0;
      xPrev := 0.0;
      yPrev := 0.0;
    }

    /** Discards the integrator and the filter memory; the configuration is untouched. */
    method Reset()
      modifies this
      ensures integral == 0.0 && xPrev == 0.0 && yPrev == 0.0
      ensures State() == Zero
    {
      integral := 0.0;
      xPrev := 0.0;
      yPrev := 0.0;
    }

    /**
     * Feeds one error sample and returns the control signal.  The division by
     * a0 is unguarded in the program, so a0 != 0 is the caller's obligation.
     */
    method Update(error: real) returns (y: real)
      requires a0 != 0.0
      modifies this
      ensures integral == old(integral) + error * dt
      ensures xPrev == kp * error + ki * integral
      ensures y == (b0 * xPrev + b1 * old(xPrev) - a1 * old(yPrev)) / a0
      ensures yPrev == y
      ensures (State(), y) == Step(Config(), old(State()), error)
    {
      ghost var before := State();
      integral := integral + error * dt;
      var uPi := kp * error + ki * integral;
      y := (b0 * uPi + b1 * xPrev - a1 * yPrev) / a0;
      assert y == Filter(Config(), uPi, before.xPrev, before.yPrev);
      xPrev := uPi;
      yPrev := y;
      assert Step(Config(), before, error).0 == State();
      assert Step(Config(), before, error).1 == y;
    }
  }
}
