/**
 * Properties of the PI-lead controller: what construction, `reset` and
 * `update` promise together, the closed form of the integrator, the
 * bilinear-transform origin of the coefficients, unity DC gain, linearity and
 * convergence of the filter under a held input.
 */
module PILeadProperties {
  import opened PILead
  import opened RealArith

  /** The sum of a sequence of error samples. */
  function Sum(es: seq<real>): real
  {
    if es == [] then 0.0 else Sum(es[..|es| - 1]) + es[|es| - 1]
  }

  /** `n` copies of the same error sample. */
  function Constant(e: real, n: nat): (es: seq<real>)
    ensures |es| == n && forall i :: 0 <= i < n ==> es[i] == e
  {
    seq(n, _ => e)
  }

  // ----------------------------------------------------------------------
  // Coefficients and the filter on its own

  /** The output of the filter is the only value satisfying its difference equation. */
  lemma FilterUnique(c: ControllerConfig, x: real, xPrev: real, yPrev: real, y: real)
    requires c.a0 != 0.0
    ensures c.a0 * y + c.a1 * yPrev == c.b0 * x + c.b1 * xPrev <==> y == Filter(c, x, xPrev, yPrev)
  {
    UniqueSolution(c.a0, c.a1, c.b0, c.b1, x, xPrev, yPrev, y);
  }

  /**
   * The coefficients are the bilinear (Tustin) discretisation of the lead
   * filter (1 + T1 s) / (1 + T2 s): wherever both sides are defined, the
   * discrete response at z equals the continuous response at
   * s = (2 / dt) (z - 1) / (z + 1).
   */
  lemma TustinDiscretisation(c: ControllerConfig, z: real)
    requires TustinCoefficients(c) && c.dt != 0.0 && z != -1.0
    requires c.a0 * z + c.a1 != 0.0
    ensures 1.0 + c.T2 * ((2.0 / c.dt) * ((z - 1.0) / (z + 1.0))) != 0.0
    ensures DiscreteResponse(c, z) == LeadResponse(c, (2.0 / c.dt) * ((z - 1.0) / (z + 1.0)))
  {
    BilinearRatio(c.T1, c.T2, c.dt, z, (2.0 / c.dt) * ((z - 1.0) / (z + 1.0)));
  }

  /**
   * The discrete response is the gain of the difference equation on geometric
   * inputs: if the previous input was x and the previous output H(z) x, the
   * input z x produces the output H(z) z x.  So the input z^k x is answered
   * by H(z) z^k x at every step.
   */
  lemma GeometricResponse(c: ControllerConfig, z: real, x: real)
    requires c.a0 != 0.0 && c.a0 * z + c.a1 != 0.0
    ensures Filter(c, z * x, x, DiscreteResponse(c, z) * x) == DiscreteResponse(c, z) * (z * x)
  {
    var h := DiscreteResponse(c, z);
    assert h * (c.a0 * z + c.a1) == c.b0 * z + c.b1;
    assert c.a0 * (h * (z * x)) + c.a1 * (h * x) == (h * (c.a0 * z + c.a1)) * x;
    FilterUnique(c, z * x, x, h * x, h * (z * x));
  }

  /**
   * Unity DC gain: the coefficients satisfy b0 + b1 - a1 == a0 for every
   * configuration, so a filter whose input and memory all hold `u` returns `u`.
   */
  lemma UnityDcGain(c: ControllerConfig, u: real)
    requires TustinCoefficients(c) && c.a0 != 0.0
    ensures c.b0 + c.b1 - c.a1 == c.a0
    ensures Filter(c, u, u, u) == u
  {
    HeldSolution(c.a0, c.a1, c.b0, c.b1, u, u, Filter(c, u, u, u));
  }

  /** The same fact for one call of `update`: a PI output equal to the held filter memory is passed through unchanged. */
  lemma UnityDcGainStep(c: ControllerConfig, s: ControllerState, error: real)
    requires TustinCoefficients(c) && c.a0 != 0.0
    requires s.xPrev == s.yPrev == PiOutput(c, error, s.integral + error * c.dt)
    ensures Step(c, s, error).1 == s.yPrev
  {
    UnityDcGain(c, s.yPrev);
  }

  // ----------------------------------------------------------------------
  // Repeated updates and the integrator

  /**
   * The integrals along a sequence of states, each grown from the previous
   * one by an error sample times dt, have grown by the sum of the samples.
   */
  lemma {:induction false} IntegralOfTrace(c: ControllerConfig, states: seq<ControllerState>, es: seq<real>, n: nat)
    requires |states| == |es| + 1 && n <= |es|
    requires forall k {:trigger es[k]} :: 0 <= k < |es| ==> states[k + 1].integral == states[k].integral + es[k] * c.dt
    ensures states[n].integral == states[0].integral + Sum(es[..n]) * c.dt
    decreases n
  {
    if n > 0 {
      IntegralOfTrace(c, states, es, n - 1);
      assert es[..n][..n - 1] == es[..n - 1];
      Accumulate(states[0].integral, states[n - 1].integral, states[n].integral, Sum(es[..n - 1]), es[n - 1], Sum(es[..n]), c.dt);
    }
  }

  /**
   * `states` and `ys` are what successive updates produce on the error samples
   * `es`: every signal and every next state is `Step` of the previous state.
   */
  ghost predicate Trace(c: ControllerConfig, es: seq<real>, states: seq<ControllerState>, ys: seq<real>)
    requires c.a0 != 0.0
  {
    && |states| == |es| + 1 && |ys| == |es|
    && forall k {:trigger ys[k]} :: 0 <= k < |es| ==> (states[k + 1], ys[k]) == Step(c, states[k], es[k])
  }

  /**
   * The caller's loop of the demonstration: one `Update` per error sample, in
   * order, collecting the control signals.  `states` lists the states the
   * controller passes through; each signal and each next state is the
   * transition `Step` of the previous state.  The integral grows by the sum
   * of the errors times dt.
   */
  method FeedErrors(ctl: PILeadController, es: seq<real>) returns (ys: seq<real>, ghost states: seq<ControllerState>)
    requires ctl.a0 != 0.0
    modifies ctl
    ensures Trace(ctl.Config(), es, states, ys)
    ensures states[0] == old(ctl.State()) && states[|es|] == ctl.State()
    ensures ctl.integral == old(ctl.integral) + Sum(es) * ctl.dt
  {
    ys, states := [], [ctl.State()];
    for k := 0 to |es|
      invariant |ys| == k && |states| == k + 1
      invariant states[0] == old(ctl.State()) && states[k] == ctl.State()
      invariant forall j {:trigger ys[j]} :: 0 <= j < k ==> (states[j + 1], ys[j]) == Step(ctl.Config(), states[j], es[j])
    {
      var y := ctl.Update(es[k]);
      ys, states := ys + [y], states + [ctl.State()];
    }
    forall k {:trigger es[k]} | 0 <= k < |es| ensures states[k + 1].integral == states[k].integral + es[k] * ctl.Config().dt {
      assert (states[k + 1], ys[k]) == Step(ctl.Config(), states[k], es[k]);
    }
    IntegralOfTrace(ctl.Config(), states, es, |es|);
    assert es[..|es|] == es;
  }

  /** Two traces of the same configuration from the same state on the same errors agree. */
  lemma {:induction false} TraceDeterministic(c: ControllerConfig, es: seq<real>,
                                              states1: seq<ControllerState>, ys1: seq<real>,
                                              states2: seq<ControllerState>, ys2: seq<real>, n: nat)
    requires c.a0 != 0.0
    requires Trace(c, es, states1, ys1) && Trace(c, es, states2, ys2) && n <= |es|
    requires states1[0] == states2[0]
    ensures states1[n] == states2[n] && ys1[..n] == ys2[..n]
    decreases n
  {
    if n > 0 {
      TraceDeterministic(c, es, states1, ys1, states2, ys2, n - 1);
      assert (states1[n], ys1[n - 1]) == Step(c, states1[n - 1], es[n - 1]);
      assert (states2[n], ys2[n - 1]) == Step(c, states2[n - 1], es[n - 1]);
      assert ys1[..n] == ys1[..n - 1] + [ys1[n - 1]];
      assert ys2[..n] == ys2[..n - 1] + [ys2[n - 1]];
    }
  }

  /**
   * Determinism: two freshly constructed controllers of one configuration fed
   * the same errors return the same signals, namely the trace from the zero
   * state of the configuration the constructor derives.
   */
  method FreshRunsAgree(kp: real, ki: real, T1: real, T2: real, sampleTime: real, es: seq<real>)
    returns (ys1: seq<real>, ys2: seq<real>, ghost states: seq<ControllerState>)
    requires 2.0 * T2 + sampleTime != 0.0
    ensures Trace(ControllerConfig(kp, ki, T1, T2, sampleTime, 2.0 * T2 + sampleTime, sampleTime - 2.0 * T2,
                                   2.0 * T1 + sampleTime, sampleTime - 2.0 * T1), es, states, ys1)
    ensures states[0] == Zero
    ensures ys1 == ys2
  {
    var p := new PILeadController(kp, ki, T1, T2, sampleTime);
    var q := new PILeadController(kp, ki, T1, T2, sampleTime);
    ghost var states1, states2;
    ys1, states1 := FeedErrors(p, es);
    states := states1;
    ys2, states2 := FeedErrors(q, es);
    TraceDeterministic(p.Config(), es, states1, ys1, states2, ys2, |es|);
    assert ys1[..|es|] == ys1 && ys2[..|es|] == ys2;
  }

  lemma {:induction false} SumConstant(e: real, n: nat)
    ensures Sum(Constant(e, n)) == n as real * e
  {
    if n > 0 {
      assert Constant(e, n)[..n - 1] == Constant(e, n - 1);
      SumConstant(e, n - 1);
    }
  }

  /** After `Reset`, n updates with the same error e leave integral == n * e * dt. */
  method IntegralClosedForm(ctl: PILeadController, e: real, n: nat) returns (ys: seq<real>)
    requires ctl.a0 != 0.0
    modifies ctl
    ensures |ys| == n
    ensures ctl.integral == n as real * e * ctl.dt
  {
    ctl.Reset();
    ghost var states;
    ys, states := FeedErrors(ctl, Constant(e, n));
    SumConstant(e, n);
  }

  /** With ki == 0 and kp == 1 the PI stage passes the error through, whatever the integral. */
  lemma ProportionalOnly(c: ControllerConfig, s: ControllerState, e: real)
    requires c.a0 != 0.0 && c.ki == 0.0 && c.kp == 1.0
    ensures Step(c, s, e).0.xPrev == e
  {
  }

  // ----------------------------------------------------------------------
  // The first step after construction or reset

  /** The first output from the zeroed state is b0 (kp e + ki e dt) / a0. */
  lemma FirstStepFromZero(c: ControllerConfig, e: real)
    requires c.a0 != 0.0
    ensures Step(c, Zero, e).1 == c.b0 * (c.kp * e + c.ki * e * c.dt) / c.a0
    ensures Step(c, Zero, e).0 == ControllerState(e * c.dt, c.kp * e + c.ki * e * c.dt, Step(c, Zero, e).1)
  {
  }

  /**
   * After `Reset`, the next `Update(e)` returns what a freshly constructed
   * controller with the same configuration returns on its first `Update(e)`.
   */
  method ResetThenUpdateMatchesFresh(ctl: PILeadController, e: real) returns (y: real, yFresh: real)
    requires ctl.Valid() && ctl.a0 != 0.0
    modifies ctl
    ensures y == yFresh
    ensures y == ctl.b0 * (ctl.kp * e + ctl.ki * e * ctl.dt) / ctl.a0
  {
    ctl.Reset();
    y := ctl.Update(e);
    var other := new PILeadController(ctl.kp, ctl.ki, ctl.T1, ctl.T2, ctl.dt);
    yFresh := other.Update(e);
    FirstStepFromZero(ctl.Config(), e);
  }

  /** Calling `Reset` a second time leaves the state `Reset` produced once. */
  method ResetIsIdempotent(ctl: PILeadController) returns (once: ControllerState)
    modifies ctl
    ensures once == Zero && ctl.State() == once
  {
    ctl.Reset();
    once := ctl.State();
    ctl.Reset();
  }

  /**
   * The demonstration: kp = 1, ki = 0.5, T1 = 0.1, T2 = 0.05, dt = 0.01 and
   * 100 updates with error 0.2.  The first signal is 0.21 * 0.201 / 0.11 and
   * the integral ends at 100 * 0.2 * 0.01.
   */
  method DemoRun() returns (ys: seq<real>, integral: real)
    ensures |ys| == 100
    ensures ys[0] == 4221.0 / 11000.0
    ensures integral == 0.2
  {
    var ctl := new PILeadController(1.0, 0.5, 0.1, 0.05, 0.01);
    ghost var states;
    ys, states := FeedErrors(ctl, Constant(0.2, 100));
    assert (states[1], ys[0]) == Step(ctl.Config(), Zero, 0.2);
    FirstStepFromZero(ctl.Config(), 0.2);
    SumConstant(0.2, 100);
    integral := ctl.integral;
  }

  // ----------------------------------------------------------------------
  // Linearity

  /** The element-wise combination alpha A + beta B of two error sequences. */
  function Combine(alpha: real, A: seq<real>, beta: real, B: seq<real>): (r: seq<real>)
    requires |A| == |B|
    ensures |r| == |A| && forall i {:trigger r[i]} :: 0 <= i < |A| ==> r[i] == alpha * A[i] + beta * B[i]
  {
    seq(|A|, i requires 0 <= i < |A| => alpha * A[i] + beta * B[i])
  }

  function CombineState(alpha: real, s: ControllerState, beta: real, t: ControllerState): ControllerState
  {
    ControllerState(alpha * s.integral + beta * t.integral,
                    alpha * s.xPrev + beta * t.xPrev,
                    alpha * s.yPrev + beta * t.yPrev)
  }

  /** The filter step is linear jointly in its input and its memory. */
  lemma FilterLinear(c: ControllerConfig, alpha: real, x1: real, p1: real, q1: real,
                     beta: real, x2: real, p2: real, q2: real)
    requires c.a0 != 0.0
    ensures Filter(c, alpha * x1 + beta * x2, alpha * p1 + beta * p2, alpha * q1 + beta * q2)
         == alpha * Filter(c, x1, p1, q1) + beta * Filter(c, x2, p2, q2)
  {
    SuperposeSolutions(c.a0, c.a1, c.b0, c.b1, alpha, beta, x1, p1, q1, x2, p2, q2);
  }

  /** The integrator and the PI law are linear jointly in the state and the error sample. */
  lemma PiLinear(c: ControllerConfig, alpha: real, i1: real, e: real, beta: real, i2: real, f: real)
    ensures (alpha * i1 + beta * i2) + (alpha * e + beta * f) * c.dt
         == alpha * (i1 + e * c.dt) + beta * (i2 + f * c.dt)
    ensures PiOutput(c, alpha * e + beta * f, alpha * i1 + beta * i2)
         == alpha * PiOutput(c, e, i1) + beta * PiOutput(c, f, i2)
  {
    assert c.kp * (alpha * e + beta * f) == alpha * (c.kp * e) + beta * (c.kp * f);
    assert c.ki * (alpha * i1 + beta * i2) == alpha * (c.ki * i1) + beta * (c.ki * i2);
  }

  /** One update is linear jointly in the state and the error sample. */
  lemma StepLinear(c: ControllerConfig, alpha: real, s: ControllerState, e: real,
                   beta: real, t: ControllerState, f: real)
    requires c.a0 != 0.0
    ensures Step(c, CombineState(alpha, s, beta, t), alpha * e + beta * f).0
         == CombineState(alpha, Step(c, s, e).0, beta, Step(c, t, f).0)
    ensures Step(c, CombineState(alpha, s, beta, t), alpha * e + beta * f).1
         == alpha * Step(c, s, e).1 + beta * Step(c, t, f).1
  {
    var i1, i2 := s.integral + e * c.dt, t.integral + f * c.dt;
    PiLinear(c, alpha, s.integral, e, beta, t.integral, f);
    PiLinear(c, alpha, i1, e, beta, i2, f);
    StepOutputLinear(c, alpha, s, e, beta, t, f);
  }

  /** The signal part of `StepLinear`. */
  lemma StepOutputLinear(c: ControllerConfig, alpha: real, s: ControllerState, e: real,
                         beta: real, t: ControllerState, f: real)
    requires c.a0 != 0.0
    ensures Step(c, CombineState(alpha, s, beta, t), alpha * e + beta * f).1
         == alpha * Step(c, s, e).1 + beta * Step(c, t, f).1
  {
    var i1, i2 := s.integral + e * c.dt, t.integral + f * c.dt;
    PiLinear(c, alpha, s.integral, e, beta, t.integral, f);
    PiLinear(c, alpha, i1, e, beta, i2, f);
    var u1, u2 := PiOutput(c, e, i1), PiOutput(c, f, i2);
    FilterLinear(c, alpha, u1, s.xPrev, s.yPrev, beta, u2, t.xPrev, t.yPrev);
  }

  /**
   * Linearity lifted to traces: if r's trace starts at alpha p + beta q and is
   * driven by alpha A + beta B while p's is driven by A and q's by B, then after
   * n steps r's state is still the combination and each of its first n signals
   * is alpha times p's plus beta times q's.
   */
  lemma {:induction false} TraceLinear(c: ControllerConfig, alpha: real, A: seq<real>, ps: seq<ControllerState>, ys: seq<real>,
                                       beta: real, B: seq<real>, qs: seq<ControllerState>, zs: seq<real>,
                                       rs: seq<ControllerState>, ws: seq<real>, n: nat)
    requires c.a0 != 0.0 && |A| == |B| && n <= |A|
    requires Trace(c, A, ps, ys) && Trace(c, B, qs, zs) && Trace(c, Combine(alpha, A, beta, B), rs, ws)
    requires rs[0] == CombineState(alpha, ps[0], beta, qs[0])
    ensures rs[n] == CombineState(alpha, ps[n], beta, qs[n])
    ensures forall j {:trigger ws[j]} :: 0 <= j < n ==> ws[j] == alpha * ys[j] + beta * zs[j]
    decreases n
  {
    if n > 0 {
      var k := n - 1;
      TraceLinear(c, alpha, A, ps, ys, beta, B, qs, zs, rs, ws, k);
      StepLinear(c, alpha, ps[k], A[k], beta, qs[k], B[k]);
      assert (ps[n], ys[k]) == Step(c, ps[k], A[k]);
      assert (qs[n], zs[k]) == Step(c, qs[k], B[k]);
      assert Combine(alpha, A, beta, B)[k] == alpha * A[k] + beta * B[k];
      assert (rs[n], ws[k]) == Step(c, CombineState(alpha, ps[k], beta, qs[k]), alpha * A[k] + beta * B[k]);
    }
  }

  /**
   * Superposition, on three controllers of one configuration: p is fed A, q is
   * fed B, and r, started in the state alpha p + beta q, is fed alpha A + beta B.
   * Each run is the trace of its own errors, every signal of r is alpha times
   * p's plus beta times q's, and the final states stay combined.
   */
  method Superposition(p: PILeadController, q: PILeadController, r: PILeadController,
                       alpha: real, A: seq<real>, beta: real, B: seq<real>)
    returns (ys: seq<real>, zs: seq<real>, ws: seq<real>,
             ghost ps: seq<ControllerState>, ghost qs: seq<ControllerState>, ghost rs: seq<ControllerState>)
    requires p != q && q != r && p != r
    requires p.Config() == q.Config() == r.Config() && p.a0 != 0.0
    requires r.State() == CombineState(alpha, p.State(), beta, q.State())
    requires |A| == |B|
    modifies p, q, r
    ensures Trace(p.Config(), A, ps, ys) && ps[0] == old(p.State()) && ps[|A|] == p.State()
    ensures Trace(p.Config(), B, qs, zs) && qs[0] == old(q.State()) && qs[|A|] == q.State()
    ensures Trace(p.Config(), Combine(alpha, A, beta, B), rs, ws) && rs[0] == old(r.State()) && rs[|A|] == r.State()
    ensures ws == Combine(alpha, ys, beta, zs)
    ensures r.State() == CombineState(alpha, p.State(), beta, q.State())
  {
    ys, ps := FeedErrors(p, A);
    zs, qs := FeedErrors(q, B);
    ws, rs := FeedErrors(r, Combine(alpha, A, beta, B));
    TraceLinear(p.Config(), alpha, A, ps, ys, beta, B, qs, zs, rs, ws, |A|);
  }

  /**
   * From the zeroed state (after construction or reset) the controller is
   * linear in its error input: the signals for alpha A + beta B are alpha times
   * the signals for A plus beta times the signals for B.
   */
  method LinearFromZero(p: PILeadController, q: PILeadController, r: PILeadController,
                        alpha: real, A: seq<real>, beta: real, B: seq<real>)
    returns (ys: seq<real>, zs: seq<real>, ws: seq<real>,
             ghost ps: seq<ControllerState>, ghost qs: seq<ControllerState>, ghost rs: seq<ControllerState>)
    requires p != q && q != r && p != r
    requires p.Config() == q.Config() == r.Config() && p.a0 != 0.0
    requires |A| == |B|
    modifies p, q, r
    ensures Trace(p.Config(), A, ps, ys) && ps[0] == Zero
    ensures Trace(p.Config(), B, qs, zs) && qs[0] == Zero
    ensures Trace(p.Config(), Combine(alpha, A, beta, B), rs, ws) && rs[0] == Zero
    ensures ws == Combine(alpha, ys, beta, zs)
  {
    p.Reset();
    q.Reset();
    r.Reset();
    assert CombineState(alpha, Zero, beta, Zero) == Zero;
    ys, zs, ws, ps, qs, rs := Superposition(p, q, r, alpha, A, beta, B);
  }

  // ----------------------------------------------------------------------
  // Convergence under a held PI output

  /**
   * Any one update with error e leaves x_prev holding the PI output of e on
   * the new integral, which is what `HeldStep` and `HoldError` require.
   */
  lemma UpdateEntersHold(c: ControllerConfig, s: ControllerState, e: real)
    requires c.a0 != 0.0
    ensures Step(c, s, e).0.xPrev == PiOutput(c, e, Step(c, s, e).0.integral)
  {
  }

  /** The factor by which the deviation of the output from a held input shrinks per step. */
  function Rho(c: ControllerConfig): real
    requires c.a0 != 0.0
  {
    -c.a1 / c.a0
  }

  /** With a positive sample period and a positive pole time constant, |rho| < 1. */
  lemma ContractionFactor(c: ControllerConfig)
    requires TustinCoefficients(c) && c.dt > 0.0 && c.T2 > 0.0
    ensures c.a0 > 0.0
    ensures -1.0 < Rho(c) < 1.0
  {
    var r := Rho(c);
    assert r * c.a0 == -c.a1;
    assert -c.a0 < -c.a1 < c.a0;
    if r >= 1.0 {
      MulLe(1.0, r, c.a0);
    } else if r <= -1.0 {
      MulLe(r, -1.0, c.a0);
    }
  }

  /** Without a pole (T2 == 0) the factor is -1: a deviation alternates in sign and never decays. */
  lemma NoDecayWithoutPole(c: ControllerConfig)
    requires TustinCoefficients(c) && c.dt > 0.0 && c.T2 == 0.0
    ensures Rho(c) == -1.0
  {
    assert c.a0 == c.dt && c.a1 == c.dt;
    calc {
      Rho(c);
      -c.a1 / c.a0;
      -c.dt / c.dt;
      -1.0;
    }
  }

  /**
   * If the error is constant and the integral does not move the PI output
   * (ki * e * dt == 0), and the filter already holds that PI output as its
   * last input, one update keeps that input and scales the output's
   * deviation from it by Rho.
   */
  lemma HeldStep(c: ControllerConfig, s: ControllerState, e: real)
    requires TustinCoefficients(c) && c.a0 != 0.0 && c.ki * e * c.dt == 0.0
    requires s.xPrev == PiOutput(c, e, s.integral)
    ensures Step(c, s, e).0.xPrev == s.xPrev
    ensures Step(c, s, e).0.xPrev == PiOutput(c, e, Step(c, s, e).0.integral)
    ensures Step(c, s, e).1 - s.xPrev == Rho(c) * (s.yPrev - s.xPrev)
  {
    var r := Step(c, s, e);
    var u := s.xPrev;
    assert c.ki * (s.integral + e * c.dt) == c.ki * s.integral + c.ki * e * c.dt;
    assert r.0.xPrev == u;
    UnityDcGain(c, u);
    HeldSolution(c.a0, c.a1, c.b0, c.b1, u, s.yPrev, r.1);
  }

  /**
   * One update under a held error: the filter input stays u and a deviation
   * of Rho^k d becomes Rho^(k+1) d.
   */
  method HoldOnce(ctl: PILeadController, e: real, ghost u: real, ghost k: nat, ghost d: real) returns (y: real)
    requires ctl.Valid() && ctl.a0 != 0.0 && ctl.ki * e * ctl.dt == 0.0
    requires ctl.State().xPrev == u == PiOutput(ctl.Config(), e, ctl.State().integral)
    requires ctl.State().yPrev - u == Pow(Rho(ctl.Config()), k) * d
    modifies ctl
    ensures ctl.State().xPrev == u == PiOutput(ctl.Config(), e, ctl.State().integral)
    ensures ctl.State().yPrev - u == Pow(Rho(ctl.Config()), k + 1) * d
    ensures y - u == Pow(Rho(ctl.Config()), k + 1) * d
  {
    ghost var c, before := ctl.Config(), ctl.State();
    HeldStep(c, before, e);
    y := ctl.Update(e);
    PowStep(Rho(c), k, d, before.yPrev - before.xPrev, y - before.xPrev);
  }

  /**
   * Holding such an error for n updates keeps the filter input and shrinks the
   * output's deviation from it geometrically: after n updates the last signal
   * deviates by Rho^n times the initial deviation.
   */
  method HoldError(ctl: PILeadController, e: real, n: nat) returns (ys: seq<real>)
    requires ctl.Valid() && ctl.a0 != 0.0 && ctl.ki * e * ctl.dt == 0.0
    requires ctl.xPrev == PiOutput(ctl.Config(), e, ctl.integral)
    modifies ctl
    ensures |ys| == n
    ensures ctl.xPrev == old(ctl.xPrev)
    ensures ctl.yPrev - ctl.xPrev == Pow(Rho(ctl.Config()), n) * (old(ctl.yPrev) - old(ctl.xPrev))
    ensures n > 0 ==> ys[n - 1] == ctl.yPrev
  {
    ghost var u, d := ctl.xPrev, ctl.yPrev - ctl.xPrev;
    ys := [];
    for k := 0 to n
      invariant |ys| == k
      invariant ctl.State().xPrev == u == PiOutput(ctl.Config(), e, ctl.State().integral)
      invariant ctl.State().yPrev - u == Pow(Rho(ctl.Config()), k) * d
      invariant k > 0 ==> ys[k - 1] == ctl.yPrev
    {
      var y := HoldOnce(ctl, e, u, k, d);
      ys := ys + [y];
    }
  }

  /**
   * Steady state: with 0 < dt and 0 < T2 every deviation d scaled by Rho^n
   * gets and stays within any eps > 0 of zero, so the signals of `HoldError`
   * settle on the held PI output.
   */
  lemma HeldOutputConverges(c: ControllerConfig, d: real, eps: real) returns (N: nat)
    requires TustinCoefficients(c) && c.dt > 0.0 && c.T2 > 0.0 && eps > 0.0
    ensures forall n: nat :: N <= n ==> -eps < Pow(Rho(c), n) * d < eps
  {
    ContractionFactor(c);
    N := GeometricDecay(Rho(c), d, eps);
  }
}
