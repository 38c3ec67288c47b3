# PI-lead controller in Dafny

This project models `PILeadController` from `src/PI_Lead.py`. The controller is:

- a proportional-integral (PI) law `u = kp e + ki integral`;
- followed by a first-order lead filter `(1 + T1 s) / (1 + T2 s)`;
- with the filter discretised by the bilinear (Tustin) transform.

All arithmetic is exact, over `real`.

The project has three modules:

- `PILead` (`PILead.dfy`) holds the model.
  - The class `PILeadController` mirrors the Python object:
    - the configuration and the four derived coefficients `a0, a1, b0, b1` are `const` fields, since only the constructor assigns them;
    - `integral`, `xPrev` and `yPrev` are mutable fields that `Reset` and `Update` overwrite.
  - Beside the class is a value-level description of one sampling step: `ControllerConfig`, `ControllerState`, `Filter`, `PiOutput` and `Step`. `Update` is proved to perform exactly the transition `Step` of its old state.
- `PILeadProperties` (`PILeadProperties.dfy`) states and proves the controller's properties:
  - construction and `reset`;
  - the integrator's closed form;
  - the Tustin origin of the coefficients and unity DC gain;
  - determinism and linearity over whole error sequences;
  - geometric convergence of the filter under a held PI output;
  - the demonstration run.
- `RealArith` (`RealArith.dfy`) holds the real-arithmetic facts those proofs rewrite with.

Repeated calls to `update` appear as caller loops over the object, `FeedErrors` and `HoldError`. `FeedErrors` returns the signals and, as a ghost result, the sequence of states the controller passes through. The predicate `Trace` says that each step of that sequence, and each signal, is `Step` of the previous state. `FreshRunsAgree`, `Superposition` and `LinearFromZero` run `FeedErrors` on several controllers and return these traces.

The program validates neither `dt` nor `a0`, so the constructor has no precondition. `Update` requires `a0 != 0`; where that fails, Python raises `ZeroDivisionError` at src/PI_Lead.py:53.

## Model

| member | source | states |
|---|---|---|
| PILead.PILeadController.constructor | src/PI_Lead.py:13-28 | stores the five parameters; a0 = 2 T2 + dt, a1 = dt - 2 T2, b0 = 2 T1 + dt, b1 = dt - 2 T1; integral, x_prev and y_prev are zero; the stored coefficients are the Tustin coefficients of the stored time constants |
| PILead.PILeadController.Reset | src/PI_Lead.py:30-34 | zeroes integral, x_prev and y_prev; the configuration is unchanged (const fields) |
| PILead.PILeadController.Update | src/PI_Lead.py:46-59 | integral grows by error dt; x_prev becomes kp error + ki integral (new integral); the result is (b0 x + b1 x_prev - a1 y_prev) / a0, with the OLD x_prev and y_prev; y_prev becomes the result; the new state and result are exactly `Step` of the old state; requires a0 != 0 |
| PILead.Filter | src/PI_Lead.py:50-53 | the filter output satisfies the difference equation a0 y[k] + a1 y[k-1] = b0 x[k] + b1 x[k-1] |
| PILeadProperties.FilterUnique | src/PI_Lead.py:50-53 | a value satisfies the difference equation if and only if it is the filter output (both directions) |
| PILeadProperties.TustinDiscretisation | src/PI_Lead.py:19-23 | wherever both are defined, (b0 z + b1) / (a0 z + a1) equals (1 + T1 s) / (1 + T2 s) at s = (2 / dt)(z - 1)/(z + 1), and the continuous side is then defined |
| PILeadProperties.GeometricResponse | src/PI_Lead.py:20-23 | the discrete response H(z) = (b0 z + b1) / (a0 z + a1) is the filter's gain on geometric inputs: after input x and output H(z) x, the input z x gives the output H(z) z x |
| PILeadProperties.UnityDcGain | src/PI_Lead.py:20-23 | b0 + b1 - a1 == a0, so a filter whose input and memory all hold u outputs u |
| PILeadProperties.UnityDcGainStep | src/PI_Lead.py:47-53 | an update whose PI output equals the held filter memory returns that value |
| PILeadProperties.IntegralOfTrace | src/PI_Lead.py:47 | along states each of whose integrals grew by one error times dt, the integral after n steps is the initial one plus dt times the sum of the first n errors |
| PILeadProperties.FeedErrors | src/PI_Lead.py:74-75 | one update per error, in order: the signals and states form a `Trace` (every signal and next state is `Step` of the previous state) starting at the controller's old state and ending at its new one, and the integral has grown by dt times the sum of the errors |
| PILeadProperties.TraceDeterministic | src/PI_Lead.py:47-57 | two step-by-step traces of one configuration from one state on the same errors have the same states and the same signals |
| PILeadProperties.FreshRunsAgree | src/PI_Lead.py:13-59 | two freshly constructed controllers with the same parameters, fed the same errors, return identical signal sequences, namely the `Trace` from the zero state of the configuration with the constructor's coefficients |
| PILeadProperties.IntegralClosedForm | src/PI_Lead.py:47 | after reset and n updates with the same error e, integral == n e dt |
| PILeadProperties.ProportionalOnly | src/PI_Lead.py:48 | with ki == 0 and kp == 1 the PI stage output equals the error, whatever the integral |
| PILeadProperties.FirstStepFromZero | src/PI_Lead.py:47-57 | from the zero state, one update gives integral e dt, x_prev kp e + ki e dt and output b0 (kp e + ki e dt) / a0 |
| PILeadProperties.ResetThenUpdateMatchesFresh | src/PI_Lead.py:30-59 | after reset, the next update returns what a freshly constructed controller of the same configuration returns on its first update, namely b0 (kp e + ki e dt) / a0 |
| PILeadProperties.ResetIsIdempotent | src/PI_Lead.py:30-34 | a second reset leaves the zero state the first one produced |
| PILeadProperties.DemoRun | src/PI_Lead.py:62-75 | the demonstration's 100 updates with error 0.2 return 100 signals; the first is 0.21 * 0.201 / 0.11 = 4221/11000, and the integral ends at 0.2 |
| PILeadProperties.FilterLinear | src/PI_Lead.py:53 | the filter output is linear jointly in its input and its memory |
| PILeadProperties.PiLinear | src/PI_Lead.py:47-48 | the integrator step and the PI law are linear jointly in the integral and the error |
| PILeadProperties.StepLinear | src/PI_Lead.py:47-57 | one update from alpha s + beta t on alpha e + beta f gives alpha times the state and signal for (s, e) plus beta times those for (t, f) |
| PILeadProperties.TraceLinear | src/PI_Lead.py:47-57 | for traces on A, on B and on alpha A + beta B whose initial states combine, the n-th states still combine and each of the first n signals of the third is alpha times the first's plus beta times the second's |
| PILeadProperties.Superposition | src/PI_Lead.py:47-57 | three controllers of one configuration, fed A, B and alpha A + beta B, the third started at alpha p + beta q: each returns the `Trace` of its own errors from its old state, each signal of the third is alpha times p's plus beta times q's, and the final states stay combined |
| PILeadProperties.LinearFromZero | src/PI_Lead.py:30-59 | after reset, the three runs are the traces from the zero state on A, on B and on alpha A + beta B, and the signals for alpha A + beta B are alpha times the signals for A plus beta times those for B |
| PILeadProperties.ContractionFactor | src/PI_Lead.py:20-21 | with dt > 0 and T2 > 0, a0 > 0 and the pole -a1/a0 lies strictly between -1 and 1 |
| PILeadProperties.NoDecayWithoutPole | src/PI_Lead.py:20-21 | with T2 == 0 the pole is -1, so a deviation never decays |
| PILeadProperties.UpdateEntersHold | src/PI_Lead.py:47-56 | after any update with error e, x_prev holds the PI output of e on the new integral, the condition `HeldStep` and `HoldError` start from |
| PILeadProperties.HeldStep | src/PI_Lead.py:47-57 | if ki e dt == 0 and x_prev already holds the PI output, an update keeps x_prev and multiplies the output's deviation from it by -a1/a0 |
| PILeadProperties.HoldError | src/PI_Lead.py:47-57 | under that held error, n updates keep x_prev, and the last signal (== y_prev) deviates from it by (-a1/a0)^n times the initial deviation |
| PILeadProperties.HeldOutputConverges | src/PI_Lead.py:20-21 | with dt > 0 and T2 > 0, (-a1/a0)^n d gets and stays within any eps > 0 of zero from some N on, so the held signals converge to the held PI output |

## Left out

- The vision modules (`src/vision/`) and their camera and OpenCV I/O are not part of this model.
- The demonstration's `print` of each signal (src/PI_Lead.py:76) is left out: it is output only.
- IEEE-754 floating point is not modelled. Arithmetic is exact over `real`, so rounding, overflow and NaN or infinity propagation are absent.
- Parameter validation is not modelled, because the program does none. `Update` requires `a0 != 0`, where Python raises `ZeroDivisionError` at src/PI_Lead.py:53. By then Python has already added `error * dt` to `self.integral` (src/PI_Lead.py:47), so the failed call leaves a half-updated object; the precondition excludes that state from the model.
- Output saturation, anti-windup and a check of `T1 > T2` are absent from the program and from the model.
- Call timing is the caller's responsibility. The model does not relate `dt` to wall-clock time.
- PILeadProperties.HoldError: states the deviation of the final state and of the last signal only. The signal after any k < n updates is covered by `HoldError` with n = k.
- PILeadProperties.HeldOutputConverges: convergence is proved only when the PI output is held, which takes both ki e dt == 0 and x_prev equal to the PI output of e. `UpdateEntersHold` shows that one update with e, for example the first one after construction or reset, establishes the second condition. With ki != 0 and a nonzero constant error the integral ramps without bound, so there is no steady state to converge to.
- PILeadProperties.Superposition: the three controllers must be distinct objects, because linearity over one shared object has no meaning.
