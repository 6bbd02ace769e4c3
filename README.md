# react-use-count-up, modelled in Dafny

This project models the two parts of `react-use-count-up` that carry logic:

- **The easing library** (`src/easing-functions.ts`). Every easing function maps elapsed time `t`, start value `b`, total change `c` and duration `d` to an interpolated value. The family constructors `easeOutPoly(n)` and `easeInPoly(n)` build a function for a rounded degree. Module `EasingFunctions` (`easing_functions.dfy`) writes each member as a function over exact `real`s. An easing function as a value is the datatype `Easing`: it has one tag per named member, `OutPoly(k)`/`InPoly(k)` for the closures the constructors build, and `Custom(f)` for any other callable. `Apply` calls the value.
- **The count-up hook** (`src/index.ts`). It resolves the requested easing function by name. It then samples that function once per interval firing, adding 17 ms each time. When the elapsed time reaches the duration, it emits the end value exactly and clears the interval. Module `CountUp` (`count_up.dfy`) has three parts:
  - `Resolve` does the name resolution.
  - `Step` gives one firing of the interval callback as a function on a `Snapshot` (elapsed time, value, running).
  - The class `CountUpHook` holds the hook's state. Its methods are `Tick` (one firing), `RunToEnd` (firings until the interval clears itself), `Cancel` (the effect's cleanup) and `Update` (a change of dependencies: cleanup, then a fresh session). `Tick` is proved against `Step` and `RunToEnd` against its iterate `Steps`. `Cancel` and `Update` state their whole new state directly in their postconditions.

The main results:
- Every polynomial member starts exactly at `b` and ends exactly at `b + c`.
- Every polynomial member equals `b + c * UnitCurve(e, t/d)`. Here `UnitCurve` is `p^k` for the "in" members and `1 - (1-p)^k` for the "out" members. So on `[0, d]` each member stays between `b` and `b + c` and moves monotonically.
- The parity sign `x` of `easeOutPoly` makes the general "out" formula equal `easeInPoly` played backwards from the end value, for every degree. As a result the general formulas agree with the hand-written Quad, Cubic, Quart and Quint members. The fast paths for `n <= 1` and `n <= 2` agree with the general formula at degree 1 and 2, and with the formula at degree `round(n)` for `n` in `(0.5, 1]` and `[1.5, 2]`.
- A session from time 0 keeps running for exactly `EmitCount(duration)` firings, where `EmitCount(duration)` is the least `k` with `17k >= duration`. The next firing emits exactly `end` and stops the session. After that nothing changes. Time stays a multiple of 17.

`Math.pow(2, ·)`, which only the two Expo members use, is a foreign call with a real exponent. The model takes it as a parameter `exp2: real -> real`.

Three behaviours of the code are easy to miss:
- `easeInExpo(0, b, c, d)` is `b + c/1024`, not `b` (see `ExpoEndpoints`).
- The hook's value comes from `useState(start)`. It is initialised only on the first render. A session started later by a change of dependencies keeps showing the previous value until its first firing (see `CountUpHook.Update`).
- For `1 < n < 1.5`, `easeOutPoly(n)` and `easeInPoly(n)` return the quadratic, although `round(n)` is 1. At `n = 1.2`, half-way through, they give `b + 0.75c` and `b + 0.25c`, where degree 1 gives `b + 0.5c` (see `PolyFastPathDiffersFromRounding`).

## Model

| member | source | states |
|---|---|---|
| `EasingFunctions.JsRound` | src/easing-functions.ts:61 | `Math.round` yields the integer within half a unit of its argument, rounding halves upward |
| `EasingFunctions.EaseOutPoly` | src/easing-functions.ts:57-62 | `easeOutPoly(n)` is `linear` for `n <= 1`, `easeOutQuad` for `1 < n <= 2`, otherwise the general closure of degree `round(n) >= 2` |
| `EasingFunctions.EaseInPoly` | src/easing-functions.ts:70-74 | `easeInPoly(n)` is `linear` for `n <= 1`, `easeInQuad` for `1 < n <= 2`, otherwise the general closure of degree `round(n) >= 2` |
| `EasingFunctions.PowNeg` | src/easing-functions.ts:62-66 | `(-x)^k` is `x^k` for even `k` and `-x^k` for odd `k`, which is what the sign `x` of `easeOutPoly` compensates |
| `EasingFunctions.PowOne` | src/easing-functions.ts:66 | `1^k = 1` for every degree, so the general formulas reach their end value |
| `EasingFunctions.PowUnit` | src/easing-functions.ts:66 | `x^k` stays in `[0, 1]` for `x` in `[0, 1]` |
| `EasingFunctions.PowMonotone` | src/easing-functions.ts:66 | `x^k` does not decrease on non-negative arguments |
| `EasingFunctions.OutIsReversedIn` | src/easing-functions.ts:61-78 | the general `easeOutPoly` closure equals the `easeInPoly` closure run backwards from `b + c` with change `-c`, i.e. `b + c(1 - (1 - t/d)^k)`, for every degree |
| `EasingFunctions.OutFormulaMatchesNamed` | src/easing-functions.ts:3-67 | `linear`, `easeOutQuad`, `easeOutCubic`, `easeOutQuart`, `easeOutQuint` equal the general "out" formula at degrees 1 to 5 |
| `EasingFunctions.InFormulaMatchesNamed` | src/easing-functions.ts:3-78 | `linear`, `easeInQuad`, `easeInCubic`, `easeInQuart`, `easeInQuint` equal the general "in" formula at degrees 1 to 5 |
| `EasingFunctions.PolynomialAsGeneral` | src/easing-functions.ts:3-78 | every polynomial member is the general "out" formula (for the "out" members) or the general "in" formula (otherwise) at its degree |
| `EasingFunctions.PolynomialAsUnitCurve` | src/easing-functions.ts:3-78 | every polynomial member is `b + c * UnitCurve(e, t/d)` |
| `EasingFunctions.UnitCurveEndpoints` | src/easing-functions.ts:15-78 | each polynomial curve is 0 at `p = 0` and 1 at `p = 1` |
| `EasingFunctions.UnitCurveMonotone` | src/easing-functions.ts:15-78 | each polynomial curve stays within `[0, 1]` on the unit interval and does not decrease there |
| `EasingFunctions.PolynomialEndpoints` | src/easing-functions.ts:3-78 | every polynomial member (`linear`, Quad to Quint in and out, general closures of degree >= 1) returns exactly `b` at `t = 0` and exactly `b + c` at `t = d` |
| `EasingFunctions.NoChangeStaysAtStart` | src/easing-functions.ts:3-78 | with `c = 0` every library member returns `b` for every `t` |
| `EasingFunctions.PolynomialMonotoneWithinRange` | src/easing-functions.ts:3-78 | for `0 <= t1 <= t2 <= d`, a polynomial member never leaves the segment between `b` and `b + c` and moves towards `b + c` |
| `EasingFunctions.EaseOutPolyMatchesGeneral` | src/easing-functions.ts:57-67 | whatever `n`, `easeOutPoly(n)` agrees pointwise with the general formula at the degree its branch stands for: 1 for `n <= 1`, 2 for `1 < n <= 2`, `round(n)` otherwise |
| `EasingFunctions.EaseInPolyMatchesGeneral` | src/easing-functions.ts:70-78 | likewise for `easeInPoly(n)` |
| `EasingFunctions.EaseOutPolyMatchesRounded` | src/easing-functions.ts:57-67 | for `n` in `(0.5, 1]` or `n >= 1.5`, `easeOutPoly(n)` is exactly the general formula at degree `round(n) >= 1` |
| `EasingFunctions.EaseInPolyMatchesRounded` | src/easing-functions.ts:70-78 | likewise for `easeInPoly(n)` |
| `EasingFunctions.PolyFastPathDiffersFromRounding` | src/easing-functions.ts:57-78 | for `1 < n < 1.5`, `round(n)` is 1 but the fast path is the quadratic: at `t = d/2` the "out" member gives `b + 0.75c` and the "in" member `b + 0.25c`, against `b + 0.5c` at degree 1, so they differ whenever `c != 0` |
| `EasingFunctions.GeneralPolyMatchesNamed` | src/easing-functions.ts:57-78 | for `n > 2` with `round(n)` in 2..5, the general closures equal the hand-written Quad, Cubic, Quart or Quint member pointwise (including `n` in `(2, 2.5)`, which takes the general path) |
| `EasingFunctions.LinearSamples` | src/__tests__/easing-functions.ts:8-10 | `linear(0,10,44,88) = 10`, `linear(88,10,44,88) = 54`, `linear(24,10,44,88) = 24/88*44 + 10` |
| `EasingFunctions.ExpoEndpoints` | src/easing-functions.ts:7-13 | given `2^0 = 1`, `easeOutExpo` starts at `b` and `easeInExpo` ends at `b + c`; given `2^-10 = 1/1024`, `easeOutExpo` ends at `b + c - c/1024` and `easeInExpo` starts at `b + c/1024` |
| `CountUp.IntervalDelayIsRoundedFrame` | src/index.ts:27-28 | the interval delay 17 is `Math.round(1 / 60 * 1000)` |
| `CountUp.Resolve` | src/index.ts:37-64 | a callable passes through unchanged, an absent choice gives `easeOutExpo`, and a name always gives one of the eleven selectable functions |
| `CountUp.ResolveByOwnName` | src/index.ts:40-61 | each of the eleven selectable functions is found under its own name |
| `CountUp.ResolveName` | src/index.ts:40-63 | a recognised name resolves to the function of that name; an unrecognised one falls back to `easeOutExpo` |
| `CountUp.EmitCount` | src/index.ts:66-81 | the number of firings that emit an eased value is the least `k` with `17k >= duration` |
| `CountUp.TicksToStop` | src/index.ts:66-81 | the session clears its interval on firing 1 when `duration <= 0`, and otherwise on firing `ceil(duration/17) + 1` |
| `CountUp.StoppedStaysPut` | src/index.ts:71-74 | once the interval is cleared, no number of further firings changes time or value |
| `CountUp.RunningPrefix` | src/index.ts:66-81 | up to firing `EmitCount`, the session runs, its time is `17n`, and its value is `fn(17(n-1), start, end - start, duration)` |
| `CountUp.StepsSplit` | src/index.ts:69-82 | `m + n` firings are `m` firings followed by `n` firings |
| `CountUp.SessionEnds` | src/index.ts:69-82 | the session runs iff fewer than `TicksToStop(duration)` firings have happened; from then on its state is exactly `(17 * EmitCount, end, stopped)` |
| `CountUp.SessionTimes` | src/index.ts:66-81 | time is always a multiple of 17 and never above `17 * EmitCount`; for a positive duration the final time lies in `[duration, duration + 17)` |
| `CountUp.ZeroDurationEndsAtOnce` | src/index.ts:66-74 | with `duration <= 0` the first firing emits `end` and stops |
| `CountUp.FirstValueIsStart` | src/index.ts:66-78 | with a polynomial easing function and a positive duration, the first emitted value is `start` |
| `CountUp.HundredOverHundred` | src/index.ts:69-82 | from 0 to 100 over 100 ms with the easing left unset (so `easeOutExpo`), six firings run and any later firing leaves the value at exactly 100 with time 102 |
| `CountUp.CountUpHook.constructor` | src/index.ts:31-69 | on first render the value is `start`, the time 0, and the interval runs iff `started` |
| `CountUp.CountUpHook.Tick` | src/index.ts:69-82 | one firing changes the state exactly as `Step` says and keeps the time on the 17 ms grid |
| `CountUp.CountUpHook.Cancel` | src/index.ts:85 | cleanup stops the interval and changes nothing else; cancelling twice is the same as once |
| `CountUp.CountUpHook.Update` | src/index.ts:33-87 | a dependency change clears the old interval, keeps the value, and restarts time at 0 with the new session iff `started` |
| `CountUp.CountUpHook.RunToEnd` | src/index.ts:69-82 | letting the interval fire until it clears itself ends at exactly `end`; from a fresh session it takes `TicksToStop(duration)` firings |

## Left out

- IEEE-754 arithmetic: numbers are exact reals, so the model's values differ from JavaScript's only by floating-point error. NaN and infinite inputs are not modelled, and a zero duration in an easing call is excluded by `requires d != 0.0`. The hook never makes such a call: it calls the easing function only when `0 <= time < duration`.
- The exact values of `easeOutExpo` and `easeInExpo`, including the rounded test values 54 and 47 (src/__tests__/easing-functions.ts:17-19). They depend on `Math.pow` with a real exponent, which the model takes as the parameter `exp2`.
- The React shell: `useState` and `useEffect`, and the comparison of dependencies (src/index.ts:87). `CountUpHook.Update` models a render whose dependencies changed. A render with identical dependencies reruns nothing and is not modelled.
- `setInterval`/`clearInterval` timing: each call of `Tick` is one firing of the interval. Real-time jitter is not modelled.
- Output formatting (src/index.ts:89): `toFixed(0)` and the caller's formatter turn a number into a string and are not part of this model.
