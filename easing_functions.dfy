/** The easing-function library: each easing function maps elapsed time `t`,
    start value `b`, total change `c` and duration `d` to the interpolated
    value. JavaScript numbers are modelled as exact reals; a zero duration
    (a division by zero in JavaScript) is excluded by `requires d != 0.0`. */
module EasingFunctions {

  /** `x ** k` for a natural exponent. */
  function Pow(x: real, k: nat): real
  {
    if k == 0 then 1.0 else x * Pow(x, k - 1)
  }

  /** `Math.round`: the nearest integer, halves rounded upward. */
  function JsRound(x: real): (r: int)
    ensures x - 0.5 < r as real <= x + 0.5
  {
    (x + 0.5).Floor
  }

  // ---------------------------------------------------------------------
  // The named easing functions, as the library writes them.
  // `p` stands for the rebinding `t /= d`, `u` for the following `t--`.
  // ---------------------------------------------------------------------

  function Linear(t: real, b: real, c: real, d: real): real
    requires d != 0.0
  {
    c * t / d + b
  }

  /** `exp2` is `Math.pow(2, ·)`, a foreign call with a real exponent. */
  function EaseOutExpo(exp2: real -> real, t: real, b: real, c: real, d: real): real
    requires d != 0.0
  {
    c * (-exp2(-10.0 * t / d) + 1.0) + b
  }

  function EaseInExpo(exp2: real -> real, t: real, b: real, c: real, d: real): real
    requires d != 0.0
  {
    c * exp2(10.0 * (t / d - 1.0)) + b
  }

  function EaseOutQuad(t: real, b: real, c: real, d: real): real
    requires d != 0.0
  {
    var p := t / d;
    -c * p * (p - 2.0) + b
  }

  function EaseInQuad(t: real, b: real, c: real, d: real): real
    requires d != 0.0
  {
    var p := t / d;
    c * p * p + b
  }

  function EaseOutCubic(t: real, b: real, c: real, d: real): real
    requires d != 0.0
  {
    var u := t / d - 1.0;
    c * (u * u * u + 1.0) + b
  }

  function EaseInCubic(t: real, b: real, c: real, d: real): real
    requires d != 0.0
  {
    var p := t / d;
    c * p * p * p + b
  }

  function EaseOutQuart(t: real, b: real, c: real, d: real): real
    requires d != 0.0
  {
    var u := t / d - 1.0;
    -c * (u * u * u * u - 1.0) + b
  }

  function EaseInQuart(t: real, b: real, c: real, d: real): real
    requires d != 0.0
  {
    var p := t / d;
    c * p * p * p * p + b
  }

  function EaseOutQuint(t: real, b: real, c: real, d: real): real
    requires d != 0.0
  {
    var u := t / d - 1.0;
    c * (u * u * u * u * u + 1.0) + b
  }

  function EaseInQuint(t: real, b: real, c: real, d: real): real
    requires d != 0.0
  {
    var p := t / d;
    c * p * p * p * p * p + b
  }

  /** The closure `easeOutPoly` builds for a rounded degree `k`: the sign `x`
      is -1 for an even degree and 1 for an odd one. */
  function GeneralOut(k: nat, t: real, b: real, c: real, d: real): real
    requires d != 0.0
  {
    var x := if k % 2 == 0 then -1.0 else 1.0;
    var u := t / d - 1.0;
    c * x * (Pow(u, k) + x) + b
  }

  /** The closure `easeInPoly` builds for a rounded degree `k`. */
  function GeneralIn(k: nat, t: real, b: real, c: real, d: real): real
    requires d != 0.0
  {
    c * Pow(t / d, k) + b
  }

  // ---------------------------------------------------------------------
  // Easing functions as values: what a caller holds and passes around.
  // ---------------------------------------------------------------------

  datatype Easing =
    | LinearFn
    | OutExpo | InExpo
    | OutQuad | InQuad
    | OutCubic | InCubic
    | OutQuart | InQuart
    | OutQuint | InQuint
    | OutPoly(degree: nat)   // the closure returned by easeOutPoly for n > 2
    | InPoly(degree: nat)    // the closure returned by easeInPoly for n > 2
    | Custom(f: (real, real, real, real) -> real)  // any other callable

  /** Calls the easing function `e` with `(t, b, c, d)`. */
  function Apply(e: Easing, exp2: real -> real, t: real, b: real, c: real, d: real): real
    requires d != 0.0
  {
    match e
    case LinearFn => Linear(t, b, c, d)
    case OutExpo => EaseOutExpo(exp2, t, b, c, d)
    case InExpo => EaseInExpo(exp2, t, b, c, d)
    case OutQuad => EaseOutQuad(t, b, c, d)
    case InQuad => EaseInQuad(t, b, c, d)
    case OutCubic => EaseOutCubic(t, b, c, d)
    case InCubic => EaseInCubic(t, b, c, d)
    case OutQuart => EaseOutQuart(t, b, c, d)
    case InQuart => EaseInQuart(t, b, c, d)
    case OutQuint => EaseOutQuint(t, b, c, d)
    case InQuint => EaseInQuint(t, b, c, d)
    case OutPoly(k) => GeneralOut(k, t, b, c, d)
    case InPoly(k) => GeneralIn(k, t, b, c, d)
    case Custom(f) => f(t, b, c, d)
  }

  /** `easeOutPoly(n)`: linear up to degree 1, the quadratic up to degree 2,
      otherwise the general closure for the rounded degree. */
  function EaseOutPoly(n: real): (e: Easing)
    ensures n <= 1.0 ==> e == LinearFn
    ensures 1.0 < n <= 2.0 ==> e == OutQuad
    ensures n > 2.0 ==> e.OutPoly? && e.degree >= 2 && n - 0.5 < e.degree as real <= n + 0.5
  {
    if n <= 1.0 then LinearFn
    else if n <= 2.0 then OutQuad
    else OutPoly(JsRound(n))
  }

  /** `easeInPoly(n)`, dispatched like `easeOutPoly`. */
  function EaseInPoly(n: real): (e: Easing)
    ensures n <= 1.0 ==> e == LinearFn
    ensures 1.0 < n <= 2.0 ==> e == InQuad
    ensures n > 2.0 ==> e.InPoly? && e.degree >= 2 && n - 0.5 < e.degree as real <= n + 0.5
  {
    if n <= 1.0 then LinearFn
    else if n <= 2.0 then InQuad
    else InPoly(JsRound(n))
  }

  // ---------------------------------------------------------------------
  // Every polynomial member as b + c * (a curve on the unit interval).
  // ---------------------------------------------------------------------

  /** The members whose value is a polynomial in `t / d` reaching `b + c` at `t = d`. */
  predicate IsPolynomial(e: Easing)
  {
    match e
    case OutExpo => false
    case InExpo => false
    case Custom(_) => false
    case OutPoly(k) => k >= 1
    case InPoly(k) => k >= 1
    case _ => true
  }

  /** The "out" members: they decelerate towards the end value. */
  predicate IsEaseOut(e: Easing)
  {
    e.OutQuad? || e.OutCubic? || e.OutQuart? || e.OutQuint? || e.OutPoly?
  }

  /** Polynomial degree of a polynomial member. */
  function Degree(e: Easing): nat
    requires IsPolynomial(e)
  {
    match e
    case LinearFn => 1
    case OutQuad => 2
    case InQuad => 2
    case OutCubic => 3
    case InCubic => 3
    case OutQuart => 4
    case InQuart => 4
    case OutQuint => 5
    case InQuint => 5
    case OutPoly(k) => k
    case InPoly(k) => k
  }

  /** The shape of a polynomial member on the unit interval: `p^k` for the
      "in" members, its mirror image `1 - (1 - p)^k` for the "out" members. */
  function UnitCurve(e: Easing, p: real): real
    requires IsPolynomial(e)
  {
    if IsEaseOut(e) then 1.0 - Pow(1.0 - p, Degree(e)) else Pow(p, Degree(e))
  }

  // ---------------------------------------------------------------------
  // Facts about Pow and division.
  // ---------------------------------------------------------------------

  lemma PowSmall(x: real)
    ensures Pow(x, 1) == x
    ensures Pow(x, 2) == x * x
    ensures Pow(x, 3) == x * x * x
    ensures Pow(x, 4) == x * x * x * x
    ensures Pow(x, 5) == x * x * x * x * x
  {
    assert Pow(x, 1) == x * Pow(x, 0);
    assert Pow(x, 2) == x * Pow(x, 1);
    assert Pow(x, 3) == x * Pow(x, 2);
    assert Pow(x, 4) == x * Pow(x, 3);
    assert Pow(x, 5) == x * Pow(x, 4);
  }

  lemma DivFacts(c: real, t: real, d: real)
    requires d != 0.0
    ensures c * t / d == c * (t / d)
    ensures (d - t) / d == 1.0 - t / d
    ensures 0.0 / d == 0.0 && d / d == 1.0
  {
    assert (d - t) / d == d / d - t / d;
  }

  lemma {:induction false} PowOne(k: nat)
    ensures Pow(1.0, k) == 1.0
  {
    if k > 0 { PowOne(k - 1); }
  }

  lemma {:induction false} PowNeg(x: real, k: nat)
    ensures Pow(-x, k) == if k % 2 == 0 then Pow(x, k) else -Pow(x, k)
  {
    if k > 0 { PowNeg(x, k - 1); }
  }

  lemma {:induction false} PowUnit(x: real, k: nat)
    requires 0.0 <= x <= 1.0
    ensures 0.0 <= Pow(x, k) <= 1.0
  {
    if k > 0 {
      PowUnit(x, k - 1);
      UnitScale(x, Pow(x, k - 1));
    }
  }

  /** Scaling a non-negative `q` by a factor in `[0, 1]` keeps it within `[0, q]`. */
  lemma UnitScale(x: real, q: real)
    requires 0.0 <= x <= 1.0 && 0.0 <= q
    ensures 0.0 <= x * q <= q
  {
    ScaleMonotone(q, 0.0, x);
    ScaleMonotone(q, x, 1.0);
  }

  lemma {:induction false} PowMonotone(x: real, y: real, k: nat)
    requires 0.0 <= x <= y
    ensures 0.0 <= Pow(x, k) <= Pow(y, k)
  {
    if k > 0 {
      PowMonotone(x, y, k - 1);
      assert x * Pow(x, k - 1) <= y * Pow(x, k - 1);
      assert y * Pow(x, k - 1) <= y * Pow(y, k - 1);
    }
  }

  lemma ScaleMonotone(c: real, x: real, y: real)
    requires x <= y
    ensures c >= 0.0 ==> c * x <= c * y
    ensures c <= 0.0 ==> c * x >= c * y
  {
    assert c * y - c * x == c * (y - x);
  }

  lemma UnitFraction(t1: real, t2: real, d: real)
    requires d > 0.0 && 0.0 <= t1 <= t2 <= d
    ensures 0.0 <= t1 / d <= t2 / d <= 1.0
  {
    assert t2 / d - t1 / d == (t2 - t1) / d;
    DivFacts(0.0, t2, d);
  }

  lemma AffineMonotone(b: real, c: real, s1: real, s2: real, v1: real, v2: real)
    requires 0.0 <= s1 <= s2 <= 1.0 && v1 == b + c * s1 && v2 == b + c * s2
    ensures c >= 0.0 ==> b <= v1 <= v2 <= b + c
    ensures c <= 0.0 ==> b >= v1 >= v2 >= b + c
  {
    var g := if c >= 0.0 then c else -c;
    assert g * s1 >= 0.0 by { ProductNonNegative(g, s1); }
    assert g * (s2 - s1) >= 0.0 by { ProductNonNegative(g, s2 - s1); }
    assert g * (1.0 - s2) >= 0.0 by { ProductNonNegative(g, 1.0 - s2); }
    if c >= 0.0 {
      assert v1 - b == g * s1;
      assert v2 - v1 == g * (s2 - s1);
      assert b + c - v2 == g * (1.0 - s2);
    } else {
      assert b - v1 == g * s1;
      assert v1 - v2 == g * (s2 - s1);
      assert v2 - (b + c) == g * (1.0 - s2);
    }
  }

  lemma ProductNonNegative(x: real, y: real)
    requires 0.0 <= x && 0.0 <= y
    ensures 0.0 <= x * y
  {
  }

  // ---------------------------------------------------------------------
  // The general formulas against the hand-written members.
  // ---------------------------------------------------------------------

  /** The sign trick of `easeOutPoly` turns the general formula into
      `easeInPoly` played backwards from the end value, for every degree. */
  lemma OutIsReversedIn(k: nat, t: real, b: real, c: real, d: real)
    requires d != 0.0
    ensures GeneralOut(k, t, b, c, d) == GeneralIn(k, d - t, b + c, -c, d)
    ensures GeneralOut(k, t, b, c, d) == b + c * (1.0 - Pow(1.0 - t / d, k))
  {
    var q := 1.0 - t / d;
    PowNeg(q, k);
    DivFacts(c, t, d);
    assert t / d - 1.0 == -q;
    assert GeneralIn(k, d - t, b + c, -c, d) == -c * Pow(q, k) + (b + c);
    if k % 2 == 0 {
      assert GeneralOut(k, t, b, c, d) == c * -1.0 * (Pow(q, k) + -1.0) + b;
    } else {
      assert GeneralOut(k, t, b, c, d) == c * 1.0 * (-Pow(q, k) + 1.0) + b;
    }
  }

  // One lemma per degree keeps each polynomial identity in a context of its own.

  lemma OutLinearIsGeneral(t: real, b: real, c: real, d: real)
    requires d != 0.0
    ensures Linear(t, b, c, d) == GeneralOut(1, t, b, c, d)
  {
    DivFacts(c, t, d);
    assert Pow(t / d - 1.0, 1) == t / d - 1.0;
  }

  lemma OutQuadIsGeneral(t: real, b: real, c: real, d: real)
    requires d != 0.0
    ensures EaseOutQuad(t, b, c, d) == GeneralOut(2, t, b, c, d)
  {
    var u := t / d - 1.0;
    PowSmall(u);
  }

  lemma OutCubicIsGeneral(t: real, b: real, c: real, d: real)
    requires d != 0.0
    ensures EaseOutCubic(t, b, c, d) == GeneralOut(3, t, b, c, d)
  {
    var u := t / d - 1.0;
    PowSmall(u);
  }

  lemma OutQuartIsGeneral(t: real, b: real, c: real, d: real)
    requires d != 0.0
    ensures EaseOutQuart(t, b, c, d) == GeneralOut(4, t, b, c, d)
  {
    var u := t / d - 1.0;
    PowSmall(u);
  }

  lemma OutQuintIsGeneral(t: real, b: real, c: real, d: real)
    requires d != 0.0
    ensures EaseOutQuint(t, b, c, d) == GeneralOut(5, t, b, c, d)
  {
    var u := t / d - 1.0;
    PowSmall(u);
  }

  lemma InLinearIsGeneral(t: real, b: real, c: real, d: real)
    requires d != 0.0
    ensures Linear(t, b, c, d) == GeneralIn(1, t, b, c, d)
  {
    DivFacts(c, t, d);
    assert Pow(t / d, 1) == t / d;
  }

  lemma InQuadIsGeneral(t: real, b: real, c: real, d: real)
    requires d != 0.0
    ensures EaseInQuad(t, b, c, d) == GeneralIn(2, t, b, c, d)
  {
    var p := t / d;
    PowSmall(p);
  }

  lemma InCubicIsGeneral(t: real, b: real, c: real, d: real)
    requires d != 0.0
    ensures EaseInCubic(t, b, c, d) == GeneralIn(3, t, b, c, d)
  {
    var p := t / d;
    PowSmall(p);
  }

  lemma InQuartIsGeneral(t: real, b: real, c: real, d: real)
    requires d != 0.0
    ensures EaseInQuart(t, b, c, d) == GeneralIn(4, t, b, c, d)
  {
    var p := t / d;
    PowSmall(p);
  }

  lemma InQuintIsGeneral(t: real, b: real, c: real, d: real)
    requires d != 0.0
    ensures EaseInQuint(t, b, c, d) == GeneralIn(5, t, b, c, d)
  {
    var p := t / d;
    PowSmall(p);
  }

  /** The hand-written "out" members are the general formula at their degree. */
  lemma OutFormulaMatchesNamed(t: real, b: real, c: real, d: real)
    requires d != 0.0
    ensures Linear(t, b, c, d) == GeneralOut(1, t, b, c, d)
    ensures EaseOutQuad(t, b, c, d) == GeneralOut(2, t, b, c, d)
    ensures EaseOutCubic(t, b, c, d) == GeneralOut(3, t, b, c, d)
    ensures EaseOutQuart(t, b, c, d) == GeneralOut(4, t, b, c, d)
    ensures EaseOutQuint(t, b, c, d) == GeneralOut(5, t, b, c, d)
  {
    OutLinearIsGeneral(t, b, c, d);
    OutQuadIsGeneral(t, b, c, d);
    OutCubicIsGeneral(t, b, c, d);
    OutQuartIsGeneral(t, b, c, d);
    OutQuintIsGeneral(t, b, c, d);
  }

  /** The hand-written "in" members are the general formula at their degree. */
  lemma InFormulaMatchesNamed(t: real, b: real, c: real, d: real)
    requires d != 0.0
    ensures Linear(t, b, c, d) == GeneralIn(1, t, b, c, d)
    ensures EaseInQuad(t, b, c, d) == GeneralIn(2, t, b, c, d)
    ensures EaseInCubic(t, b, c, d) == GeneralIn(3, t, b, c, d)
    ensures EaseInQuart(t, b, c, d) == GeneralIn(4, t, b, c, d)
    ensures EaseInQuint(t, b, c, d) == GeneralIn(5, t, b, c, d)
  {
    InLinearIsGeneral(t, b, c, d);
    InQuadIsGeneral(t, b, c, d);
    InCubicIsGeneral(t, b, c, d);
    InQuartIsGeneral(t, b, c, d);
    InQuintIsGeneral(t, b, c, d);
  }

  /** Every polynomial member is the general "out" or "in" formula at its degree. */
  lemma PolynomialAsGeneral(e: Easing, exp2: real -> real, t: real, b: real, c: real, d: real)
    requires d != 0.0 && IsPolynomial(e)
    ensures IsEaseOut(e) ==> Apply(e, exp2, t, b, c, d) == GeneralOut(Degree(e), t, b, c, d)
    ensures !IsEaseOut(e) ==> Apply(e, exp2, t, b, c, d) == GeneralIn(Degree(e), t, b, c, d)
  {
    match e
    case LinearFn => InFormulaMatchesNamed(t, b, c, d);
    case OutQuad => OutFormulaMatchesNamed(t, b, c, d);
    case InQuad => InFormulaMatchesNamed(t, b, c, d);
    case OutCubic => OutFormulaMatchesNamed(t, b, c, d);
    case InCubic => InFormulaMatchesNamed(t, b, c, d);
    case OutQuart => OutFormulaMatchesNamed(t, b, c, d);
    case InQuart => InFormulaMatchesNamed(t, b, c, d);
    case OutQuint => OutFormulaMatchesNamed(t, b, c, d);
    case InQuint => InFormulaMatchesNamed(t, b, c, d);
    case OutPoly(k) =>
    case InPoly(k) =>
  }

  /** The general formula at a member's degree, written over its unit curve. */
  lemma GeneralAsUnitCurve(e: Easing, t: real, b: real, c: real, d: real, v: real)
    requires d != 0.0 && IsPolynomial(e)
    requires IsEaseOut(e) ==> v == GeneralOut(Degree(e), t, b, c, d)
    requires !IsEaseOut(e) ==> v == GeneralIn(Degree(e), t, b, c, d)
    ensures v == b + c * UnitCurve(e, t / d)
  {
    if IsEaseOut(e) {
      OutIsReversedIn(Degree(e), t, b, c, d);
    }
  }

  /** Every polynomial member is `b + c * UnitCurve(e, t / d)`. */
  lemma PolynomialAsUnitCurve(e: Easing, exp2: real -> real, t: real, b: real, c: real, d: real)
    requires d != 0.0 && IsPolynomial(e)
    ensures Apply(e, exp2, t, b, c, d) == b + c * UnitCurve(e, t / d)
  {
    PolynomialAsGeneral(e, exp2, t, b, c, d);
    GeneralAsUnitCurve(e, t, b, c, d, Apply(e, exp2, t, b, c, d));
  }

  /** The curve runs from 0 to 1 over the unit interval. */
  lemma UnitCurveEndpoints(e: Easing)
    requires IsPolynomial(e)
    ensures UnitCurve(e, 0.0) == 0.0 && UnitCurve(e, 1.0) == 1.0
  {
    PowOne(Degree(e));
  }

  /** The curve stays within the unit interval and never decreases there. */
  lemma UnitCurveMonotone(e: Easing, p1: real, p2: real)
    requires IsPolynomial(e) && 0.0 <= p1 <= p2 <= 1.0
    ensures 0.0 <= UnitCurve(e, p1) <= UnitCurve(e, p2) <= 1.0
  {
    var k := Degree(e);
    if IsEaseOut(e) {
      PowMonotone(1.0 - p2, 1.0 - p1, k);
      PowUnit(1.0 - p1, k);
      PowUnit(1.0 - p2, k);
    } else {
      PowMonotone(p1, p2, k);
      PowUnit(p2, k);
    }
  }

  // ---------------------------------------------------------------------
  // What the library promises its callers.
  // ---------------------------------------------------------------------

  /** Every polynomial member starts exactly at `b` and ends exactly at `b + c`. */
  lemma PolynomialEndpoints(e: Easing, exp2: real -> real, b: real, c: real, d: real)
    requires d != 0.0 && IsPolynomial(e)
    ensures Apply(e, exp2, 0.0, b, c, d) == b
    ensures Apply(e, exp2, d, b, c, d) == b + c
  {
    PolynomialAsUnitCurve(e, exp2, 0.0, b, c, d);
    PolynomialAsUnitCurve(e, exp2, d, b, c, d);
    UnitCurveEndpoints(e);
    DivFacts(c, 0.0, d);
  }

  /** With no change to apply, every library member stays at `b`. */
  lemma NoChangeStaysAtStart(e: Easing, exp2: real -> real, t: real, b: real, d: real)
    requires d != 0.0 && !e.Custom?
    ensures Apply(e, exp2, t, b, 0.0, d) == b
  {
  }

  /** The values `b + c * UnitCurve(e, t / d)` at two times within `[0, d]`
      lie in order between `b` and `b + c`. */
  lemma ScaledCurveMonotone(e: Easing, t1: real, t2: real, b: real, c: real, d: real, v1: real, v2: real)
    requires d > 0.0 && IsPolynomial(e) && 0.0 <= t1 <= t2 <= d
    requires v1 == b + c * UnitCurve(e, t1 / d) && v2 == b + c * UnitCurve(e, t2 / d)
    ensures c >= 0.0 ==> b <= v1 <= v2 <= b + c
    ensures c <= 0.0 ==> b >= v1 >= v2 >= b + c
  {
    UnitFraction(t1, t2, d);
    UnitCurveMonotone(e, t1 / d, t2 / d);
    AffineMonotone(b, c, UnitCurve(e, t1 / d), UnitCurve(e, t2 / d), v1, v2);
  }

  /** For `0 <= t <= d` a polynomial member never leaves the segment between
      `b` and `b + c`, and moves towards `b + c` as time passes. */
  lemma PolynomialMonotoneWithinRange(e: Easing, exp2: real -> real, t1: real, t2: real, b: real, c: real, d: real)
    requires d > 0.0 && IsPolynomial(e) && 0.0 <= t1 <= t2 <= d
    ensures c >= 0.0 ==> b <= Apply(e, exp2, t1, b, c, d) <= Apply(e, exp2, t2, b, c, d) <= b + c
    ensures c <= 0.0 ==> b >= Apply(e, exp2, t1, b, c, d) >= Apply(e, exp2, t2, b, c, d) >= b + c
  {
    PolynomialAsUnitCurve(e, exp2, t1, b, c, d);
    PolynomialAsUnitCurve(e, exp2, t2, b, c, d);
    ScaledCurveMonotone(e, t1, t2, b, c, d, Apply(e, exp2, t1, b, c, d), Apply(e, exp2, t2, b, c, d));
  }

  /** The fast paths of `easeOutPoly` agree with the general formula at the
      degree they stand for: 1 for `n <= 1`, 2 for `n <= 2`, else round(n). */
  lemma EaseOutPolyMatchesGeneral(n: real, exp2: real -> real, t: real, b: real, c: real, d: real)
    requires d != 0.0
    ensures var k := if n <= 1.0 then 1 else if n <= 2.0 then 2 else JsRound(n);
      k >= 1 && Apply(EaseOutPoly(n), exp2, t, b, c, d) == GeneralOut(k, t, b, c, d)
  {
    OutFormulaMatchesNamed(t, b, c, d);
  }

  /** The fast paths of `easeInPoly` agree with the general formula likewise. */
  lemma EaseInPolyMatchesGeneral(n: real, exp2: real -> real, t: real, b: real, c: real, d: real)
    requires d != 0.0
    ensures var k := if n <= 1.0 then 1 else if n <= 2.0 then 2 else JsRound(n);
      k >= 1 && Apply(EaseInPoly(n), exp2, t, b, c, d) == GeneralIn(k, t, b, c, d)
  {
    InFormulaMatchesNamed(t, b, c, d);
  }

  /** Outside `(1, 1.5)` and above `0.5` the fast paths are exactly the general
      formula at degree `round(n)`. */
  lemma EaseOutPolyMatchesRounded(n: real, exp2: real -> real, t: real, b: real, c: real, d: real)
    requires d != 0.0 && ((0.5 < n <= 1.0) || n >= 1.5)
    ensures JsRound(n) >= 1
    ensures Apply(EaseOutPoly(n), exp2, t, b, c, d) == GeneralOut(JsRound(n), t, b, c, d)
  {
    if n <= 1.0 {
      assert JsRound(n) == 1;
      OutFormulaMatchesNamed(t, b, c, d);
    } else if n <= 2.0 {
      assert JsRound(n) == 2;
      OutFormulaMatchesNamed(t, b, c, d);
    }
  }

  /** The same agreement for `easeInPoly`. */
  lemma EaseInPolyMatchesRounded(n: real, exp2: real -> real, t: real, b: real, c: real, d: real)
    requires d != 0.0 && ((0.5 < n <= 1.0) || n >= 1.5)
    ensures JsRound(n) >= 1
    ensures Apply(EaseInPoly(n), exp2, t, b, c, d) == GeneralIn(JsRound(n), t, b, c, d)
  {
    if n <= 1.0 {
      assert JsRound(n) == 1;
      InFormulaMatchesNamed(t, b, c, d);
    } else if n <= 2.0 {
      assert JsRound(n) == 2;
      InFormulaMatchesNamed(t, b, c, d);
    }
  }

  /** For `1 < n < 1.5` the fast path is the quadratic while `round(n)` is 1:
      half-way through, `easeOutPoly(n)` has covered three quarters of the
      change and `easeInPoly(n)` one quarter, where degree 1 covers half. */
  lemma PolyFastPathDiffersFromRounding(n: real, exp2: real -> real, b: real, c: real, d: real)
    requires d != 0.0 && 1.0 < n < 1.5
    ensures JsRound(n) == 1
    ensures Apply(EaseOutPoly(n), exp2, d / 2.0, b, c, d) == b + 0.75 * c
    ensures Apply(EaseInPoly(n), exp2, d / 2.0, b, c, d) == b + 0.25 * c
    ensures GeneralOut(JsRound(n), d / 2.0, b, c, d) == b + 0.5 * c
    ensures GeneralIn(JsRound(n), d / 2.0, b, c, d) == b + 0.5 * c
    ensures c != 0.0 ==> Apply(EaseOutPoly(n), exp2, d / 2.0, b, c, d) != GeneralOut(JsRound(n), d / 2.0, b, c, d)
    ensures c != 0.0 ==> Apply(EaseInPoly(n), exp2, d / 2.0, b, c, d) != GeneralIn(JsRound(n), d / 2.0, b, c, d)
  {
    var t := d / 2.0;
    assert t / d == 0.5 by { DivFacts(1.0, t, d); }
    DivFacts(c, t, d);
    PowSmall(0.5);
    PowSmall(-0.5);
  }

  /** For `n > 2` the general closures coincide pointwise with the hand-written
      member of the rounded degree, whichever of 2 to 5 it is. */
  lemma GeneralPolyMatchesNamed(n: real, exp2: real -> real, t: real, b: real, c: real, d: real)
    requires d != 0.0 && n > 2.0
    ensures JsRound(n) == 2 ==> Apply(EaseOutPoly(n), exp2, t, b, c, d) == EaseOutQuad(t, b, c, d)
    ensures JsRound(n) == 3 ==> Apply(EaseOutPoly(n), exp2, t, b, c, d) == EaseOutCubic(t, b, c, d)
    ensures JsRound(n) == 4 ==> Apply(EaseOutPoly(n), exp2, t, b, c, d) == EaseOutQuart(t, b, c, d)
    ensures JsRound(n) == 5 ==> Apply(EaseOutPoly(n), exp2, t, b, c, d) == EaseOutQuint(t, b, c, d)
    ensures JsRound(n) == 2 ==> Apply(EaseInPoly(n), exp2, t, b, c, d) == EaseInQuad(t, b, c, d)
    ensures JsRound(n) == 3 ==> Apply(EaseInPoly(n), exp2, t, b, c, d) == EaseInCubic(t, b, c, d)
    ensures JsRound(n) == 4 ==> Apply(EaseInPoly(n), exp2, t, b, c, d) == EaseInQuart(t, b, c, d)
    ensures JsRound(n) == 5 ==> Apply(EaseInPoly(n), exp2, t, b, c, d) == EaseInQuint(t, b, c, d)
  {
    OutFormulaMatchesNamed(t, b, c, d);
    InFormulaMatchesNamed(t, b, c, d);
  }

  /** The values the library's own tests expect of `linear`. */
  lemma LinearSamples()
    ensures Linear(0.0, 10.0, 44.0, 88.0) == 10.0
    ensures Linear(88.0, 10.0, 44.0, 88.0) == 54.0
    ensures Linear(24.0, 10.0, 44.0, 88.0) == 24.0 / 88.0 * 44.0 + 10.0
  {
  }

  /** Given `Math.pow(2, 0) == 1`, easeOutExpo starts exactly at `b` and
      easeInExpo ends exactly at `b + c`; given `Math.pow(2, -10) == 1/1024`,
      easeOutExpo ends short of `b + c` by `c / 1024`. */
  lemma ExpoEndpoints(exp2: real -> real, b: real, c: real, d: real)
    requires d != 0.0
    ensures exp2(0.0) == 1.0 ==> EaseOutExpo(exp2, 0.0, b, c, d) == b
    ensures exp2(0.0) == 1.0 ==> EaseInExpo(exp2, d, b, c, d) == b + c
    ensures exp2(-10.0) == 1.0 / 1024.0 ==> EaseOutExpo(exp2, d, b, c, d) == b + c - c / 1024.0
    ensures exp2(-10.0) == 1.0 / 1024.0 ==> EaseInExpo(exp2, 0.0, b, c, d) == b + c / 1024.0
  {
    assert -10.0 * 0.0 / d == 0.0;
    assert 10.0 * (d / d - 1.0) == 0.0;
    assert -10.0 * d / d == -10.0;
    assert 10.0 * (0.0 / d - 1.0) == -10.0;
  }
}
