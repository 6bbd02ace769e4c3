/** The count-up hook: it resolves the requested easing function, then samples
    it once per interval firing until the elapsed time reaches the duration,
    when it emits the end value exactly and clears its own interval. */
module CountUp {
  import opened EasingFunctions

  const Fps: nat := 60

  /** Milliseconds between two interval firings: `Math.round(1 / fps * 1000)`. */
  const IntervalDelay: nat := 17

  lemma IntervalDelayIsRoundedFrame()
    ensures IntervalDelay == JsRound(1.0 / Fps as real * 1000.0)
  {
    var r := JsRound(1.0 / Fps as real * 1000.0);
    assert 1.0 / Fps as real * 1000.0 == 1000.0 / 60.0;
    assert 16.0 < r as real < 18.0;
  }

  // ---------------------------------------------------------------------
  // Choosing the easing function.
  // ---------------------------------------------------------------------

  /** What the caller passes as `easingFunction`: a callable, a name (any
      string, recognised or not), or nothing at all. */
  datatype EasingChoice = Callable(fn: Easing) | Named(name: string) | Omitted

  /** The name under which each of the eleven selectable functions is known. */
  function NameOf(e: Easing): string
  {
    match e
    case LinearFn => "linear"
    case OutExpo => "easeOutExpo"
    case InExpo => "easeInExpo"
    case OutQuad => "easeOutQuad"
    case InQuad => "easeInQuad"
    case OutCubic => "easeOutCubic"
    case InCubic => "easeInCubic"
    case OutQuart => "easeOutQuart"
    case InQuart => "easeInQuart"
    case OutQuint => "easeOutQuint"
    case InQuint => "easeInQuint"
    case _ => ""
  }

  /** The easing functions selectable by name. */
  predicate IsSelectable(e: Easing)
  {
    !(e.OutPoly? || e.InPoly? || e.Custom?)
  }

  const EasingNames: set<string> := {
    "linear", "easeOutExpo", "easeInExpo", "easeOutQuad", "easeInQuad",
    "easeOutCubic", "easeInCubic", "easeOutQuart", "easeInQuart",
    "easeOutQuint", "easeInQuint"
  }

  /** Resolves the caller's choice to the easing function the session uses;
      `easeOutExpo` is the default. */
  function Resolve(choice: EasingChoice): (e: Easing)
    ensures choice.Callable? ==> e == choice.fn
    ensures !choice.Callable? ==> IsSelectable(e)
    ensures choice.Omitted? ==> e == OutExpo
  {
    match choice
    case Callable(f) => f
    case Omitted => OutExpo
    case Named(name) =>
      if name == "linear" then LinearFn
      else if name == "easeOutExpo" then OutExpo
      else if name == "easeInExpo" then InExpo
      else if name == "easeOutQuad" then OutQuad
      else if name == "easeInQuad" then InQuad
      else if name == "easeOutCubic" then OutCubic
      else if name == "easeInCubic" then InCubic
      else if name == "easeOutQuart" then OutQuart
      else if name == "easeInQuart" then InQuart
      else if name == "easeOutQuint" then OutQuint
      else if name == "easeInQuint" then InQuint
      else OutExpo
  }

  /** Each selectable function is found under its own name. */
  lemma ResolveByOwnName(e: Easing)
    requires IsSelectable(e)
    ensures NameOf(e) in EasingNames
    ensures Resolve(Named(NameOf(e))) == e
  {
  }

  /** A recognised name resolves to the function of that name; any other
      name falls back to `easeOutExpo`. */
  lemma ResolveName(name: string)
    ensures name in EasingNames ==> NameOf(Resolve(Named(name))) == name
    ensures name !in EasingNames ==> Resolve(Named(name)) == OutExpo
  {
  }

  // ---------------------------------------------------------------------
  // One session: the interval callback as a step function.
  // ---------------------------------------------------------------------

  /** What a session captures when it starts: the dependencies of the
      effect, the resolved function and `Math.pow(2, ·)` for the Expo pair. */
  datatype Session = Session(start: real, end: real, duration: real, fn: Easing, exp2: real -> real)

  /** The state the interval callback reads and writes: the captured elapsed
      `time`, the hook's `value`, and whether the interval still fires. */
  datatype Snapshot = Snapshot(time: nat, value: real, running: bool)

  /** The state when the effect has just set up a new interval. */
  function Begun(value: real): Snapshot
  {
    Snapshot(0, value, true)
  }

  /** One firing of the interval callback. */
  function Step(s: Session, st: Snapshot): Snapshot
  {
    if !st.running then st
    else if st.time as real >= s.duration then Snapshot(st.time, s.end, false)
    else Snapshot(st.time + IntervalDelay,
                  Apply(s.fn, s.exp2, st.time as real, s.start, s.end - s.start, s.duration),
                  true)
  }

  /** `n` firings of the interval callback. */
  function Steps(s: Session, st: Snapshot, n: nat): Snapshot
  {
    if n == 0 then st else Step(s, Steps(s, st, n - 1))
  }

  /** The number of firings that emit an eased value: the least `k` with
      `k * IntervalDelay >= duration`. */
  function EmitCount(duration: real): (k: nat)
    ensures (IntervalDelay * k) as real >= duration
    ensures k > 0 ==> ((IntervalDelay * (k - 1)) as real) < duration
  {
    if duration <= 0.0 then 0 else -((-duration / IntervalDelay as real).Floor)
  }

  /** The number of firings until the interval clears itself. */
  function TicksToStop(duration: real): (n: nat)
    ensures n >= 1
    ensures duration <= 0.0 ==> n == 1
    ensures duration > 0.0 ==> (n - 2) as real < duration / IntervalDelay as real <= (n - 1) as real
  {
    EmitCount(duration) + 1
  }

  /** The value the `n`-th emitting firing (counting from 1) sets. */
  function EmittedValue(s: Session, n: nat): real
    requires 1 <= n <= EmitCount(s.duration)
  {
    Apply(s.fn, s.exp2, (IntervalDelay * (n - 1)) as real, s.start, s.end - s.start, s.duration)
  }

  /** A stopped session never changes again. */
  lemma {:induction false} StoppedStaysPut(s: Session, st: Snapshot, n: nat)
    requires !st.running
    ensures Steps(s, st, n) == st
  {
    if n > 0 { StoppedStaysPut(s, st, n - 1); }
  }

  /** Up to the last emitting firing the session keeps running, its time is a
      multiple of the delay, and its value is the eased value of the previous
      time step (or the hook's value before the first firing). */
  lemma {:induction false} RunningPrefix(s: Session, v0: real, n: nat)
    requires n <= EmitCount(s.duration)
    ensures Steps(s, Begun(v0), n).running
    ensures Steps(s, Begun(v0), n).time == IntervalDelay * n
    ensures Steps(s, Begun(v0), n).value == if n == 0 then v0 else EmittedValue(s, n)
  {
    if n > 0 {
      RunningPrefix(s, v0, n - 1);
    }
  }

  /** The session stops on firing number `EmitCount + 1` and not earlier, with
      exactly the end value, and nothing changes after that. */
  lemma SessionEnds(s: Session, v0: real, n: nat)
    ensures Steps(s, Begun(v0), n).running <==> n < TicksToStop(s.duration)
    ensures n >= TicksToStop(s.duration) ==>
      Steps(s, Begun(v0), n) == Snapshot(IntervalDelay * EmitCount(s.duration), s.end, false)
  {
    var k := EmitCount(s.duration);
    if n <= k {
      RunningPrefix(s, v0, n);
    } else {
      RunningPrefix(s, v0, k);
      var last := Steps(s, Begun(v0), k + 1);
      assert last == Snapshot(IntervalDelay * k, s.end, false);
      StoppedStaysPut(s, last, n - (k + 1));
      StepsSplit(s, Begun(v0), k + 1, n - (k + 1));
    }
  }

  lemma {:induction false} StepsSplit(s: Session, st: Snapshot, m: nat, n: nat)
    ensures Steps(s, st, m + n) == Steps(s, Steps(s, st, m), n)
  {
    if n > 0 { StepsSplit(s, st, m, n - 1); }
  }

  /** Every time the session takes is a multiple of the delay, and once the
      duration is positive the final time lies in `[duration, duration + delay)`. */
  lemma SessionTimes(s: Session, v0: real, n: nat)
    ensures Steps(s, Begun(v0), n).time % IntervalDelay == 0
    ensures Steps(s, Begun(v0), n).time <= IntervalDelay * EmitCount(s.duration)
    ensures s.duration > 0.0 && n >= TicksToStop(s.duration) ==>
      s.duration <= Steps(s, Begun(v0), n).time as real < s.duration + IntervalDelay as real
  {
    var k := EmitCount(s.duration);
    if n <= k {
      RunningPrefix(s, v0, n);
    } else {
      SessionEnds(s, v0, n);
      if s.duration > 0.0 {
        FinalTimeBracket(s.duration);
      }
    }
  }

  /** For a positive duration the last sampled grid point lies in `[duration, duration + delay)`. */
  lemma FinalTimeBracket(duration: real)
    requires duration > 0.0
    ensures duration <= (IntervalDelay * EmitCount(duration)) as real < duration + IntervalDelay as real
  {
    var k := EmitCount(duration);
    assert k > 0;
    assert (IntervalDelay * (k - 1)) as real == (IntervalDelay * k) as real - IntervalDelay as real;
  }

  /** With a non-positive duration the first firing emits the end value and stops. */
  lemma ZeroDurationEndsAtOnce(s: Session, v0: real)
    requires s.duration <= 0.0
    ensures Steps(s, Begun(v0), 1) == Snapshot(0, s.end, false)
  {
  }

  /** With a polynomial easing function the first emitted value is the start
      value, since the first firing samples time 0. */
  lemma FirstValueIsStart(s: Session, v0: real)
    requires s.duration > 0.0 && IsPolynomial(s.fn)
    ensures Steps(s, Begun(v0), 1).value == s.start
  {
    PolynomialEndpoints(s.fn, s.exp2, s.start, s.end - s.start, s.duration);
  }

  /** The literal scenario: from 0 to 100 over 100 ms with the easing left
      unset, the interval fires seven times and the last firing emits exactly 100. */
  lemma HundredOverHundred(exp2: real -> real, v0: real, n: nat)
    requires n >= 7
    ensures Steps(Session(0.0, 100.0, 100.0, Resolve(Omitted), exp2), Begun(v0), n)
         == Snapshot(102, 100.0, false)
    ensures Steps(Session(0.0, 100.0, 100.0, Resolve(Omitted), exp2), Begun(v0), 6).running
  {
    var s := Session(0.0, 100.0, 100.0, Resolve(Omitted), exp2);
    assert EmitCount(100.0) == 6;
    SessionEnds(s, v0, n);
    SessionEnds(s, v0, 6);
  }

  // ---------------------------------------------------------------------
  // The hook instance: its React state `value` outlives each session.
  // ---------------------------------------------------------------------

  /** The dependencies the effect is keyed on. */
  datatype Props = Props(start: real, end: real, duration: real, started: bool, easing: EasingChoice)

  function SessionOf(p: Props, exp2: real -> real): Session
  {
    Session(p.start, p.end, p.duration, Resolve(p.easing), exp2)
  }

  class CountUpHook {
    const exp2: real -> real
    var session: Session
    var time: nat
    var value: real
    var running: bool

    ghost function State(): Snapshot
      reads this
    {
      Snapshot(time, value, running)
    }

    /** The elapsed time stays on the delay grid and never passes the time of
        the last emitting firing. */
    ghost predicate Valid()
      reads this
    {
      time % IntervalDelay == 0 && time / IntervalDelay <= EmitCount(session.duration)
    }

    /** First render: `value` starts at `start`, and the effect runs. */
    constructor (p: Props, exp2: real -> real)
      ensures Valid() && this.exp2 == exp2
      ensures value == p.start && time == 0 && running == p.started
      ensures session == SessionOf(p, exp2)
    {
      this.exp2 := exp2;
      session := SessionOf(p, exp2);
      value := p.start;
      time := 0;
      running := p.started;
    }

    /** One firing of the interval; a cleared interval never fires. */
    method Tick()
      requires Valid()
      modifies this
      ensures Valid() && session == old(session)
      ensures State() == Step(session, old(State()))
    {
      if !running {
        return;
      }
      if time as real >= session.duration {
        value := session.end;
        running := false;
        return;
      }
      value := Apply(session.fn, session.exp2, time as real, session.start,
                     session.end - session.start, session.duration);
      time := time + IntervalDelay;
    }

    /** The effect's cleanup: clears the interval, keeps the value. */
    method Cancel()
      modifies this
      ensures session == old(session) && time == old(time) && value == old(value)
      ensures !running
    {
      running := false;
    }

    /** A change of dependencies: the old interval is cleared, and when
        `started` holds a new session starts from time 0. The value is not
        reset: it holds until the new session's first firing. */
    method Update(p: Props)
      modifies this
      ensures value == old(value)
      ensures running == p.started
      ensures p.started ==> session == SessionOf(p, exp2) && time == 0
      ensures !p.started ==> session == old(session) && time == old(time)
      ensures old(Valid()) || p.started ==> Valid()
    {
      Cancel();
      if p.started {
        session := SessionOf(p, exp2);
        time := 0;
        running := true;
      }
    }

    /** Lets the interval fire until it clears itself; `n` is the number of
        firings. From a fresh session that is `TicksToStop(duration)`. */
    method RunToEnd() returns (n: nat)
      requires Valid()
      modifies this
      ensures Valid() && session == old(session) && !running
      ensures State() == Steps(session, old(State()), n)
      ensures old(running) ==> value == session.end
      ensures old(State()) == Begun(old(value)) ==> n == TicksToStop(session.duration)
    {
      ghost var s0 := State();
      n := 0;
      while running
        invariant Valid() && session == old(session)
        invariant State() == Steps(session, s0, n)
        invariant s0.running && !running ==> value == session.end
        invariant s0 == Begun(s0.value) ==> n <= EmitCount(session.duration) + 1
        invariant s0 == Begun(s0.value) && running ==> n <= EmitCount(session.duration)
        invariant s0 == Begun(s0.value) && running ==> time == IntervalDelay * n
        decreases running, EmitCount(session.duration) - time / IntervalDelay
      {
        Tick();
        n := n + 1;
      }
      if s0 == Begun(s0.value) {
        SessionEnds(session, s0.value, n);
      }
    }
  }
}
