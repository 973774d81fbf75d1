/**
 The countdown timer: seconds remaining plus a running/stopped flag.

 Seconds are held as an unbounded `int`, standing for the C++ `int` field
 whose overflow is unreachable. This lets `Tick` be modelled as written,
 without a guard against going below zero; the invariant that rules that
 out lives in the `Stopwatch` module, where the caller's discipline is
 known.
 */
module Timer {

  /** Whether the countdown is advancing. */
  datatype RunState = Running | Stopped

  datatype Timer = Timer(seconds: int, state: RunState)

  /** The clamp ceiling: 99 minutes. */
  const MaxSeconds: int := 5940

  /** True when the seconds lie inside the clamp range. */
  predicate InRange(seconds: int) {
    0 <= seconds <= MaxSeconds
  }

  /**
   Adds `delta` seconds (negative to subtract) and then clamps into
   `[0, MaxSeconds]`: first the lower bound, then the upper one.
   The run state is untouched.
   */
  function AddSeconds(t: Timer, delta: int): (r: Timer)
    ensures InRange(r.seconds)
    ensures r.state == t.state
    ensures InRange(t.seconds + delta) ==> r.seconds == t.seconds + delta
    ensures t.seconds + delta < 0 ==> r.seconds == 0
    ensures t.seconds + delta > MaxSeconds ==> r.seconds == MaxSeconds
  {
    var sum := t.seconds + delta;
    var raised := if sum < 0 then 0 else sum;
    var lowered := if raised > MaxSeconds then MaxSeconds else raised;
    t.(seconds := lowered)
  }

  /**
   A timer built with an initial duration: stopped, with the duration
   added to zero (and therefore clamped to the ceiling).
   */
  function New(seconds: nat): (r: Timer)
    ensures r.state == Stopped
    ensures seconds <= MaxSeconds ==> r.seconds == seconds
    ensures seconds > MaxSeconds ==> r.seconds == MaxSeconds
  {
    AddSeconds(Timer(0, Stopped), seconds)
  }

  /**
   Pre-decrements the seconds and reports whether the new value is zero.
   There is no guard: ticking a timer at zero yields -1.
   */
  function Tick(t: Timer): (r: (Timer, bool))
    ensures r.0.seconds + 1 == t.seconds
    ensures r.0.state == t.state
    ensures r.1 <==> t.seconds == 1
  {
    var decremented := t.(seconds := t.seconds - 1);
    (decremented, decremented.seconds == 0)
  }

  /** Adding then removing the same amount restores the timer when nothing was clamped. */
  lemma AddThenSubtract(t: Timer, delta: int)
    requires InRange(t.seconds) && InRange(t.seconds + delta)
    ensures AddSeconds(AddSeconds(t, delta), -delta) == t
  {
  }

  /** Clamping is monotone: a larger delta never yields fewer seconds. */
  lemma AddSecondsMonotone(t: Timer, d1: int, d2: int)
    requires d1 <= d2
    ensures AddSeconds(t, d1).seconds <= AddSeconds(t, d2).seconds
  {
  }

  /** The unguarded decrement: a timer at zero goes negative without reporting zero. */
  lemma TickAtZeroGoesNegative(state: RunState)
    ensures Tick(Timer(0, state)) == (Timer(-1, state), false)
  {
  }
}
