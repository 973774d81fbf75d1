/**
 The program's control loop as a state machine.

 The state is everything the loop and the interrupt handler change: the
 timer, the active glyph table, the exit flag and the terminal size seen
 on the last frame. Each loop pass first draws a frame (which recentres
 the window and remembers the terminal size), then either lets one second
 elapse and ticks (while running) or reads one key and dispatches it
 (while stopped). An interrupt pauses a running timer and ends the
 program otherwise.

 The event model over-approximates the loop: it does not force a `Draw`
 between two `Elapsed` or `Press` events. The invariant proved for every
 admissible run therefore holds for the loop's draw-then-act passes too.
 */
module Stopwatch {

  import Timer
  import Glyphs
  import Layout

  datatype App = App(timer: Timer.Timer, style: Glyphs.Style, exit: bool, last: Layout.Size)

  /** The duration the program starts with. */
  const InitialSeconds: nat := 90

  /** The state before the first frame. */
  function Init(): (a: App)
    ensures a.timer == Timer.Timer(90, Timer.Stopped)
    ensures a.style == Glyphs.Numbers && !a.exit && a.last == Layout.Size(0, 0)
  {
    App(Timer.New(InitialSeconds), Glyphs.Numbers, false, Layout.Unseen)
  }

  /**
   The reachable-state invariant: the seconds stay inside the clamp range,
   and a running timer always has time left.
   */
  predicate Valid(a: App) {
    && Timer.InRange(a.timer.seconds)
    && (a.timer.state == Timer.Running ==> a.timer.seconds > 0)
  }

  /**
   The end of a running pass's one-second sleep: tick, and stop when the
   tick reports zero. The run state is not looked at again after the
   sleep, so this also applies to a timer an interrupt paused meanwhile.
   */
  function OnElapsed(a: App): (r: App)
    ensures r.timer.seconds == a.timer.seconds - 1
    ensures a.timer.state == Timer.Running ==> (r.timer.state == Timer.Stopped <==> r.timer.seconds == 0)
    ensures a.timer.state == Timer.Stopped ==> r.timer.state == Timer.Stopped
    ensures r.style == a.style && r.exit == a.exit && r.last == a.last
    ensures Valid(a) && a.timer.seconds > 0 ==> Valid(r)
  {
    var (ticked, zero) := Timer.Tick(a.timer);
    a.(timer := if zero then ticked.(state := Timer.Stopped) else ticked)
  }

  /** The keys the stopped loop reacts to. */
  const Commands: set<char> := {'h', 'j', 'k', 'l', 's', 't', 'q'}

  /**
   A key read while stopped: `h`/`j` take off 30/60 seconds, `k`/`l` add
   60/30, `s` starts a timer that has time left, `t` switches glyph table,
   `q` asks to exit; any other key changes nothing.
   */
  function OnKey(a: App, key: char): (r: App)
    requires a.timer.state == Timer.Stopped
    ensures r.last == a.last
    ensures r.style != a.style <==> key == 't'
    ensures r.exit <==> a.exit || key == 'q'
    ensures key == 'h' ==> r.timer == Timer.AddSeconds(a.timer, -30)
    ensures key == 'j' ==> r.timer == Timer.AddSeconds(a.timer, -60)
    ensures key == 'k' ==> r.timer == Timer.AddSeconds(a.timer, 60)
    ensures key == 'l' ==> r.timer == Timer.AddSeconds(a.timer, 30)
    ensures key == 's' ==> r.timer.seconds == a.timer.seconds
    ensures key == 's' ==> (r.timer.state == Timer.Running <==> a.timer.seconds != 0)
    ensures key !in {'h', 'j', 'k', 'l', 's'} ==> r.timer == a.timer
    ensures key !in Commands ==> r == a
    ensures Valid(a) ==> Valid(r)
  {
    match key
    case 'h' => a.(timer := Timer.AddSeconds(a.timer, -30))
    case 'j' => a.(timer := Timer.AddSeconds(a.timer, -60))
    case 'k' => a.(timer := Timer.AddSeconds(a.timer, 60))
    case 'l' => a.(timer := Timer.AddSeconds(a.timer, 30))
    case 's' => if a.timer.seconds != 0 then a.(timer := a.timer.(state := Timer.Running)) else a
    case 't' => a.(style := Glyphs.Toggle(a.style))
    case 'q' => a.(exit := true)
    case _ => a
  }

  /** The interrupt handler: pause a running timer, otherwise end the program. */
  function OnInterrupt(a: App): (r: App)
    ensures a.timer.state == Timer.Running ==> r == a.(timer := Timer.Timer(a.timer.seconds, Timer.Stopped))
    ensures a.timer.state == Timer.Stopped ==> r == a.(exit := true)
    ensures Valid(a) ==> Valid(r)
  {
    if a.timer.state == Timer.Running then a.(timer := a.timer.(state := Timer.Stopped))
    else a.(exit := true)
  }

  /** What can happen to the program between two observations of its state. */
  datatype Event =
    | Draw(term: Layout.Size)   // a frame is drawn in a terminal of this size
    | Elapsed                   // the one-second sleep of a running pass ends
    | SleepInterrupted          // the interrupt arrives during that sleep, which then ends
    | Press(key: char)          // the blocking key read of a stopped pass returns
    | Interrupt                 // the interrupt signal arrives

  /** Whether the program, in state `a`, can be at the point where `e` happens. */
  predicate Enabled(a: App, e: Event) {
    && !a.exit
    && match e
       case Draw(_) => true
       case Elapsed => a.timer.state == Timer.Running
       case SleepInterrupted => a.timer.state == Timer.Running
       case Press(_) => a.timer.state == Timer.Stopped
       case Interrupt => true
  }

  /** The state after event `e`. */
  function Step(a: App, e: Event): (r: App)
    requires Enabled(a, e)
    ensures e.Draw? ==> r == a.(last := e.term)
    ensures !e.Draw? ==> r.last == a.last
  {
    match e
    case Draw(term) => a.(last := Layout.CenterWindow(a.last, term).remembered)
    case Elapsed => OnElapsed(a)
    case SleepInterrupted => OnElapsed(OnInterrupt(a))
    case Press(key) => OnKey(a, key)
    case Interrupt => OnInterrupt(a)
  }

  /** Every event of `events` can happen, one after another, starting from `a`. */
  predicate Admissible(a: App, events: seq<Event>)
    decreases |events|
  {
    events == [] || (Enabled(a, events[0]) && Admissible(Step(a, events[0]), events[1..]))
  }

  /** The state after the events, in order. */
  function Run(a: App, events: seq<Event>): App
    requires Admissible(a, events)
    decreases |events|
  {
    if events == [] then a else Run(Step(a, events[0]), events[1..])
  }

  /** No event breaks the invariant. */
  lemma StepPreservesValid(a: App, e: Event)
    requires Valid(a) && Enabled(a, e)
    ensures Valid(Step(a, e))
  {
  }

  /** No sequence of events breaks the invariant. */
  lemma {:induction false} RunPreservesValid(a: App, events: seq<Event>)
    requires Valid(a) && Admissible(a, events)
    ensures Valid(Run(a, events))
    decreases |events|
  {
    if events != [] {
      StepPreservesValid(a, events[0]);
      RunPreservesValid(Step(a, events[0]), events[1..]);
    }
  }

  /**
   Every state the program can reach satisfies the invariant: seconds are
   never negative nor above the ceiling, and running implies time left.
   */
  lemma ReachableValid(events: seq<Event>)
    requires Admissible(Init(), events)
    ensures 0 <= Run(Init(), events).timer.seconds <= Timer.MaxSeconds
    ensures Run(Init(), events).timer.state == Timer.Running ==> Run(Init(), events).timer.seconds > 0
  {
    RunPreservesValid(Init(), events);
  }

  /** `k` undone by `j`, and `l` undone by `h`, when nothing was clamped. */
  lemma KeysUndo(a: App)
    requires a.timer.state == Timer.Stopped && Timer.InRange(a.timer.seconds)
    ensures a.timer.seconds + 60 <= Timer.MaxSeconds ==> OnKey(OnKey(a, 'k'), 'j') == a
    ensures a.timer.seconds + 30 <= Timer.MaxSeconds ==> OnKey(OnKey(a, 'l'), 'h') == a
  {
    if a.timer.seconds + 60 <= Timer.MaxSeconds {
      Timer.AddThenSubtract(a.timer, 60);
    }
    if a.timer.seconds + 30 <= Timer.MaxSeconds {
      Timer.AddThenSubtract(a.timer, 30);
    }
  }

  /** Two presses of `t` bring back the state before them. */
  lemma ToggleTwiceRestores(a: App)
    requires a.timer.state == Timer.Stopped
    ensures OnKey(OnKey(a, 't'), 't') == a
  {
    Glyphs.ToggleTwice(a.style);
  }

  /** `s` with no time left changes nothing. */
  lemma StartAtZeroIgnored(a: App)
    requires a.timer == Timer.Timer(0, Timer.Stopped)
    ensures OnKey(a, 's') == a
  {
  }

  /**
   An interrupt during a running pass's sleep pauses the timer, and the
   pass still takes its second off: the timer ends stopped, one second
   lower, never below zero.
   */
  lemma InterruptedSleepStillTicks(a: App)
    requires Valid(a) && a.timer.state == Timer.Running && !a.exit
    ensures Step(a, SleepInterrupted).timer == Timer.Timer(a.timer.seconds - 1, Timer.Stopped)
    ensures Step(a, SleepInterrupted).timer.seconds >= 0
  {
  }

  /** A first interrupt pauses a running timer; a second one ends the program. */
  lemma InterruptTwice(a: App)
    requires a.timer.state == Timer.Running
    ensures OnInterrupt(a).timer == Timer.Timer(a.timer.seconds, Timer.Stopped)
    ensures !OnInterrupt(a).exit ==> OnInterrupt(OnInterrupt(a)).exit
  {
  }

  /** The state after `n` seconds elapse from a running state with at least `n` seconds left. */
  function Ticks(a: App, n: nat): (r: App)
    requires a.timer.state == Timer.Running && n <= a.timer.seconds
    decreases n
  {
    if n == 0 then a
    else
      var next := OnElapsed(a);
      if n == 1 then next else Ticks(next, n - 1)
  }

  /**
   Counting down from `n` seconds: after `k < n` ticks the timer still
   runs with `n - k` left, and the tick that reports zero is the `n`-th.
   */
  lemma {:induction false} CountdownRunning(a: App, k: nat)
    requires Valid(a) && a.timer.state == Timer.Running && k < a.timer.seconds
    ensures Ticks(a, k).timer == Timer.Timer(a.timer.seconds - k, Timer.Running)
    ensures Timer.Tick(Ticks(a, k).timer).1 <==> k + 1 == a.timer.seconds
    ensures Ticks(a, k).style == a.style && Ticks(a, k).exit == a.exit && Ticks(a, k).last == a.last
    decreases k
  {
    if k > 1 {
      CountdownRunning(OnElapsed(a), k - 1);
    }
  }

  /** Exactly `n` ticks from a running state with `n` seconds stop the timer at zero. */
  lemma {:induction false} CountdownStops(a: App)
    requires Valid(a) && a.timer.state == Timer.Running
    ensures Ticks(a, a.timer.seconds).timer == Timer.Timer(0, Timer.Stopped)
    ensures Ticks(a, a.timer.seconds).style == a.style && Ticks(a, a.timer.seconds).exit == a.exit
    decreases a.timer.seconds
  {
    var n := a.timer.seconds;
    if n > 1 {
      CountdownStops(OnElapsed(a));
    }
  }

  /** From the start: `k` raises 90 to 150, `s` starts, and 150 ticks end stopped at zero. */
  lemma EndToEnd()
    ensures OnKey(Init(), 'k').timer == Timer.Timer(150, Timer.Stopped)
    ensures OnKey(OnKey(Init(), 'k'), 's').timer == Timer.Timer(150, Timer.Running)
    ensures Ticks(OnKey(OnKey(Init(), 'k'), 's'), 150).timer == Timer.Timer(0, Timer.Stopped)
  {
    CountdownStops(OnKey(OnKey(Init(), 'k'), 's'));
  }
}
