/** The state machine held in the fields of `JigglerApp` (jigglewiggle/gui.py),
    as a value: one function per operation, the folds that apply the polling
    loop's body once per idle reading, and the invariants every interleaving
    of user commands and loop ticks keeps. The class in jiggler_app.dfy is
    specified by these functions. */
module JiggleMachine {
  import opened IntParse

  /** The three values of `self.state`. */
  datatype JiggleState = Disabled | Idle | Active

  /** The calls the app makes into the operating system: `jiggle_mouse` of the
      mouse jiggler and the four power-setting routines. */
  datatype Event = Jiggle | PreventSleep | AllowSleep | DisableScreenSaver | EnableScreenSaver

  /** The timeout the app starts with, in seconds. */
  const DefaultTimeout: int := 15

  /** The fields of the app: `state`, `IDLE_TIME_SECONDS` (timeout),
      `idle_time`, whether `stop_event` is set, the two prevent flags, and the
      operating-system calls made so far. */
  datatype App = App(
    state: JiggleState,
    timeout: int,
    idleTime: int,
    stopped: bool,
    preventSleep: bool,
    preventScreenSaver: bool,
    trace: seq<Event>)

  /** The app as its constructor leaves it. */
  function Initial(): App {
    App(Disabled, DefaultTimeout, 0, false, false, false, [])
  }

  // ---------------------------------------------------------------------------
  // The user's commands

  /** The on/off button: from Disabled the loop is (re)started with the stop
      signal cleared; otherwise the stop signal is set and the state is
      Disabled. Nothing else changes. */
  function ToggleJiggle(a: App): (r: App)
    ensures a.state == Disabled ==> r.state == Idle && !r.stopped
    ensures a.state != Disabled ==> r.state == Disabled && r.stopped
    ensures r.(state := a.state, stopped := a.stopped) == a
  {
    if a.state == Disabled then a.(state := Idle, stopped := false)
    else a.(state := Disabled, stopped := true)
  }

  /** The "Set Timeout" button: the timeout becomes the entry's integer value
      when `int()` accepts the entry (zero and negative values included) and
      stays as it was when `int()` raises ValueError. */
  function SetTimeout(a: App, entry: string): (r: App)
    ensures ParseInt(entry).Some? ==> r.timeout == ParseInt(entry).value
    ensures ParseInt(entry).None? ==> r.timeout == a.timeout
    ensures r.(timeout := a.timeout) == a
  {
    match ParseInt(entry)
    case Some(seconds) => a.(timeout := seconds)
    case None => a
  }

  /** The "Prevent Sleep" button: the flag flips, and the operating system is
      asked to prevent sleep when it is now set and to allow sleep when it is
      now clear. The screen-saver flag is not touched. */
  function TogglePreventSleep(a: App): (r: App)
    ensures r.preventSleep == !a.preventSleep
    ensures r.trace == a.trace + [if r.preventSleep then PreventSleep else AllowSleep]
    ensures r.(preventSleep := a.preventSleep, trace := a.trace) == a
  {
    var on := !a.preventSleep;
    a.(preventSleep := on, trace := a.trace + [if on then PreventSleep else AllowSleep])
  }

  /** The "Prevent Screen Saver" button, the same shape as TogglePreventSleep. */
  function TogglePreventScreenSaver(a: App): (r: App)
    ensures r.preventScreenSaver == !a.preventScreenSaver
    ensures r.trace == a.trace + [if r.preventScreenSaver then DisableScreenSaver else EnableScreenSaver]
    ensures r.(preventScreenSaver := a.preventScreenSaver, trace := a.trace) == a
  {
    var on := !a.preventScreenSaver;
    a.(preventScreenSaver := on,
       trace := a.trace + [if on then DisableScreenSaver else EnableScreenSaver])
  }

  /** Closing the window sets the stop signal and nothing else: the state, the
      prevent flags and the operating-system settings stay as they were. */
  function OnClosing(a: App): (r: App)
    ensures r.stopped
    ensures r.(stopped := a.stopped) == a
  {
    a.(stopped := true)
  }

  // ---------------------------------------------------------------------------
  // The polling loop

  /** The state one tick moves to: Active only when the reading is strictly
      above the timeout. */
  function TickState(reading: int, timeout: int): (s: JiggleState)
    ensures s != Disabled
    ensures s == Active <==> reading > timeout
  {
    if reading > timeout then Active else Idle
  }

  /** One pass of the body of `jiggle_mouse`'s loop, which runs only while the
      stop signal is clear: record the reading, then either jiggle once and go
      Active, or go Idle without jiggling. The timeout, the stop signal and the
      prevent flags are not touched, and the state is never left Disabled. */
  function Tick(a: App, reading: int): (r: App)
    requires !a.stopped
    ensures r.idleTime == reading
    ensures r.state != Disabled
    ensures r.state == Active <==> reading > a.timeout
    ensures r.trace == a.trace + (if reading > a.timeout then [Jiggle] else [])
    ensures r.(state := a.state, idleTime := a.idleTime, trace := a.trace) == a
  {
    var s := TickState(reading, a.timeout);
    a.(idleTime := reading, state := s, trace := a.trace + if s == Active then [Jiggle] else [])
  }

  /** The loop body applied once per reading, in order. */
  function Ticks(a: App, readings: seq<int>): (r: App)
    requires !a.stopped
    ensures !r.stopped && r.timeout == a.timeout
  {
    if readings == [] then a
    else Tick(Ticks(a, readings[..|readings| - 1]), readings[|readings| - 1])
  }

  /** The state after each tick, for a fixed timeout. */
  function StatesFor(readings: seq<int>, timeout: int): seq<JiggleState> {
    if readings == [] then []
    else StatesFor(readings[..|readings| - 1], timeout) + [TickState(readings[|readings| - 1], timeout)]
  }

  /** The jiggles the ticks perform, for a fixed timeout. */
  function JigglesFor(readings: seq<int>, timeout: int): seq<Event> {
    if readings == [] then []
    else JigglesFor(readings[..|readings| - 1], timeout)
         + if readings[|readings| - 1] > timeout then [Jiggle] else []
  }

  /** How many of the states are Active. */
  function CountActive(states: seq<JiggleState>): nat {
    if states == [] then 0
    else CountActive(states[..|states| - 1]) + if states[|states| - 1] == Active then 1 else 0
  }

  /** The k-th tick goes Active exactly when the k-th reading is strictly
      above the timeout, and Idle otherwise (a reading equal to it included). */
  lemma {:induction false} StatesForAt(readings: seq<int>, timeout: int, k: nat)
    requires k < |readings|
    ensures |StatesFor(readings, timeout)| == |readings|
    ensures StatesFor(readings, timeout)[k] == (if readings[k] > timeout then Active else Idle)
  {
    var n := |readings| - 1;
    var init := readings[..n];
    if k < n {
      StatesForAt(init, timeout, k);
    } else if n > 0 {
      StatesForAt(init, timeout, 0);
    }
  }

  /** The loop jiggles once per Active tick and performs no other call. */
  lemma {:induction false} JigglesMatchActiveTicks(readings: seq<int>, timeout: int)
    ensures |JigglesFor(readings, timeout)| == CountActive(StatesFor(readings, timeout))
    ensures forall e :: e in JigglesFor(readings, timeout) ==> e == Jiggle
  {
    if readings != [] {
      var init := readings[..|readings| - 1];
      JigglesMatchActiveTicks(init, timeout);
      var states := StatesFor(readings, timeout);
      assert states[..|states| - 1] == StatesFor(init, timeout);
    }
  }

  /** What a run of ticks leaves behind: the last reading and the state it
      led to, the jiggles appended to the trace, and everything else as it was. */
  lemma {:induction false} TicksSummary(a: App, readings: seq<int>)
    requires !a.stopped
    ensures Ticks(a, readings) ==
      a.(state := if readings == [] then a.state else TickState(readings[|readings| - 1], a.timeout),
         idleTime := if readings == [] then a.idleTime else readings[|readings| - 1],
         trace := a.trace + JigglesFor(readings, a.timeout))
  {
    if readings == [] {
      assert a.trace + [] == a.trace;
    } else {
      var init := readings[..|readings| - 1];
      TicksSummary(a, init);
      assert a.trace + JigglesFor(readings, a.timeout)
          == a.trace + JigglesFor(init, a.timeout)
             + (if readings[|readings| - 1] > a.timeout then [Jiggle] else []);
    }
  }

  /** With a timeout of 15 seconds, idle readings 5, 10, 16, 20, 3 give the
      states Idle, Idle, Active, Active, Idle, and the app jiggles on the third
      and fourth tick only. */
  lemma ThresholdFifteenScenario()
    ensures StatesFor([5, 10, 16, 20, 3], 15) == [Idle, Idle, Active, Active, Idle]
    ensures JigglesFor([5, 10, 16, 20, 3], 15) == [Jiggle, Jiggle]
  {
    var rs := [5, 10, 16, 20, 3];
    var states := StatesFor(rs, 15);
    forall k | 0 <= k < 5
      ensures states[k] == [Idle, Idle, Active, Active, Idle][k]
    {
      StatesForAt(rs, 15, k);
    }
    StatesForAt(rs, 15, 0);
    assert rs[..4] == [5, 10, 16, 20];
    assert [5, 10, 16, 20][..3] == [5, 10, 16];
    assert [5, 10, 16][..2] == [5, 10];
    assert JigglesFor([5, 10], 15) == [] by {
      assert [5, 10][..1] == [5] && [5][..0] == [];
    }
  }

  // ---------------------------------------------------------------------------
  // Toggling twice

  /** Turning the jiggler on and off again leaves it Disabled with the stop
      signal set. */
  lemma ToggleJiggleOnOff(a: App)
    requires a.state == Disabled
    ensures ToggleJiggle(ToggleJiggle(a)) == a.(stopped := true)
  {
  }

  /** Pressing "Prevent Sleep" twice restores the flag and ends with the
      opposite pair of calls to the operating system. */
  lemma TogglePreventSleepTwice(a: App)
    ensures TogglePreventSleep(TogglePreventSleep(a)).preventSleep == a.preventSleep
    ensures TogglePreventSleep(TogglePreventSleep(a)).trace ==
      a.trace + if a.preventSleep then [AllowSleep, PreventSleep] else [PreventSleep, AllowSleep]
  {
  }

  /** Pressing "Prevent Screen Saver" twice restores the flag likewise. */
  lemma TogglePreventScreenSaverTwice(a: App)
    ensures TogglePreventScreenSaver(TogglePreventScreenSaver(a)).preventScreenSaver == a.preventScreenSaver
    ensures TogglePreventScreenSaver(TogglePreventScreenSaver(a)).trace ==
      a.trace + if a.preventScreenSaver then [EnableScreenSaver, DisableScreenSaver]
                else [DisableScreenSaver, EnableScreenSaver]
  {
  }

  // ---------------------------------------------------------------------------
  // Any interleaving of commands and ticks

  /** What can happen next: a button press in the window, or one pass of the
      polling loop, which reads `reading` as the idle time. */
  datatype Command =
    | TurnOnOff
    | EnterTimeout(entry: string)
    | SleepButton
    | ScreenSaverButton
    | Close
    | Poll(reading: int)

  /** A polling loop is running and will execute its body: it was started by
      turning the jiggler on, and the stop signal is clear. */
  predicate Polling(a: App) {
    a.state != Disabled && !a.stopped
  }

  function Step(a: App, c: Command): App {
    match c
    case TurnOnOff => ToggleJiggle(a)
    case EnterTimeout(entry) => SetTimeout(a, entry)
    case SleepButton => TogglePreventSleep(a)
    case ScreenSaverButton => TogglePreventScreenSaver(a)
    case Close => OnClosing(a)
    case Poll(reading) => if Polling(a) then Tick(a, reading) else a
  }

  function Run(a: App, cmds: seq<Command>): App {
    if cmds == [] then a else Step(Run(a, cmds[..|cmds| - 1]), cmds[|cmds| - 1])
  }

  /** Whether the calls in `trace` leave sleep prevented: the last of
      PreventSleep / AllowSleep wins; sleep is allowed before either. */
  function SleepPreventedBy(trace: seq<Event>): bool {
    if trace == [] then false
    else if trace[|trace| - 1] == PreventSleep then true
    else if trace[|trace| - 1] == AllowSleep then false
    else SleepPreventedBy(trace[..|trace| - 1])
  }

  /** Whether the calls in `trace` leave the screen saver disabled. */
  function ScreenSaverDisabledBy(trace: seq<Event>): bool {
    if trace == [] then false
    else if trace[|trace| - 1] == DisableScreenSaver then true
    else if trace[|trace| - 1] == EnableScreenSaver then false
    else ScreenSaverDisabledBy(trace[..|trace| - 1])
  }

  /** The invariant of the app: each prevent flag agrees with the setting the
      operating system was last asked for, and no jiggle has happened while
      the app is in the one configuration no loop was ever started from
      (Disabled with the stop signal clear). */
  predicate Consistent(a: App) {
    a.preventSleep == SleepPreventedBy(a.trace) &&
    a.preventScreenSaver == ScreenSaverDisabledBy(a.trace) &&
    (a.state == Disabled && !a.stopped ==> Jiggle !in a.trace)
  }

  lemma InitialConsistent()
    ensures Consistent(Initial())
  {
  }

  /** A tick keeps the invariant: it calls no power routine, and it leaves
      the state Idle or Active. */
  lemma TickConsistent(a: App, reading: int)
    requires !a.stopped && Consistent(a)
    ensures Consistent(Tick(a, reading))
  {
    var t := Tick(a, reading).trace;
    if t != a.trace {
      assert t[..|t| - 1] == a.trace;
    }
  }

  /** Every command and every tick keeps the invariant. */
  lemma StepConsistent(a: App, c: Command)
    requires Consistent(a)
    ensures Consistent(Step(a, c))
  {
    var r := Step(a, c);
    var t := r.trace;
    if t != a.trace {
      assert t[..|t| - 1] == a.trace;
    }
  }

  /** Whatever the user does, in whatever order with the loop's ticks, the
      invariant holds throughout. */
  lemma {:induction false} RunConsistent(cmds: seq<Command>)
    ensures Consistent(Run(Initial(), cmds))
  {
    if cmds == [] {
      InitialConsistent();
    } else {
      RunConsistent(cmds[..|cmds| - 1]);
      StepConsistent(Run(Initial(), cmds[..|cmds| - 1]), cmds[|cmds| - 1]);
    }
  }

  /** Until the on/off button is first pressed, whatever else the user does
      and however many ticks are offered, the app stays Disabled and never
      jiggles. */
  lemma {:induction false} NoJiggleBeforeTurnOn(cmds: seq<Command>)
    requires TurnOnOff !in cmds
    ensures Run(Initial(), cmds).state == Disabled
    ensures Jiggle !in Run(Initial(), cmds).trace
  {
    if cmds != [] {
      var init := cmds[..|cmds| - 1];
      assert forall c :: c in init ==> c in cmds;
      NoJiggleBeforeTurnOn(init);
      var t := Run(Initial(), cmds).trace;
      if t != Run(Initial(), init).trace {
        assert t[..|t| - 1] == Run(Initial(), init).trace;
      }
    }
  }

  /** Closing the window while sleep or the screen saver is prevented leaves
      the operating system in that setting: nothing is restored on exit. */
  lemma ClosingKeepsPowerSettings(a: App)
    requires Consistent(a)
    ensures SleepPreventedBy(OnClosing(a).trace) == a.preventSleep
    ensures ScreenSaverDisabledBy(OnClosing(a).trace) == a.preventScreenSaver
  {
  }
}
