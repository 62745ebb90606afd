/** `JigglerApp` of jigglewiggle/gui.py without its window: the fields the
    event handlers and the polling thread update in place, and one method per
    handler, each specified by the matching function of JiggleMachine. */
module JigglerGui {
  import opened IntParse
  import opened JiggleMachine

  class JigglerApp {
    const appVersion: string
    const latestVersion: Option<string>

    var state: JiggleState
    /** `IDLE_TIME_SECONDS`: a tick jiggles when the idle time is strictly above it. */
    var idleTimeoutSeconds: int
    /** `idle_time`: the last idle reading, in seconds. */
    var idleTime: int
    /** Whether `stop_event` is set. */
    var stopped: bool
    var preventSleep: bool
    var preventScreenSaver: bool
    /** The calls made into the operating system, oldest first. */
    ghost var trace: seq<Event>

    /** The fields as a value of the state machine. */
    ghost function Snapshot(): App
      reads this
    {
      App(state, idleTimeoutSeconds, idleTime, stopped, preventSleep, preventScreenSaver, trace)
    }

    /** A new app is Disabled, with a 15-second timeout, no idle time
        measured, a clear stop signal and neither power setting requested. */
    constructor (appVersion: string, latestVersion: Option<string>)
      ensures this.appVersion == appVersion && this.latestVersion == latestVersion
      ensures Snapshot() == Initial()
      ensures Consistent(Snapshot())
    {
      this.appVersion := appVersion;
      this.latestVersion := latestVersion;
      state := Disabled;
      idleTimeoutSeconds := DefaultTimeout;
      idleTime := 0;
      stopped := false;
      preventSleep := false;
      preventScreenSaver := false;
      trace := [];
      InitialConsistent();
    }

    /** `toggle_jiggle`. Turning on clears the stop signal before the polling
        loop (RunTicks) is started. */
    method ToggleJiggle()
      modifies this
      ensures Snapshot() == JiggleMachine.ToggleJiggle(old(Snapshot()))
      ensures Consistent(old(Snapshot())) ==> Consistent(Snapshot())
    {
      if state == Disabled {
        state := Idle;
        stopped := false;
      } else {
        state := Disabled;
        stopped := true;
      }
      if Consistent(old(Snapshot())) {
        StepConsistent(old(Snapshot()), TurnOnOff);
      }
    }

    /** `set_timeout`, given the text of the timeout entry; `accepted` is false
        when the window shows "Please enter a valid number." instead. */
    method SetTimeout(entry: string) returns (accepted: bool)
      modifies this
      ensures accepted == ParseInt(entry).Some?
      ensures Snapshot() == JiggleMachine.SetTimeout(old(Snapshot()), entry)
      ensures Consistent(old(Snapshot())) ==> Consistent(Snapshot())
    {
      var parsed := ParseInt(entry);
      match parsed {
        case Some(seconds) =>
          idleTimeoutSeconds := seconds;
          accepted := true;
        case None =>
          accepted := false;
      }
      if Consistent(old(Snapshot())) {
        StepConsistent(old(Snapshot()), EnterTimeout(entry));
      }
    }

    /** `toggle_prevent_sleep`. */
    method TogglePreventSleep()
      modifies this
      ensures Snapshot() == JiggleMachine.TogglePreventSleep(old(Snapshot()))
      ensures Consistent(old(Snapshot())) ==> Consistent(Snapshot())
    {
      preventSleep := !preventSleep;
      if preventSleep {
        trace := trace + [PreventSleep];
      } else {
        trace := trace + [AllowSleep];
      }
      if Consistent(old(Snapshot())) {
        StepConsistent(old(Snapshot()), SleepButton);
      }
    }

    /** `toggle_prevent_screen_saver`. */
    method TogglePreventScreenSaver()
      modifies this
      ensures Snapshot() == JiggleMachine.TogglePreventScreenSaver(old(Snapshot()))
      ensures Consistent(old(Snapshot())) ==> Consistent(Snapshot())
    {
      preventScreenSaver := !preventScreenSaver;
      if preventScreenSaver {
        trace := trace + [DisableScreenSaver];
      } else {
        trace := trace + [EnableScreenSaver];
      }
      if Consistent(old(Snapshot())) {
        StepConsistent(old(Snapshot()), ScreenSaverButton);
      }
    }

    /** One pass of the body of `jiggle_mouse`'s loop, with `reading` the idle
        time the mouse jiggler reported. */
    method Tick(reading: int)
      requires !stopped
      modifies this
      ensures Snapshot() == JiggleMachine.Tick(old(Snapshot()), reading)
      ensures Consistent(old(Snapshot())) ==> Consistent(Snapshot())
    {
      idleTime := reading;
      if idleTime > idleTimeoutSeconds {
        state := Active;
        trace := trace + [Jiggle];
      } else {
        state := Idle;
      }
      if Consistent(old(Snapshot())) {
        TickConsistent(old(Snapshot()), reading);
      }
    }

    /** `jiggle_mouse`: the loop runs its body once per reading while the stop
        signal is clear, and returns the state each pass left behind. A set
        stop signal ends it before the first pass. */
    method RunTicks(readings: seq<int>) returns (states: seq<JiggleState>)
      modifies this
      ensures states == if old(stopped) then [] else StatesFor(readings, old(idleTimeoutSeconds))
      ensures Snapshot() == if old(stopped) then old(Snapshot()) else Ticks(old(Snapshot()), readings)
      ensures Consistent(old(Snapshot())) ==> Consistent(Snapshot())
    {
      states := [];
      var i := 0;
      while i < |readings| && !stopped
        invariant 0 <= i <= |readings|
        invariant stopped == old(stopped) && idleTimeoutSeconds == old(idleTimeoutSeconds)
        invariant old(stopped) ==> i == 0 && Snapshot() == old(Snapshot())
        invariant !old(stopped) ==> Snapshot() == Ticks(old(Snapshot()), readings[..i])
        invariant states == StatesFor(readings[..i], idleTimeoutSeconds)
        invariant Consistent(old(Snapshot())) ==> Consistent(Snapshot())
      {
        assert readings[..i + 1][..i] == readings[..i];
        Tick(readings[i]);
        states := states + [state];
        i := i + 1;
      }
      assert !old(stopped) ==> readings[..i] == readings;
    }

    /** `on_closing`, without destroying the window. */
    method OnClosing()
      modifies this
      ensures Snapshot() == JiggleMachine.OnClosing(old(Snapshot()))
      ensures Consistent(old(Snapshot())) ==> Consistent(Snapshot())
    {
      stopped := true;
      if Consistent(old(Snapshot())) {
        StepConsistent(old(Snapshot()), Close);
      }
    }
  }

  /** A fresh app turned on with the default timeout, fed idle readings
      5, 10, 16, 20, 3: Idle, Idle, Active, Active, Idle, with two jiggles. */
  method ThresholdFifteenRun(appVersion: string)
    returns (states: seq<JiggleState>, last: JiggleState, ghost jiggles: seq<Event>)
    ensures states == [Idle, Idle, Active, Active, Idle]
    ensures last == Idle
    ensures jiggles == [Jiggle, Jiggle]
  {
    var app := new JigglerApp(appVersion, None);
    app.ToggleJiggle();
    states := app.RunTicks([5, 10, 16, 20, 3]);
    last := app.state;
    ThresholdFifteenScenario();
    TicksSummary(JiggleMachine.ToggleJiggle(Initial()), [5, 10, 16, 20, 3]);
    jiggles := app.trace;
  }

  /** A fresh app rejects the timeout entry "abc", keeping 15 seconds, and
      then accepts " 30 ". */
  method TimeoutEntries(appVersion: string) returns (first: bool, second: bool, timeout: int)
    ensures !first && second && timeout == 30
  {
    var app := new JigglerApp(appVersion, None);
    RejectsForeignCharacter("abc", 0);
    first := app.SetTimeout("abc");
    assert app.idleTimeoutSeconds == DefaultTimeout;
    assert " " + FormatInt(30) + " " == " 30 " by {
      assert Digits(30) == Digits(3) + [DigitChar(0)] == "30";
    }
    FormatParseRoundTrip(" ", 30, " ");
    second := app.SetTimeout(" 30 ");
    timeout := app.idleTimeoutSeconds;
  }
}
