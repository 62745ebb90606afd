# JiggleWiggle's jiggler state machine in Dafny

JiggleWiggle keeps a computer awake. Once the user has been idle for longer than a timeout, it moves the mouse imperceptibly ("jiggles"). It can also ask the operating system to prevent sleep and to disable the screen saver. Behind its tkinter window, `JigglerApp` (jigglewiggle/gui.py) holds a small state machine in its fields:

- `state`: Disabled, Idle or Active;
- `IDLE_TIME_SECONDS`: the timeout, 15 by default;
- `idle_time`: the last idle reading;
- `stop_event`: the stop signal of the polling thread;
- `prevent_sleep` and `prevent_screen_saver`: the two power flags.

The button handlers update these fields in place. So does the body of the `jiggle_mouse` polling loop.

The model has three modules, one per file:

- `IntParse` (int_parse.dfy) models Python's `int()` applied to the text of the timeout entry. It strips the whitespace CPython skips. It accepts an optional sign, then decimal digits with single underscores allowed between digits. It applies CPython's 4300-digit limit. Every other input raises ValueError, modelled as `None`.
- `JiggleMachine` (jiggle_machine.dfy) holds the app's fields as a value, `App`, with one function per operation. The external `MouseJiggler.jiggle_mouse` and `SystemSettings.*` calls become `Event`s appended to a trace. It also has the folds that run the loop body once per idle reading, and an invariant kept by every interleaving of button presses and loop ticks. That invariant says each power flag agrees with the setting the operating system was last asked for.
- `JigglerGui` (jiggler_app.dfy) holds the class `JigglerApp`. Its fields are updated in place by one method per handler. Each method is specified by the matching `JiggleMachine` function through `Snapshot()`. The trace is a ghost field. `RunTicks` is the `while not stop_event.is_set()` loop, run over a finite sequence of idle readings.

The idle reading that `MouseJiggler.get_idle_time` returns becomes a parameter of `Tick` and of `RunTicks`. The text of the timeout entry becomes a parameter of `SetTimeout`.

Points of the code's behaviour worth knowing:

- `set_timeout` has no positivity check: zero and negative timeouts are accepted.
- `on_closing` only sets the stop signal. It neither restores the power settings nor sets the state to Disabled. `ClosingKeepsPowerSettings` states this.
- Turning the jiggler off sets the state to Disabled directly. The loop does not set it when it stops.
- The on/off button toggles, so pressing it while the jiggler runs stops it.

## Model

| member | source | states |
|---|---|---|
| `JigglerGui.JigglerApp.constructor` | jigglewiggle/gui.py:8-16 | A new app is Disabled, with a timeout of 15, idle time 0, a clear stop signal and both prevent flags false. It satisfies the invariant `Consistent`. |
| `JiggleMachine.ToggleJiggle` | jigglewiggle/gui.py:111-122 | From Disabled, the result is Idle with the stop signal cleared. From Idle or Active, it is Disabled with the stop signal set. Nothing else changes. |
| `JigglerGui.JigglerApp.ToggleJiggle` | jigglewiggle/gui.py:111-122 | The fields change as `JiggleMachine.ToggleJiggle` says, and the invariant is kept. |
| `JiggleMachine.ToggleJiggleOnOff` | jigglewiggle/gui.py:113-121 | Turning on and then off from Disabled ends in Disabled with the stop signal set. Every other field is as before. |
| `JiggleMachine.SetTimeout` | jigglewiggle/gui.py:124-130 | When `int()` accepts the entry, the timeout becomes exactly the parsed value, with no positivity check. When it raises ValueError, the timeout is unchanged. Nothing else changes either way. |
| `JigglerGui.JigglerApp.SetTimeout` | jigglewiggle/gui.py:124-130 | `accepted` is true exactly when `int()` accepts the entry. The fields change as `JiggleMachine.SetTimeout` says. |
| `JigglerGui.TimeoutEntries` | jigglewiggle/gui.py:124-130 | On a fresh app, the entry "abc" is rejected and the timeout stays 15. The entry " 30 " is then accepted and sets it to 30. |
| `IntParse.ParseInt` | jigglewiggle/gui.py:127 | Definition: strip ASCII whitespace, then an optional sign, then digits with single underscores between them and at most 4300 digits; anything else gives `None`. Its contract states that an accepted entry, once stripped, ends in a digit. `FormatParseRoundTrip`, `RejectsForeignCharacter`, `RejectsBlank` and `RejectsTooManyDigits` state what it accepts. |
| `IntParse.Strip` | jigglewiggle/gui.py:127 | The whitespace `int()` ignores: the result is the slice of the input from its first to its last non-whitespace character, and everything cut off is whitespace. |
| `IntParse.StripPadded` | jigglewiggle/gui.py:127 | Text whose ends are not whitespace, padded with whitespace on either side, strips back to itself. |
| `IntParse.FormatParseRoundTrip` | jigglewiggle/gui.py:127 | `int(str(n)) == n`, with any whitespace around the text, for every integer of at most 4300 digits, negative ones included. |
| `IntParse.RejectsTooManyDigits` | jigglewiggle/gui.py:127 | `str(n)` is rejected when `n` has more than 4300 digits. |
| `IntParse.RejectsForeignCharacter` | jigglewiggle/gui.py:126-130 | Input holding any character other than whitespace, a digit, an underscore or a sign is rejected, wherever that character stands. |
| `IntParse.RejectsBlank` | jigglewiggle/gui.py:126-130 | Empty or whitespace-only input is rejected. |
| `IntParse.ParsesPlainNumber` | jigglewiggle/gui.py:127 | "30" parses to 30. |
| `IntParse.ParsesPaddedNegative` | jigglewiggle/gui.py:127 | " -5\n" parses to -5. |
| `IntParse.ParsesGroupedDigits` | jigglewiggle/gui.py:127 | "1_000" parses to 1000. |
| `IntParse.RejectsDoubleUnderscore` | jigglewiggle/gui.py:127 | "1__000" is rejected. |
| `JiggleMachine.TogglePreventSleep` | jigglewiggle/gui.py:132-140 | The sleep flag is negated. PreventSleep is called when the flag becomes true and AllowSleep when it becomes false. The screen-saver flag and every other field are untouched. |
| `JigglerGui.JigglerApp.TogglePreventSleep` | jigglewiggle/gui.py:132-140 | The fields and the trace change as `JiggleMachine.TogglePreventSleep` says, and the invariant is kept. |
| `JiggleMachine.TogglePreventSleepTwice` | jigglewiggle/gui.py:134-140 | Pressing the button twice restores the flag. The two calls made are opposite ones. |
| `JiggleMachine.TogglePreventScreenSaver` | jigglewiggle/gui.py:142-150 | The screen-saver flag is negated. DisableScreenSaver is called when the flag becomes true and EnableScreenSaver when it becomes false. The sleep flag and every other field are untouched. |
| `JigglerGui.JigglerApp.TogglePreventScreenSaver` | jigglewiggle/gui.py:142-150 | The fields and the trace change as `JiggleMachine.TogglePreventScreenSaver` says, and the invariant is kept. |
| `JiggleMachine.TogglePreventScreenSaverTwice` | jigglewiggle/gui.py:144-150 | Pressing the button twice restores the flag. The two calls made are opposite ones. |
| `JiggleMachine.TickState` | jigglewiggle/gui.py:169-175 | A tick never goes to Disabled. It goes to Active exactly when the reading is strictly greater than the timeout. |
| `JiggleMachine.Tick` | jigglewiggle/gui.py:165-177 | Runs only while the stop signal is clear. The idle time becomes the reading. Above the timeout: Active, with exactly one Jiggle appended. Otherwise, equal included: Idle, with nothing appended. The timeout, the stop signal and both prevent flags are untouched. |
| `JigglerGui.JigglerApp.Tick` | jigglewiggle/gui.py:166-175 | The fields and the trace change as `JiggleMachine.Tick` says, and the invariant is kept. |
| `JiggleMachine.Ticks` | jigglewiggle/gui.py:165-177 | Applying the loop body once per reading leaves the stop signal clear and the timeout unchanged. |
| `JiggleMachine.TicksSummary` | jigglewiggle/gui.py:165-177 | After a run of ticks, the state and the idle time come from the last reading. The trace grows by one Jiggle per reading above the timeout. Nothing else changes. |
| `JiggleMachine.StatesForAt` | jigglewiggle/gui.py:169-175 | There is one state per reading. The k-th is Active exactly when the k-th reading is strictly above the timeout, and Idle otherwise. |
| `JiggleMachine.JigglesMatchActiveTicks` | jigglewiggle/gui.py:169-175 | The loop makes one jiggle call per Active tick and no other call. |
| `JigglerGui.JigglerApp.RunTicks` | jigglewiggle/gui.py:163-177 | When the stop signal is set, nothing runs, no state is returned and no field changes. Otherwise one state per reading is returned, as `StatesFor` gives, and the fields become `Ticks` of the old ones. The invariant is kept. |
| `JiggleMachine.ThresholdFifteenScenario` | jigglewiggle/gui.py:165-177 | With timeout 15, the readings 5, 10, 16, 20, 3 give Idle, Idle, Active, Active, Idle. Exactly two jiggles are made. |
| `JigglerGui.ThresholdFifteenRun` | jigglewiggle/gui.py:111-177 | A fresh app, turned on and fed the readings 5, 10, 16, 20, 3, returns Idle, Idle, Active, Active, Idle and ends Idle. Exactly two jiggle calls are made. |
| `JiggleMachine.OnClosing` | jigglewiggle/gui.py:190-193 | Sets the stop signal and changes nothing else. The state, the flags and the trace stay as they were. |
| `JigglerGui.JigglerApp.OnClosing` | jigglewiggle/gui.py:190-193 | The fields change as `JiggleMachine.OnClosing` says, and the invariant is kept. |
| `JiggleMachine.ClosingKeepsPowerSettings` | jigglewiggle/gui.py:190-193 | Closing leaves sleep prevention and screen-saver disabling in the operating system as they were. Nothing is restored. |
| `JiggleMachine.InitialConsistent` | jigglewiggle/gui.py:11-16 | The initial app satisfies the invariant. |
| `JiggleMachine.TickConsistent` | jigglewiggle/gui.py:165-177 | A tick keeps the invariant. |
| `JiggleMachine.StepConsistent` | jigglewiggle/gui.py:111-193 | Every button press and every tick of a running loop keeps the invariant. |
| `JiggleMachine.RunConsistent` | jigglewiggle/gui.py:111-193 | Any interleaving of button presses and loop ticks from a fresh app keeps the invariant. Each prevent flag equals the setting the operating system was last asked for. While the app is Disabled with the stop signal clear, no jiggle has happened. |
| `JiggleMachine.NoJiggleBeforeTurnOn` | jigglewiggle/gui.py:111-193 | Any run from a fresh app in which the on/off button is never pressed stays Disabled and never jiggles, whatever other buttons are pressed and ticks offered. |

## Left out

- The window: `run`, `set_window_icon`, the `add_*` methods, `update_indicator` and every `.config` call. They only present the state. `resource_path`, used for the icon, is not part of this model.
- `update_system_status`, which polls `SystemSettings` every 5 seconds for display only.
- Threads and `time.sleep`. The polling loop is modelled as sequential ticks, and `Step` interleaves whole ticks with whole button presses. A real race is therefore not modelled. If the jiggler is turned off and on again before the old loop wakes up, the stop signal is cleared and the old loop keeps running beside the new one. The old loop may also finish a tick after the jiggler was turned off, and set the state back to Idle or Active.
- `MouseJiggler` and `SystemSettings` are not part of this model. Their calls are recorded as trace events, and what they do in the operating system is not modelled. Someone else changing the power settings is not modelled either. `get_idle_time`, `jiggle_mouse` and the `SystemSettings` calls are assumed to return normally: gui.py has no `try` around them, and if one raised, the polling thread would end while the state stays Idle or Active, a configuration the model still counts as a running loop.
- The idle reading is taken as an integer, although the operating system may report fractions of a second.
- `on_closing` also destroys the window. That is not modelled.
- `app_version` and `latest_version` are stored as constants. `app_version` is only displayed, and `latest_version` is never read by the app.
- `StopEvent` is assumed to start clear, like `threading.Event`. It comes from jigglewiggle/utils, which is not part of this model. The constructor's "clear stop signal" and the invariant `Consistent` rest on that assumption.
- `RunTicks` runs over a finite sequence of readings. The source loop runs until the stop signal is set.
- `IntParse.ParseInt`: Unicode decimal digits and Unicode whitespace, which CPython's `int()` also accepts, are not modelled. The 4300-digit limit is CPython's default from 3.11 and from the 3.7.14, 3.8.14, 3.9.14 and 3.10.7 security releases on; earlier interpreters have no limit, and `sys.set_int_max_str_digits` can change it.
