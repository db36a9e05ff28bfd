# Door controller model

A Dafny model of an Arduino door controller. The controller is built from three polled components:

- **Button**: a debounced limit-switch input with an optional press callback.
- **LED**: an indicator that is off, on or blinking. It can have an "opposite" peer: its `on()`, `off()`, `blink()` and blink ticks push the inverse level into that peer. Nothing else keeps the peer inverted.
- **Door**: a state machine over UNKNOWN, OPEN, OPENING, CLOSED, CLOSING and HALTED. It drives a motor towards a limit switch, stops it when the switch reports, and halts it when the travel takes longer than two minutes. It shows its state on a red and a green LED.

Each component is a Dafny `class` with the fields the C++ class updates. Each method is proved against a pure step function on a value of those fields:

| class | its state as a value | step functions |
|---|---|---|
| `Debounce.Button` | `Debouncer`, read through `Snapshot()` | `Poll` |
| `Indicator.Led` | `LedView`, read through `View()` | `SwitchedOn`, `SwitchedOff`, `Blinking`, `Ticked`, `Mirrored` |
| `DoorControl.Door` | `Panel`, read through `Snapshot()`; it includes both LEDs' views | `AfterOpen`, `AfterClose`, `AfterPoll`, `AfterJamCheck`, `AfterStop`, `AfterPresent`, `AfterAutoClose`, `Seed` |

The lemmas in `Debounce`, `Indicator` and `DoorProperties` state what the controller promises about those step functions, for one call and for whole runs of polls.

The modules are:

- `Hardware`: bytes, pin levels, the 32-bit millisecond clock, and the C conversions the code relies on:
  - `unsigned long` subtraction wraps modulo 2^32;
  - an `int` period is compared after conversion to `unsigned long`;
  - `-99` is stored into a `byte`.
- `Debounce`: the Button, with lemmas about a single poll and about traces of samples.
- `Indicator`: the LED and its peer.
- `DoorControl`: the Door, the motor outputs and the step functions.
- `DoorProperties`: the Door's properties.

The clock and the switch readings are parameters: every method takes `now`, and the polls take the raw levels. The callbacks are counters. `Button.pressedCalls` counts calls of the press callback, and `Door.haltCalls` counts calls of `halt`.

In five places the code does not do what its own structure or comments set out to do. The model follows the code, and each case is proved as a lemma:

- **The constructor is meant to start in OPEN or CLOSED when a limit switch is pressed, but it never can** (`DoorProperties.ConstructionCannotSeed`, and the constructor's `ensures state == Unknown`).
  - The constructor polls each switch exactly once.
  - A fresh button's first poll always sees a raw change against `_previousState = 77`. That restarts the debounce timer, so nothing commits.
  - The seeding branches in `Door.cpp:24-30` are therefore dead.
- **Every other operation runs the motor exactly while the door is OPENING or CLOSING, but `stop()` breaks that** (`DoorProperties.StopBreaksMotorInvariant`). It stops the motor but leaves OPENING or CLOSING in place, so a later poll can still halt a door whose motor is already stopped. `DoorProperties.MotorInvariantKept` proves that the other operations keep the invariant.
- **A jam is meant to call `halt` once, but HALTED is final only for polls** (`DoorProperties.RearmedJamHaltsAgain`, `DoorProperties.HaltedDoesNotRefuseCommands`). `openDoor`/`closeDoor` are not refused after a jam, so a second jam calls `halt` a second time.
- **`setOpposite` is meant to leave the peer inverted, but a freshly constructed LED breaks that** (`Indicator.FreshDarkLedDarkensPeer`). The constructor writes `initialState` to the pin but never sets `_isOff`. With a zero-initialised `_isOff`, an LED constructed LOW is dark with `_isOff` false. `setOpposite` then switches the peer off too, so both LEDs are dark. After any `on`, `off`, `blink` or tick, the pin and `_isOff` agree and `setOpposite` inverts correctly (`Indicator.SetOppositeInverts`).
- **The header and the source name the same operation differently.** `Door.h:27` declares `autoOn()`, but `Door.cpp:81` defines `autoCloseOn()`. The model follows `Door.cpp`.

## Model

| member | source | states |
|---|---|---|
| `Hardware.Elapsed` | Door.cpp:168 | `now - since` on `unsigned long`: the plain difference when the clock has not wrapped, the difference plus 2^32 when it has |
| `Hardware.ToUnsignedLong` | LED.cpp:100 | the `int` period compared against an `unsigned long` is itself when non-negative, and wraps to the value plus 2^32 when negative |
| `Hardware.ToByte` | Button.cpp:16 | storing an `int` into a `byte` keeps values 0..255 and maps -256..-1 to the value plus 256 (so -99 becomes 157) |
| `Debounce.Button.constructor` | Button.cpp:10-17 | a new button has the given pin, polarity and callback, the not-yet-stable value `byte(-99)`, previous reading 77, timer 0, and no callback calls |
| `Debounce.Button.Interact` | Button.cpp:34-61 | the new fields are exactly `Poll` of the old fields, and the press callback count grows by one exactly when `Poll` fires |
| `Debounce.Button.IsPressed` | Button.cpp:23-29 | the button is pressed iff its stable value is HIGH for a normally-closed switch and LOW otherwise; a button that has not yet committed is never pressed |
| `Debounce.PolarityDecides` | Button.cpp:23-29 | `isPressed()` holds iff the stable value is HIGH for a normally-closed switch and LOW otherwise; a level is pressed under exactly one polarity; the pre-commit value `byte(-99)` is pressed under neither |
| `Debounce.RawChangeNeverCommits` | Button.cpp:37-42 | a poll whose reading differs from the previous one restarts the timer at `now`, records the reading, keeps the stable value and fires nothing |
| `Debounce.FirstPollNeverCommits` | Button.cpp:36-46 | a fresh button's first poll commits nothing and fires nothing whatever it reads, so it is not pressed afterwards |
| `Debounce.CommitRule` | Button.cpp:36-60 | the previous reading always becomes the raw reading; the stable value changes iff the reading repeats, more than 50 ms (strictly) have passed since the last raw change, and it differs from the stable value; it only ever changes to the reading |
| `Debounce.CallbackOnlyOnPressEdge` | Button.cpp:44-56 | the callback fires iff a callback is present, the stable value changed and the new value is pressed; it never fires when the button was already pressed |
| `Debounce.NoCallbackTwiceInARow` | Button.cpp:44-56 | after a poll that fired, the next poll cannot fire |
| `Debounce.ReplayTracksHold` | Button.cpp:36-40 | after any trace from a fresh button, the previous reading is the last sample and the debounce timer holds the time at which the final run of equal readings began |
| `Debounce.CommitFollowsHold` | Button.cpp:36-46 | the stable value only changes to the last reading, which was read on every poll of the final run of equal readings, and that run began more than 50 ms before |
| `Debounce.CommitsAreSpaced` | Button.cpp:36-46 | on a clock that did not wrap, two consecutive commits of a trace are more than 50 ms apart |
| `Indicator.Led.constructor` | LED.cpp:10-16 | a new LED is in mode OFF, its pin holds `initialState`, `_isOff` is false, period and last change are zero, and there is no opposite |
| `Indicator.Led.On` | LED.cpp:21-28 | pin HIGH, mode ON, `_isOff` false, the rest unchanged; an opposite is then switched off (pin LOW, mode OFF) and the link is kept |
| `Indicator.Led.Off` | LED.cpp:33-40 | pin LOW, mode OFF, `_isOff` true, the rest unchanged; an opposite is then switched on and the link is kept |
| `Indicator.Led.Blink` | LED.cpp:47-54 | mode BLINK, period as given, `_isOff` true, last change `now`, pin LOW; an opposite is switched on |
| `Indicator.Led.SlowBlink` | LED.cpp:59-62 | exactly `blink(1000)` |
| `Indicator.Led.FastBlink` | LED.cpp:67-70 | exactly `blink(250)` |
| `Indicator.Led.SetOpposite` | LED.cpp:75-82 | stores the peer and leaves this LED unchanged; the peer is switched on if this LED's `_isOff` is set and off otherwise |
| `Indicator.Led.RemoveOpposite` | LED.cpp:87-90 | clears the link and changes nothing else, the former peer included |
| `Indicator.Led.Interact` | LED.cpp:95-118 | the new view is `Ticked` of the old one; the opposite is pushed to the inverse of the new level exactly when a tick happens, and is untouched otherwise |
| `Indicator.MirroredIsInverse` | LED.cpp:21-40 | the peer driven by an LED at a given level ends at the inverse level, in the matching mode, with pin and `_isOff` agreeing, and its blink timing untouched |
| `Indicator.SwitchingKeepsPeerInverse` | LED.cpp:21-54 | after on, off or blink the LED is lit iff the command was on, its pin and `_isOff` agree, and a mirrored peer is at the inverse level |
| `Indicator.BlinkStartsDark` | LED.cpp:47-70 | blink starts in BLINK, dark, in the off phase, with the given period from `now`; slow and fast blinking use 1000 and 250 ms |
| `Indicator.TickRule` | LED.cpp:95-118 | a poll changes the LED iff it is blinking and at least the period (non-strictly) has elapsed; a tick flips the phase, drives the pin to the old phase's inverse, restarts timing at `now` and stays in BLINK; at exactly the period it ticks |
| `Indicator.SetOppositeInverts` | LED.cpp:75-82 | when the LED's pin and `_isOff` agree, `setOpposite` leaves the peer at the inverse level |
| `Indicator.FreshDarkLedDarkensPeer` | LED.cpp:10-16 | an LED constructed LOW has pin and `_isOff` disagreeing, and `setOpposite` on it darkens the peer, so both are dark |
| `Indicator.BlinkingPersists` | LED.cpp:95-118 | once blinking with pin and phase in agreement, any sequence of polls stays in BLINK with the same period and keeps them in agreement |
| `Indicator.SteadyIgnoresPolls` | LED.cpp:95-97 | an LED that is not blinking is unchanged by any sequence of polls |
| `DoorControl.Door.constructor` | Door.cpp:15-31 | two fresh normally-closed buttons without callbacks, each polled once, closed first; the state is the one `Seed` derives from them, which is always UNKNOWN; no override, no halt, motor outputs at rest |
| `DoorControl.Door.Interact` | Door.cpp:36-76 | both buttons polled (closed first) as `Poll` says, the LED links unchanged, and the door's new state is `AfterPoll` of the old one under the old wiring, with the switches' new pressed values |
| `DoorControl.Door.AutoCloseOn` | Door.cpp:81-85 | the LED links are unchanged, and the new state is `AfterAutoClose` of the old one under the old wiring |
| `DoorControl.Door.ChangeLedState` | Door.cpp:102-118 | the LED links are unchanged, and the new state is `AfterPresent` of the old one under the old wiring |
| `DoorControl.Door.CloseDoor` | Door.cpp:125-139 | the LED links are unchanged, and the new state is `AfterClose` of the old one under the old wiring |
| `DoorControl.Door.OpenDoor` | Door.cpp:146-159 | the LED links are unchanged, and the new state is `AfterOpen` of the old one under the old wiring |
| `DoorControl.Door.CheckForJam` | Door.cpp:165-176 | the new state is `AfterJamCheck` of the old one |
| `DoorControl.Door.Stop` | Door.cpp:181-187 | the LED links are unchanged, and the new state is `AfterStop` of the old one under the old wiring |
| `DoorProperties.OpenAndClosedExclusive` | Door.cpp:194-207 | `isOpenOrOpening` and `isClosedOrClosing` are never both true; the door is in motion iff it is in exactly one of them and neither OPEN nor CLOSED |
| `DoorProperties.SeedRule` | Door.cpp:23-30 | the seeded state is OPEN iff the open switch is pressed (OPEN wins over CLOSED), CLOSED iff only the closed one is, UNKNOWN iff neither |
| `DoorProperties.ConstructionCannotSeed` | Door.cpp:24-30 | with each switch polled once from a fresh button, the seeded state is UNKNOWN whatever the readings |
| `DoorProperties.OpenCommandEffect` | Door.cpp:146-159 | from any state but OPEN/OPENING, `openDoor`: OPENING, motor forwards at 255 from `now`, override = `manual`, green slow-blinking from its dark phase, red off (on when green mirrors into it), halt count kept |
| `DoorProperties.CloseCommandEffect` | Door.cpp:125-139 | from any state but CLOSED/CLOSING, `closeDoor`: CLOSING, motor backwards at 255 from `now`, override = `manual`, red slow-blinking, green off (on when red mirrors into it), halt count kept |
| `DoorProperties.CommandsIdempotent` | Door.cpp:128-148 | `openDoor` in OPEN/OPENING and `closeDoor` in CLOSED/CLOSING change nothing, so a repeated command equals a single one |
| `DoorProperties.HaltedDoesNotRefuseCommands` | Door.cpp:128-152 | from HALTED, `openDoor` and `closeDoor` start the motor again |
| `DoorProperties.StopEffect` | Door.cpp:181-187 | `stop()` stops the motor (direction kept) and keeps state, override, start time and halt count; green ends off, and red off unless green mirrors into it |
| `DoorProperties.PresentationRule` | Door.cpp:102-118 | OPEN: green fast-blinks with the override set and is on otherwise; CLOSED: the same with red; any other state: nothing changes; state, motor and override are never touched |
| `DoorProperties.AutoCloseOnRule` | Door.cpp:81-85 | `autoCloseOn` clears the override and turns the LED of an open or closed door solid on, leaving state and motor alone |
| `DoorProperties.IdleStatesIgnorePolls` | Door.cpp:42-74 | only OPENING and CLOSING react to a poll |
| `DoorProperties.ArrivalRule` | Door.cpp:44-66 | OPENING with the open switch pressed becomes OPEN, CLOSING with the closed switch pressed becomes CLOSED, whatever the time; the motor stops and `changeLEDState` runs; halt is not called |
| `DoorProperties.JamRule` | Door.cpp:165-176 | in motion without the target switch, the door halts iff more than 120000 ms (strictly) passed since the motor started; halting stops the motor and calls halt once; otherwise nothing changes, in particular at exactly 120000 ms |
| `DoorProperties.HaltedIsFinal` | Door.cpp:42-74 | once HALTED, any sequence of polls changes nothing |
| `DoorProperties.HaltCalledAtMostOnce` | Door.cpp:165-176 | over any sequence of polls, halt is called at most once, and only by a door that ends HALTED and did not start there |
| `DoorProperties.JamHaltsOnce` | Door.cpp:55-173 | a door opening for more than 120000 ms without reaching the switch halts on that poll with the motor stopped and halt called exactly once, whatever polls follow |
| `DoorProperties.RearmedJamHaltsAgain` | Door.cpp:146-173 | a command after a jam re-arms the motor, and a second jam calls halt a second time |
| `DoorProperties.MotorInvariantKept` | Door.cpp:125-176 | "the motor runs exactly while the door is OPENING or CLOSING" holds after construction and is kept by `openDoor`, `closeDoor`, `autoCloseOn`, `changeLEDState` and the poll |
| `DoorProperties.StopBreaksMotorInvariant` | Door.cpp:181-187 | `stop()` during travel leaves OPENING/CLOSING with the motor stopped |
| `DoorProperties.AutomaticOpenScenario` | Door.cpp:44-159 | an automatic open from UNKNOWN blinks green slowly with the motor forwards, and on reaching the open switch becomes OPEN with the motor stopped and green solid on |
| `DoorProperties.ManualCloseScenario` | Door.cpp:59-139 | a manual close ends CLOSED with red blinking fast; `autoCloseOn` then turns red solid on and clears the override |

## Left out

- `Buzzer.cpp`/`Buzzer.h`: the beep sequencer never interacts with the door, buttons or LEDs.
- `Motor.cpp`/`Motor.h`: not modelled as a class. The Door holds the motor's two outputs as fields (`motorDirection`, `motorSpeed`). `start` writes both outputs and `stop` writes speed 0, as `Motor.cpp:23-35` does.
- Pin I/O (`pinMode`, `digitalRead`, `digitalWrite`, `analogWrite`) and `millis()`:
  - readings and the time are method parameters;
  - pin outputs are fields (`Led.lit`, the motor outputs);
  - pin numbers are kept as constants but drive nothing.
- `Debounce.Button.Interact`: takes one `now` for the whole call, while `Button::interact` reads `millis()` twice. The model treats the two reads as the same instant.
- Callbacks: the press callback and `halt` are invocation counters. Code behind the function pointers, including re-entrant calls into the door, is not modelled.
- `Indicator.Led.On`, `Indicator.Led.Off`, `Indicator.Led.Blink`, `Indicator.Led.Interact`: require that the peer has no opposite of its own (`PeerIsLeaf`). Two LEDs that name each other make `on()`/`off()` recurse without end, and longer chains are not modelled.
- `Indicator.Led.SetOpposite`: requires that the new peer has no opposite and is not the LED itself, for the same reason.
- `DoorControl.Door.constructor`: requires the red and green LEDs to be distinct and to mirror each other in at most one direction (`PairWired`). A door LED whose opposite lies outside the pair is not modelled.
- Integer widths follow the AVR boards: `int` is 16 bits, `unsigned long` is 32 bits. `_isOff`, `_opposite`, `_duration` and `_timeLastChange`, which the LED constructor never sets, start false, null, 0 and 0, as zero-initialised globals do. `interact()` reads the last two only in BLINK, after `blink()` has set them. `_motorStartTime` starts at 0.
- Commented-out `Serial` logging and the `volatile` qualifier on `_state` have no behaviour in the single-threaded poll loop.
- Heap allocation of the buttons and the motor is modelled by fresh `Button` objects and motor fields. The objects are never freed, as in the code.
- `isOpenOrOpening` and `isClosedOrClosing` are datatype predicates on the state (`DoorState.IsOpenOrOpening`, `DoorState.IsClosedOrClosing`). Their properties are in `DoorProperties.OpenAndClosedExclusive`.
