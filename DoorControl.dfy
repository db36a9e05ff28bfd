/** The `Door` state machine: it drives the motor towards a limit switch,
    finishes the travel when the switch reports, halts the motor when the
    travel takes too long, and shows the door's state on a red and a green
    LED. */
module DoorControl {
  import opened Hardware
  import opened Debounce
  import opened Indicator

  /** `_state`: UNKNOWN (0), OPEN (1), OPENING (2), CLOSED (3), CLOSING (4)
      and HALTED (5). */
  datatype DoorState = Unknown | Open | Opening | Closed | Closing | Halted
  {
    /** `isOpenOrOpening()`. */
    predicate IsOpenOrOpening()
    {
      this == Open || this == Opening
    }

    /** `isClosedOrClosing()`. */
    predicate IsClosedOrClosing()
    {
      this == Closed || this == Closing
    }

    predicate InMotion()
    {
      this == Opening || this == Closing
    }
  }

  /** The motor's direction levels and the speed both commands start it at. */
  const FORWARDS: Byte := HIGH
  const BACKWARDS: Byte := LOW
  const FULL_SPEED: Byte := 255

  /** Travel that takes longer than this is a jam. */
  const JAM_TIMEOUT: Millis := 120000

  /** The motor's two outputs: the direction pin and the speed (PWM) pin. */
  datatype Motor = Motor(direction: Byte, speed: Byte)
  {
    predicate Running()
    {
      speed != 0
    }
  }

  /** Neither output has been written yet. */
  const MOTOR_AT_REST: Motor := Motor(LOW, 0)

  /** `Motor::start(direction, 255)`. */
  function Started(direction: Byte): Motor
  {
    Motor(direction, FULL_SPEED)
  }

  /** `Motor::stop()` writes speed 0 and leaves the direction pin alone. */
  function Stopped(m: Motor): Motor
  {
    m.(speed := 0)
  }

  /** How the door's two LEDs mirror each other: not at all, or one of them
      has the other as its opposite. */
  datatype Wiring = Separate | RedDrivesGreen | GreenDrivesRed

  /** Everything of the door that its commands change: the state, the
      override flag, the motor's start time and outputs, both LEDs and the
      number of calls to the halt callback. */
  datatype Panel = Panel(state: DoorState, manualOverride: bool, motorStart: Millis, motor: Motor,
                         red: LedView, green: LedView, halts: nat)

  /** A command to the red LED, with its push into the green one when the
      red one mirrors into it. */
  function DriveRed(p: Panel, w: Wiring, c: Command): Panel
  {
    var red := Apply(p.red, c);
    p.(red := red, green := if w == RedDrivesGreen then Mirrored(p.green, red.lit) else p.green)
  }

  /** A command to the green LED, with its push into the red one. */
  function DriveGreen(p: Panel, w: Wiring, c: Command): Panel
  {
    var green := Apply(p.green, c);
    p.(green := green, red := if w == GreenDrivesRed then Mirrored(p.red, green.lit) else p.red)
  }

  /** The state the constructor derives from the two switches. */
  function Seed(closedPressed: bool, openPressed: bool): DoorState
  {
    if openPressed then Open else if closedPressed then Closed else Unknown
  }

  /** `changeLEDState()` at time `now`. */
  function AfterPresent(p: Panel, w: Wiring, now: Millis): Panel
  {
    var c := if p.manualOverride then StartBlink(FAST_PERIOD, now) else TurnOn;
    if p.state == Open then DriveGreen(p, w, c)
    else if p.state == Closed then DriveRed(p, w, c)
    else p
  }

  /** `autoCloseOn()` at time `now`. */
  function AfterAutoClose(p: Panel, w: Wiring, now: Millis): Panel
  {
    AfterPresent(p.(manualOverride := false), w, now)
  }

  /** `openDoor(manual)` at time `now`. */
  function AfterOpen(p: Panel, w: Wiring, manual: bool, now: Millis): Panel
  {
    if p.state.IsOpenOrOpening() then p
    else
      var moving := p.(state := Opening, motor := Started(FORWARDS), motorStart := now);
      DriveGreen(DriveRed(moving, w, TurnOff), w, StartBlink(SLOW_PERIOD, now)).(manualOverride := manual)
  }

  /** `closeDoor(manual)` at time `now`. */
  function AfterClose(p: Panel, w: Wiring, manual: bool, now: Millis): Panel
  {
    if p.state.IsClosedOrClosing() then p
    else
      var moving := p.(state := Closing, motor := Started(BACKWARDS), motorStart := now);
      DriveRed(DriveGreen(moving, w, TurnOff), w, StartBlink(SLOW_PERIOD, now)).(manualOverride := manual)
  }

  /** `checkForJam()` at time `now`. */
  function AfterJamCheck(p: Panel, now: Millis): Panel
  {
    if Elapsed(now, p.motorStart) > JAM_TIMEOUT then
      p.(motor := Stopped(p.motor), state := Halted, halts := p.halts + 1)
    else p
  }

  /** `stop()`. */
  function AfterStop(p: Panel, w: Wiring): Panel
  {
    DriveGreen(DriveRed(p.(motor := Stopped(p.motor)), w, TurnOff), w, TurnOff)
  }

  /** The state machine part of `interact()`, once both switches have been
      polled and read as `closedPressed` and `openPressed`. */
  function AfterPoll(p: Panel, w: Wiring, closedPressed: bool, openPressed: bool, now: Millis): Panel
  {
    match p.state
    case Opening =>
      if openPressed then AfterPresent(p.(state := Open, motor := Stopped(p.motor)), w, now)
      else AfterJamCheck(p, now)
    case Closing =>
      if closedPressed then AfterPresent(p.(state := Closed, motor := Stopped(p.motor)), w, now)
      else AfterJamCheck(p, now)
    case _ => p
  }

  /** The two LEDs are distinct and mirror each other in at most one
      direction, so that no on/off call recurses more than once. */
  predicate PairWired(red: Led, green: Led)
    reads red, green
  {
    && red != green
    && (red.opposite == null || red.opposite == green)
    && (green.opposite == null || green.opposite == red)
    && (red.opposite == null || green.opposite == null)
  }

  function WiringOf(red: Led, green: Led): Wiring
    reads red, green
  {
    if red.opposite == green then RedDrivesGreen
    else if green.opposite == red then GreenDrivesRed
    else Separate
  }

  class Door {
    const closedButton: Button
    const openButton: Button
    const motorDirectionPin: Byte
    const motorSpeedPin: Byte
    /** Not owned: the door only drives them. */
    const red: Led
    const green: Led
    var state: DoorState
    var motorStartTime: Millis
    var manualOverride: bool
    var motorDirection: Byte
    var motorSpeed: Byte
    /** How many times the halt callback has been called. */
    var haltCalls: nat

    ghost predicate Valid()
      reads this, red, green
    {
      && closedButton != openButton
      && closedButton.normallyClosed && openButton.normallyClosed
      && !closedButton.hasCallback && !openButton.hasCallback
      && PairWired(red, green)
    }

    function LedWiring(): Wiring
      reads red, green
    {
      WiringOf(red, green)
    }

    function Snapshot(): Panel
      reads this, red, green
    {
      Panel(state, manualOverride, motorStartTime, Motor(motorDirection, motorSpeed), red.View(), green.View(), haltCalls)
    }

    /** The constructor polls each switch once, closed first, and seeds the
        state from what they report. */
    constructor (closedButtonPin: Byte, openButtonPin: Byte, motorDirectionPin: Byte, motorSpeedPin: Byte,
                 red: Led, green: Led, rawClosed: Level, rawOpen: Level, now: Millis)
      requires PairWired(red, green)
      ensures Valid() && this.red == red && this.green == green
      ensures fresh(closedButton) && fresh(openButton)
      ensures closedButton.pin == closedButtonPin && openButton.pin == openButtonPin
      ensures closedButton.Snapshot() == Poll(Initial(), true, false, rawClosed, now).next
      ensures openButton.Snapshot() == Poll(Initial(), true, false, rawOpen, now).next
      ensures state == Seed(closedButton.IsPressed(), openButton.IsPressed())
      ensures state == Unknown
      ensures !manualOverride && haltCalls == 0 && motorStartTime == 0
      ensures Motor(motorDirection, motorSpeed) == MOTOR_AT_REST
    {
      closedButton := new Button(true, closedButtonPin, false);
      openButton := new Button(true, openButtonPin, false);
      this.motorDirectionPin := motorDirectionPin;
      this.motorSpeedPin := motorSpeedPin;
      this.red := red;
      this.green := green;
      state := Unknown;
      motorStartTime := 0;
      manualOverride := false;
      motorDirection := LOW;
      motorSpeed := 0;
      haltCalls := 0;
      new;
      var seeded := Unknown;
      closedButton.Interact(rawClosed, now);
      if closedButton.IsPressed() {
        seeded := Closed;
      }
      openButton.Interact(rawOpen, now);
      if openButton.IsPressed() {
        seeded := Open;
      }
      state := seeded;
    }

    method Interact(rawClosed: Level, rawOpen: Level, now: Millis)
      requires Valid()
      modifies this, closedButton, openButton, red, green
      ensures Valid()
      ensures red.opposite == old(red.opposite) && green.opposite == old(green.opposite)
      ensures closedButton.Snapshot() == Poll(old(closedButton.Snapshot()), true, false, rawClosed, now).next
      ensures openButton.Snapshot() == Poll(old(openButton.Snapshot()), true, false, rawOpen, now).next
      ensures Snapshot() == AfterPoll(old(Snapshot()), LedWiring(), closedButton.IsPressed(), openButton.IsPressed(), now)
    {
      closedButton.Interact(rawClosed, now);
      openButton.Interact(rawOpen, now);
      match state
      case Opening =>
        if openButton.IsPressed() {
          state := Open;
          motorSpeed := 0;
          ChangeLedState(now);
        } else {
          CheckForJam(now);
        }
      case Closing =>
        if closedButton.IsPressed() {
          state := Closed;
          motorSpeed := 0;
          ChangeLedState(now);
        } else {
          CheckForJam(now);
        }
      case _ =>
    }

    method AutoCloseOn(now: Millis)
      requires Valid()
      modifies this, red, green
      ensures Valid()
      ensures red.opposite == old(red.opposite) && green.opposite == old(green.opposite)
      ensures Snapshot() == AfterAutoClose(old(Snapshot()), LedWiring(), now)
    {
      manualOverride := false;
      ChangeLedState(now);
    }

    method ChangeLedState(now: Millis)
      requires Valid()
      modifies red, green
      ensures Valid()
      ensures red.opposite == old(red.opposite) && green.opposite == old(green.opposite)
      ensures Snapshot() == AfterPresent(old(Snapshot()), LedWiring(), now)
    {
      if state == Open {
        if manualOverride {
          green.FastBlink(now);
        } else {
          green.On();
        }
      } else if state == Closed {
        if manualOverride {
          red.FastBlink(now);
        } else {
          red.On();
        }
      }
    }

    method CloseDoor(manual: bool, now: Millis)
      requires Valid()
      modifies this, red, green
      ensures Valid()
      ensures red.opposite == old(red.opposite) && green.opposite == old(green.opposite)
      ensures Snapshot() == AfterClose(old(Snapshot()), LedWiring(), manual, now)
    {
      if state != Closed && state != Closing {
        state := Closing;
        motorDirection, motorSpeed := BACKWARDS, FULL_SPEED;
        motorStartTime := now;
        green.Off();
        red.SlowBlink(now);
        manualOverride := manual;
      }
    }

    method OpenDoor(manual: bool, now: Millis)
      requires Valid()
      modifies this, red, green
      ensures Valid()
      ensures red.opposite == old(red.opposite) && green.opposite == old(green.opposite)
      ensures Snapshot() == AfterOpen(old(Snapshot()), LedWiring(), manual, now)
    {
      if state != Open && state != Opening {
        state := Opening;
        motorDirection, motorSpeed := FORWARDS, FULL_SPEED;
        motorStartTime := now;
        red.Off();
        green.SlowBlink(now);
        manualOverride := manual;
      }
    }

    method CheckForJam(now: Millis)
      modifies this
      ensures Snapshot() == AfterJamCheck(old(Snapshot()), now)
    {
      if Elapsed(now, motorStartTime) > JAM_TIMEOUT {
        motorSpeed := 0;
        state := Halted;
        haltCalls := haltCalls + 1;
      }
    }

    method Stop()
      requires Valid()
      modifies this, red, green
      ensures Valid()
      ensures red.opposite == old(red.opposite) && green.opposite == old(green.opposite)
      ensures Snapshot() == AfterStop(old(Snapshot()), LedWiring())
    {
      motorSpeed := 0;
      red.Off();
      green.Off();
    }
  }
}
