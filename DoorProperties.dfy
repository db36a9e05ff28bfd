/** What the door's commands and its poll promise, stated over the `Panel`
    functions that the `Door` methods are proved against. */
module DoorProperties {
  import opened Hardware
  import opened Debounce
  import opened Indicator
  import opened DoorControl

  // ---------------------------------------------------------------------
  // Queries and construction

  /** A door is never both open-or-opening and closed-or-closing. */
  lemma OpenAndClosedExclusive(s: DoorState)
    ensures !(s.IsOpenOrOpening() && s.IsClosedOrClosing())
    ensures s.InMotion() <==> s.IsOpenOrOpening() != s.IsClosedOrClosing() && s != Open && s != Closed
  {
  }

  /** The constructor's choice: OPEN when the open switch is pressed (even
      if the closed one is too), else CLOSED when the closed one is, else
      UNKNOWN. */
  lemma SeedRule(closedPressed: bool, openPressed: bool)
    ensures Seed(closedPressed, openPressed) == Open <==> openPressed
    ensures Seed(closedPressed, openPressed) == Closed <==> closedPressed && !openPressed
    ensures Seed(closedPressed, openPressed) == Unknown <==> !closedPressed && !openPressed
  {
  }

  /** Each switch has been polled only once when the constructor looks at
      it, and a first poll never commits, so the seeding always gives
      UNKNOWN. */
  lemma ConstructionCannotSeed(rawClosed: Level, rawOpen: Level, now: Millis)
    ensures Seed(Pressed(true, Poll(Initial(), true, false, rawClosed, now).next.stable),
                 Pressed(true, Poll(Initial(), true, false, rawOpen, now).next.stable)) == Unknown
  {
    FirstPollNeverCommits(true, false, rawClosed, now);
    FirstPollNeverCommits(true, false, rawOpen, now);
  }

  // ---------------------------------------------------------------------
  // Commands

  /** openDoor from any state but OPEN and OPENING: OPENING, motor forwards
      at full speed from `now`, the override flag set to `manual`, the red
      LED off (on instead when the green one mirrors into it) and the green
      one blinking slowly from its dark phase. */
  lemma OpenCommandEffect(p: Panel, w: Wiring, manual: bool, now: Millis)
    requires !p.state.IsOpenOrOpening()
    ensures var r := AfterOpen(p, w, manual, now);
            && r.state == Opening && r.motor == Motor(FORWARDS, 255) && r.motor.Running()
            && r.motorStart == now && r.manualOverride == manual && r.halts == p.halts
            && r.green == LedView(Blink, false, true, 1000, now)
            && r.red == if w == GreenDrivesRed then SwitchedOn(p.red) else SwitchedOff(p.red)
  {
  }

  /** closeDoor from any state but CLOSED and CLOSING: the mirror image of
      openDoor, backwards, with the red LED blinking and the green one off. */
  lemma CloseCommandEffect(p: Panel, w: Wiring, manual: bool, now: Millis)
    requires !p.state.IsClosedOrClosing()
    ensures var r := AfterClose(p, w, manual, now);
            && r.state == Closing && r.motor == Motor(BACKWARDS, 255) && r.motor.Running()
            && r.motorStart == now && r.manualOverride == manual && r.halts == p.halts
            && r.red == LedView(Blink, false, true, 1000, now)
            && r.green == if w == RedDrivesGreen then SwitchedOn(p.green) else SwitchedOff(p.green)
  {
  }

  /** A command towards where the door already is or is going changes
      nothing; repeating a command is therefore idempotent. */
  lemma CommandsIdempotent(p: Panel, w: Wiring, manual: bool, now: Millis, manual2: bool, now2: Millis)
    ensures p.state.IsOpenOrOpening() ==> AfterOpen(p, w, manual, now) == p
    ensures p.state.IsClosedOrClosing() ==> AfterClose(p, w, manual, now) == p
    ensures AfterOpen(AfterOpen(p, w, manual, now), w, manual2, now2) == AfterOpen(p, w, manual, now)
    ensures AfterClose(AfterClose(p, w, manual, now), w, manual2, now2) == AfterClose(p, w, manual, now)
  {
  }

  /** Neither command is refused after a jam: from HALTED both start the
      motor again. */
  lemma HaltedDoesNotRefuseCommands(p: Panel, w: Wiring, manual: bool, now: Millis)
    requires p.state == Halted
    ensures AfterOpen(p, w, manual, now).state == Opening && AfterOpen(p, w, manual, now).motor.Running()
    ensures AfterClose(p, w, manual, now).state == Closing && AfterClose(p, w, manual, now).motor.Running()
  {
  }

  /** stop(): motor stopped, state, override flag, start time and halt count
      kept, green off, and red off unless the green LED mirrors into it, in
      which case green's off() switches red back on. */
  lemma StopEffect(p: Panel, w: Wiring)
    ensures var r := AfterStop(p, w);
            && r.state == p.state && r.manualOverride == p.manualOverride
            && r.motorStart == p.motorStart && r.halts == p.halts
            && !r.motor.Running() && r.motor.direction == p.motor.direction
            && r.green == SwitchedOff(p.green)
            && r.red == if w == GreenDrivesRed then SwitchedOn(p.red) else SwitchedOff(p.red)
  {
  }

  /** changeLEDState(): in OPEN the green LED blinks fast when the override
      flag is set and is on otherwise, in CLOSED the red one does the same,
      in any other state nothing changes; the state, the motor and the flag
      are never touched. */
  lemma PresentationRule(p: Panel, w: Wiring, now: Millis)
    ensures var r := AfterPresent(p, w, now);
            && r.state == p.state && r.motor == p.motor && r.manualOverride == p.manualOverride
            && r.motorStart == p.motorStart && r.halts == p.halts
            && (p.state == Open ==>
                  r.green == (if p.manualOverride then LedView(Blink, false, true, 250, now) else SwitchedOn(p.green))
                  && r.red == (if w == GreenDrivesRed then Mirrored(p.red, r.green.lit) else p.red))
            && (p.state == Closed ==>
                  r.red == (if p.manualOverride then LedView(Blink, false, true, 250, now) else SwitchedOn(p.red))
                  && r.green == (if w == RedDrivesGreen then Mirrored(p.green, r.red.lit) else p.green))
            && (p.state != Open && p.state != Closed ==> r == p)
  {
  }

  /** autoCloseOn(): the flag is cleared and the LED of an open or closed
      door turns solid on; the motor and the state are left alone. */
  lemma AutoCloseOnRule(p: Panel, w: Wiring, now: Millis)
    ensures var r := AfterAutoClose(p, w, now);
            && !r.manualOverride && r.state == p.state && r.motor == p.motor && r.halts == p.halts
            && (p.state == Open ==> r.green == SwitchedOn(p.green))
            && (p.state == Closed ==> r.red == SwitchedOn(p.red))
  {
  }

  // ---------------------------------------------------------------------
  // The poll

  /** Only OPENING and CLOSING react to a poll. */
  lemma IdleStatesIgnorePolls(p: Panel, w: Wiring, closedPressed: bool, openPressed: bool, now: Millis)
    requires !p.state.InMotion()
    ensures AfterPoll(p, w, closedPressed, openPressed, now) == p
  {
  }

  /** Reaching the limit switch: OPENING with the open switch pressed
      becomes OPEN with the motor stopped and the LEDs refreshed, whatever
      the time; CLOSING with the closed switch pressed likewise becomes
      CLOSED. */
  lemma ArrivalRule(p: Panel, w: Wiring, closedPressed: bool, openPressed: bool, now: Millis)
    requires (p.state == Opening && openPressed) || (p.state == Closing && closedPressed)
    ensures var r := AfterPoll(p, w, closedPressed, openPressed, now);
            && r.state == (if p.state == Opening then Open else Closed)
            && !r.motor.Running() && r.motor.direction == p.motor.direction
            && r.halts == p.halts && r.manualOverride == p.manualOverride
            && r == AfterPresent(p.(state := r.state, motor := Stopped(p.motor)), w, now)
  {
  }

  /** The jam rule: in motion with the target switch not pressed, the door
      halts exactly when more than 120000 ms have passed since the motor
      started (so not at exactly 120000), stopping the motor and calling
      the halt callback once; otherwise nothing changes. */
  lemma JamRule(p: Panel, w: Wiring, closedPressed: bool, openPressed: bool, now: Millis)
    requires (p.state == Opening && !openPressed) || (p.state == Closing && !closedPressed)
    ensures var r := AfterPoll(p, w, closedPressed, openPressed, now);
            && (r.state == Halted <==> Elapsed(now, p.motorStart) > 120000)
            && (r.state == Halted ==>
                  r == p.(state := Halted, motor := Stopped(p.motor), halts := p.halts + 1) && !r.motor.Running())
            && (r.state != Halted ==> r == p)
    ensures Elapsed(now, p.motorStart) == 120000 ==> AfterPoll(p, w, closedPressed, openPressed, now) == p
  {
  }

  // ---------------------------------------------------------------------
  // Sequences of polls

  /** The switch readings of one poll and the time it was made. */
  datatype Reading = Reading(closedPressed: bool, openPressed: bool, at: Millis)

  /** The door after polling at each reading in order, with no command in
      between. */
  function ReplayPolls(p: Panel, w: Wiring, rs: seq<Reading>): Panel
    decreases |rs|
  {
    if rs == [] then p
    else ReplayPolls(AfterPoll(p, w, rs[0].closedPressed, rs[0].openPressed, rs[0].at), w, rs[1..])
  }

  /** Once HALTED, polling changes nothing: no transition, no second call
      of the halt callback. */
  lemma {:induction false} HaltedIsFinal(p: Panel, w: Wiring, rs: seq<Reading>)
    requires p.state == Halted
    ensures ReplayPolls(p, w, rs) == p
    decreases |rs|
  {
    if rs != [] {
      HaltedIsFinal(p, w, rs[1..]);
    }
  }

  /** Over any run of polls the halt callback is called at most once, and
      only by a door that ends HALTED and did not start there. */
  lemma {:induction false} HaltCalledAtMostOnce(p: Panel, w: Wiring, rs: seq<Reading>)
    ensures var r := ReplayPolls(p, w, rs);
            r.halts == p.halts || (r.halts == p.halts + 1 && r.state == Halted && p.state != Halted)
    decreases |rs|
  {
    if rs != [] {
      var q := AfterPoll(p, w, rs[0].closedPressed, rs[0].openPressed, rs[0].at);
      if q.halts == p.halts {
        HaltCalledAtMostOnce(q, w, rs[1..]);
      } else {
        HaltedIsFinal(q, w, rs[1..]);
      }
    }
  }

  /** A door opening for more than 120000 ms without reaching the open
      switch halts on that poll, stops the motor, calls halt once, and no
      later poll calls it again. */
  lemma JamHaltsOnce(p: Panel, w: Wiring, first: Reading, rest: seq<Reading>)
    requires p.state == Opening && !first.openPressed && Elapsed(first.at, p.motorStart) > JAM_TIMEOUT
    ensures var r := ReplayPolls(p, w, [first] + rest);
            r.state == Halted && !r.motor.Running() && r.halts == p.halts + 1
  {
    var q := AfterPoll(p, w, first.closedPressed, first.openPressed, first.at);
    assert ([first] + rest)[1..] == rest;
    HaltedIsFinal(q, w, rest);
  }

  /** Since commands are not refused in HALTED, a new command re-arms the
      motor and a second jam calls the halt callback again. */
  lemma RearmedJamHaltsAgain(p: Panel, w: Wiring, manual: bool, start: Millis, r: Reading)
    requires p.state == Halted && !r.openPressed && Elapsed(r.at, start) > JAM_TIMEOUT
    ensures var q := AfterPoll(AfterOpen(p, w, manual, start), w, r.closedPressed, r.openPressed, r.at);
            q.state == Halted && q.halts == p.halts + 1
  {
  }

  // ---------------------------------------------------------------------
  // The motor runs exactly while the door is in motion

  predicate MotorMatchesMotion(p: Panel)
  {
    p.motor.Running() <==> p.state.InMotion()
  }

  /** The door as the constructor leaves it satisfies the invariant, and
      the commands and the poll preserve it. */
  lemma MotorInvariantKept(p: Panel, w: Wiring, manual: bool, closedPressed: bool, openPressed: bool, now: Millis)
    requires MotorMatchesMotion(p)
    ensures MotorMatchesMotion(p.(state := Unknown, motor := MOTOR_AT_REST))
    ensures MotorMatchesMotion(AfterOpen(p, w, manual, now))
    ensures MotorMatchesMotion(AfterClose(p, w, manual, now))
    ensures MotorMatchesMotion(AfterAutoClose(p, w, now))
    ensures MotorMatchesMotion(AfterPresent(p, w, now))
    ensures MotorMatchesMotion(AfterPoll(p, w, closedPressed, openPressed, now))
  {
  }

  /** stop() during travel breaks it: the motor stops while the state stays
      OPENING or CLOSING. */
  lemma StopBreaksMotorInvariant(p: Panel, w: Wiring)
    requires p.state.InMotion()
    ensures !MotorMatchesMotion(AfterStop(p, w))
  {
  }

  // ---------------------------------------------------------------------
  // Whole scenarios

  /** An automatic open from UNKNOWN that reaches the open switch: OPENING
      with the green LED blinking slowly, then OPEN with the motor stopped
      and the green LED solid on. */
  lemma AutomaticOpenScenario(p: Panel, w: Wiring, start: Millis, r: Reading)
    requires p.state == Unknown && r.openPressed
    ensures var moving := AfterOpen(p, w, false, start);
            moving.state == Opening && moving.motor == Started(FORWARDS)
            && moving.green.mode == Blink && moving.green.duration == SLOW_PERIOD
    ensures var done := AfterPoll(AfterOpen(p, w, false, start), w, r.closedPressed, r.openPressed, r.at);
            done.state == Open && !done.motor.Running() && done.green.mode == On && done.green.lit
  {
  }

  /** A manual close that reaches the closed switch leaves the red LED
      blinking fast; autoCloseOn then turns it solid on. */
  lemma ManualCloseScenario(p: Panel, w: Wiring, start: Millis, r: Reading, later: Millis)
    requires !p.state.IsClosedOrClosing() && r.closedPressed
    ensures var done := AfterPoll(AfterClose(p, w, true, start), w, r.closedPressed, r.openPressed, r.at);
            done.state == Closed && !done.motor.Running() && done.manualOverride
            && done.red.mode == Blink && done.red.duration == FAST_PERIOD
    ensures var auto := AfterAutoClose(AfterPoll(AfterClose(p, w, true, start), w, r.closedPressed, r.openPressed, r.at), w, later);
            auto.state == Closed && !auto.manualOverride && auto.red.mode == On && auto.red.lit
  {
  }
}
