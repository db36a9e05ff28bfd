/** The debounced limit-switch input (`Button`): a raw pin reading becomes
    the stable value only after it has held for longer than the debounce
    delay, and an optional callback fires on each committed press. */
module Debounce {
  import opened Hardware

  /** `_debounceDelay`: a raw reading must hold for more than this. */
  const DEBOUNCE_DELAY: Millis := 50

  /** The initial `_previousState`, which no pin reading equals. */
  const NOT_YET_READ: Byte := 77

  /** The constructor stores `-99` into the byte `_state`. */
  const NOT_YET_STABLE: Byte := ToByte(-99)

  /** The three fields `interact()` updates: the stable (debounced) value,
      the previous raw reading and the time of the last raw change. */
  datatype Debouncer = Debouncer(stable: Byte, previous: Byte, lastChange: Millis)

  /** The fields as the constructor and the member initialisers leave them. */
  function Initial(): Debouncer
  {
    Debouncer(NOT_YET_STABLE, NOT_YET_READ, 0)
  }

  /** `isPressed()`: the stable value read through the polarity flag. */
  predicate Pressed(normallyClosed: bool, stable: Byte)
  {
    stable == if normallyClosed then HIGH else LOW
  }

  /** One poll: the new fields, and whether the press callback was called. */
  datatype Polled = Polled(next: Debouncer, fired: bool)

  /** `interact()` on a reading `raw` taken at time `now`. */
  function Poll(d: Debouncer, normallyClosed: bool, hasCallback: bool, raw: Level, now: Millis): Polled
  {
    var lastChange := if raw != d.previous then now else d.lastChange;
    var commit := Elapsed(now, lastChange) > DEBOUNCE_DELAY && d.stable != raw;
    var stable := if commit then raw else d.stable;
    Polled(Debouncer(stable, raw, lastChange), commit && hasCallback && Pressed(normallyClosed, stable))
  }

  class Button {
    const pin: Byte
    const normallyClosed: bool
    /** Whether a `buttonPressedFunction` was supplied. */
    const hasCallback: bool
    var state: Byte
    var previousState: Byte
    var lastDebounceTime: Millis
    /** How many times the press callback has been called. */
    var pressedCalls: nat

    function Snapshot(): Debouncer
      reads this
    {
      Debouncer(state, previousState, lastDebounceTime)
    }

    constructor (normallyClosed: bool, pin: Byte, hasCallback: bool)
      ensures this.normallyClosed == normallyClosed && this.pin == pin && this.hasCallback == hasCallback
      ensures Snapshot() == Initial() && pressedCalls == 0
    {
      this.normallyClosed := normallyClosed;
      this.pin := pin;
      this.hasCallback := hasCallback;
      state := NOT_YET_STABLE;
      previousState := NOT_YET_READ;
      lastDebounceTime := 0;
      pressedCalls := 0;
    }

    predicate IsPressed()
      reads this
      ensures IsPressed() <==> (normallyClosed && state == HIGH) || (!normallyClosed && state == LOW)
      ensures state == NOT_YET_STABLE ==> !IsPressed()
    {
      Pressed(normallyClosed, state)
    }

    method Interact(raw: Level, now: Millis)
      modifies this
      ensures var p := Poll(old(Snapshot()), normallyClosed, hasCallback, raw, now);
              Snapshot() == p.next && pressedCalls == old(pressedCalls) + (if p.fired then 1 else 0)
    {
      if raw != previousState {
        lastDebounceTime := now;
      }
      if Elapsed(now, lastDebounceTime) > DEBOUNCE_DELAY {
        if state != raw {
          state := raw;
          if hasCallback && IsPressed() {
            pressedCalls := pressedCalls + 1;
          }
        }
      }
      previousState := raw;
    }
  }

  // ---------------------------------------------------------------------
  // Properties of a single poll

  /** A pin level is pressed under exactly one polarity; the pre-commit
      value under neither. */
  lemma PolarityDecides(normallyClosed: bool, stable: Byte)
    ensures Pressed(normallyClosed, stable) <==> (normallyClosed && stable == HIGH) || (!normallyClosed && stable == LOW)
    ensures (stable == LOW || stable == HIGH) ==> (Pressed(true, stable) <==> !Pressed(false, stable))
    ensures stable == NOT_YET_STABLE ==> !Pressed(true, stable) && !Pressed(false, stable)
  {
  }

  /** The poll that observes a raw change restarts the debounce timer and
      never commits, since no time has elapsed on the restarted timer. */
  lemma RawChangeNeverCommits(d: Debouncer, normallyClosed: bool, hasCallback: bool, raw: Level, now: Millis)
    requires raw != d.previous
    ensures Poll(d, normallyClosed, hasCallback, raw, now) == Polled(Debouncer(d.stable, raw, now), false)
  {
  }

  /** A fresh button's first poll commits nothing, whatever it reads. */
  lemma FirstPollNeverCommits(normallyClosed: bool, hasCallback: bool, raw: Level, now: Millis)
    ensures Poll(Initial(), normallyClosed, hasCallback, raw, now) == Polled(Debouncer(NOT_YET_STABLE, raw, now), false)
    ensures !Pressed(normallyClosed, Poll(Initial(), normallyClosed, hasCallback, raw, now).next.stable)
  {
  }

  /** When a poll commits: exactly when the reading equals the previous one,
      more than the debounce delay has passed since the last raw change and
      it differs from the stable value. The previous reading is always
      recorded, and the stable value only ever becomes the reading. */
  lemma CommitRule(d: Debouncer, normallyClosed: bool, hasCallback: bool, raw: Level, now: Millis)
    ensures var p := Poll(d, normallyClosed, hasCallback, raw, now);
            && p.next.previous == raw
            && (p.next.stable == d.stable || p.next.stable == raw)
            && (p.next.stable != d.stable <==>
                  raw == d.previous && Elapsed(now, d.lastChange) > DEBOUNCE_DELAY && raw != d.stable)
            && (raw == d.previous ==> p.next.lastChange == d.lastChange)
  {
  }

  /** The callback fires exactly on a committed transition into pressed
      when a callback is present; never on release, never while already
      pressed. */
  lemma CallbackOnlyOnPressEdge(d: Debouncer, normallyClosed: bool, hasCallback: bool, raw: Level, now: Millis)
    ensures var p := Poll(d, normallyClosed, hasCallback, raw, now);
            p.fired <==> hasCallback && p.next.stable != d.stable && Pressed(normallyClosed, p.next.stable)
    ensures Poll(d, normallyClosed, hasCallback, raw, now).fired ==> !Pressed(normallyClosed, d.stable)
  {
  }

  /** After a callback, the next poll cannot fire again: a release must be
      committed first. */
  lemma NoCallbackTwiceInARow(d: Debouncer, normallyClosed: bool, hasCallback: bool,
                              raw1: Level, now1: Millis, raw2: Level, now2: Millis)
    requires Poll(d, normallyClosed, hasCallback, raw1, now1).fired
    ensures !Poll(Poll(d, normallyClosed, hasCallback, raw1, now1).next, normallyClosed, hasCallback, raw2, now2).fired
  {
  }

  // ---------------------------------------------------------------------
  // Properties of a sequence of polls

  /** One reading of the pin with the time it was taken. */
  datatype Sample = Sample(raw: Level, at: Millis)

  /** The fields after polling every sample in order, starting from `d`. */
  function ReplaySamples(d: Debouncer, normallyClosed: bool, hasCallback: bool, s: seq<Sample>): Debouncer
    decreases |s|
  {
    if s == [] then d
    else
      var last := s[|s| - 1];
      Poll(ReplaySamples(d, normallyClosed, hasCallback, s[..|s| - 1]), normallyClosed, hasCallback, last.raw, last.at).next
  }

  /** The index where the final run of equal readings in `s` starts. */
  function HoldStart(s: seq<Sample>): (h: nat)
    requires s != []
    ensures h < |s|
    ensures forall k :: h <= k < |s| ==> s[k].raw == s[|s| - 1].raw
    ensures h > 0 ==> s[h - 1].raw != s[|s| - 1].raw
    decreases |s|
  {
    if |s| == 1 then 0
    else if s[|s| - 2].raw == s[|s| - 1].raw then HoldStart(s[..|s| - 1])
    else |s| - 1
  }

  /** From a fresh button, the previous reading is the last sample and the
      debounce timer holds the time at which the final run of equal
      readings began. */
  lemma {:induction false} ReplayTracksHold(normallyClosed: bool, hasCallback: bool, s: seq<Sample>)
    requires s != []
    ensures var d := ReplaySamples(Initial(), normallyClosed, hasCallback, s);
            d.previous == s[|s| - 1].raw && d.lastChange == s[HoldStart(s)].at
  {
    var init := s[..|s| - 1];
    if |s| > 1 {
      ReplayTracksHold(normallyClosed, hasCallback, init);
      assert init[..|init| - 1] == s[..|s| - 2];
      if s[|s| - 2].raw == s[|s| - 1].raw {
        assert HoldStart(s) == HoldStart(init);
        assert init[HoldStart(init)] == s[HoldStart(s)];
      }
    }
  }

  /** The stable value only ever changes to a reading that was seen on
      every poll of the final run and that started more than the debounce
      delay before the committing poll. */
  lemma CommitFollowsHold(normallyClosed: bool, hasCallback: bool, s: seq<Sample>)
    requires s != []
    ensures var before := ReplaySamples(Initial(), normallyClosed, hasCallback, s[..|s| - 1]);
            var after := ReplaySamples(Initial(), normallyClosed, hasCallback, s);
            after.stable != before.stable ==>
              && after.stable == s[|s| - 1].raw
              && (forall k :: HoldStart(s) <= k < |s| ==> s[k].raw == after.stable)
              && Elapsed(s[|s| - 1].at, s[HoldStart(s)].at) > DEBOUNCE_DELAY
  {
    ReplayTracksHold(normallyClosed, hasCallback, s);
  }

  /** Samples taken from a clock that did not wrap. */
  predicate Monotone(s: seq<Sample>)
  {
    forall a, b :: 0 <= a < b < |s| ==> s[a].at <= s[b].at
  }

  /** `CommitFollowsHold` for the poll at index `k` of a longer trace. */
  lemma CommitAt(normallyClosed: bool, hasCallback: bool, s: seq<Sample>, k: nat)
    requires k < |s|
    requires ReplaySamples(Initial(), normallyClosed, hasCallback, s[..k + 1]).stable
          != ReplaySamples(Initial(), normallyClosed, hasCallback, s[..k]).stable
    ensures ReplaySamples(Initial(), normallyClosed, hasCallback, s[..k + 1]).stable == s[k].raw
    ensures var h := HoldStart(s[..k + 1]);
            && (forall m :: h <= m <= k ==> s[m].raw == s[k].raw)
            && Elapsed(s[k].at, s[h].at) > DEBOUNCE_DELAY
  {
    var u := s[..k + 1];
    assert u[..|u| - 1] == s[..k];
    CommitFollowsHold(normallyClosed, hasCallback, u);
    var h := HoldStart(u);
    forall m | h <= m <= k
      ensures s[m].raw == s[k].raw
    {
      assert u[m] == s[m];
    }
  }

  /** Committed changes are spaced by more than the debounce delay: with a
      clock that did not wrap, two consecutive commits at polls `i` and `j`
      are more than 50 ms apart. */
  lemma CommitsAreSpaced(normallyClosed: bool, hasCallback: bool, s: seq<Sample>, i: nat, j: nat)
    requires i < j < |s| && Monotone(s)
    requires ReplaySamples(Initial(), normallyClosed, hasCallback, s[..i + 1]).stable
          != ReplaySamples(Initial(), normallyClosed, hasCallback, s[..i]).stable
    requires ReplaySamples(Initial(), normallyClosed, hasCallback, s[..j + 1]).stable
          != ReplaySamples(Initial(), normallyClosed, hasCallback, s[..j]).stable
    requires ReplaySamples(Initial(), normallyClosed, hasCallback, s[..j]).stable
          == ReplaySamples(Initial(), normallyClosed, hasCallback, s[..i + 1]).stable
    ensures s[j].at - s[i].at > DEBOUNCE_DELAY
  {
    CommitAt(normallyClosed, hasCallback, s, i);
    CommitAt(normallyClosed, hasCallback, s, j);
    // the commit at i made the reading at i stable; the one at j replaced it
    var h := HoldStart(s[..j + 1]);
    assert i < h;
    assert s[i].at <= s[h].at <= s[j].at;
  }
}
