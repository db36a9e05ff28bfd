/** The indicator `LED`: off, on or blinking, with an optional opposite
    peer that every on, off and blink tick pushes into the inverse state. */
module Indicator {
  import opened Hardware

  /** `_state`: OFF (0), ON (1) or BLINK (2). */
  datatype Mode = Off | On | Blink

  /** The periods `slowBlink()` and `fastBlink()` pass to `blink()`. */
  const SLOW_PERIOD: Int16 := 1000
  const FAST_PERIOD: Int16 := 250

  /** Everything an LED holds except its peer link: the mode, the level
      driven onto the pin, the blink phase `_isOff`, the blink period and
      the time of the last toggle. */
  datatype LedView = LedView(mode: Mode, lit: bool, isOff: bool, duration: Int16, lastChange: Millis)

  /** The constructor writes `initialState` to the pin and sets the mode to
      OFF; the fields it does not set are zero. */
  function Constructed(initialState: Byte): LedView
  {
    LedView(Off, initialState != LOW, false, 0, 0)
  }

  /** `on()` on this LED. */
  function SwitchedOn(v: LedView): LedView
  {
    v.(mode := On, lit := true, isOff := false)
  }

  /** `off()` on this LED. */
  function SwitchedOff(v: LedView): LedView
  {
    v.(mode := Off, lit := false, isOff := true)
  }

  /** `blink(period)` on this LED, at time `now`. */
  function Blinking(v: LedView, period: Int16, now: Millis): LedView
  {
    v.(mode := Blink, lit := false, isOff := true, duration := period, lastChange := now)
  }

  /** Whether `interact()` at time `now` toggles a blinking LED: the period
      converted to `unsigned long` has elapsed, non-strictly. */
  predicate TickDue(v: LedView, now: Millis)
  {
    v.mode == Blink && Elapsed(now, v.lastChange) >= ToUnsignedLong(v.duration)
  }

  /** `interact()` on this LED at time `now`. */
  function Ticked(v: LedView, now: Millis): LedView
  {
    if TickDue(v, now) then v.(lit := v.isOff, isOff := !v.isOff, lastChange := now) else v
  }

  /** What an LED pushes into its peer once its own pin is at `selfLit`. */
  function Mirrored(peer: LedView, selfLit: bool): LedView
  {
    if selfLit then SwitchedOff(peer) else SwitchedOn(peer)
  }

  /** The blink phase agrees with the pin. */
  predicate PhaseAgrees(v: LedView)
  {
    v.lit == !v.isOff
  }

  /** A command another component gives an LED. */
  datatype Command = TurnOn | TurnOff | StartBlink(period: Int16, now: Millis)

  function Apply(v: LedView, c: Command): LedView
  {
    match c
    case TurnOn => SwitchedOn(v)
    case TurnOff => SwitchedOff(v)
    case StartBlink(period, now) => Blinking(v, period, now)
  }

  class Led {
    const pin: Byte
    var mode: Mode
    var lit: bool
    var isOff: bool
    var duration: Int16
    var lastChange: Millis
    var opposite: Led?

    function View(): LedView
      reads this
    {
      LedView(mode, lit, isOff, duration, lastChange)
    }

    /** The chain of opposites ends at the peer, so that `on()` and `off()`
        call each other at most once. */
    predicate PeerIsLeaf()
      reads this, opposite
    {
      opposite != null ==> opposite.opposite == null
    }

    constructor (pin: Byte, initialState: Byte)
      ensures this.pin == pin && View() == Constructed(initialState) && opposite == null
    {
      this.pin := pin;
      mode := Mode.Off;
      lit := initialState != LOW;
      isOff := false;
      duration := 0;
      lastChange := 0;
      opposite := null;
    }

    method On()
      requires PeerIsLeaf()
      modifies this, opposite
      ensures View() == SwitchedOn(old(View()))
      ensures opposite == old(opposite) && PeerIsLeaf()
      ensures opposite != null ==> opposite.View() == Mirrored(old(opposite.View()), true)
      decreases if opposite == null then 0 else 1
    {
      lit := true;
      mode := Mode.On;
      isOff := false;
      if opposite != null {
        opposite.Off();
      }
    }

    method Off()
      requires PeerIsLeaf()
      modifies this, opposite
      ensures View() == SwitchedOff(old(View()))
      ensures opposite == old(opposite) && PeerIsLeaf()
      ensures opposite != null ==> opposite.View() == Mirrored(old(opposite.View()), false)
      decreases if opposite == null then 0 else 1
    {
      lit := false;
      mode := Mode.Off;
      isOff := true;
      if opposite != null {
        opposite.On();
      }
    }

    method Blink(period: Int16, now: Millis)
      requires PeerIsLeaf()
      modifies this, opposite
      ensures View() == Blinking(old(View()), period, now)
      ensures opposite == old(opposite) && PeerIsLeaf()
      ensures opposite != null ==> opposite.View() == Mirrored(old(opposite.View()), false)
    {
      duration := period;
      isOff := true;
      lastChange := now;
      Off();
      mode := Mode.Blink;
    }

    method SlowBlink(now: Millis)
      requires PeerIsLeaf()
      modifies this, opposite
      ensures View() == Blinking(old(View()), SLOW_PERIOD, now)
      ensures opposite == old(opposite) && PeerIsLeaf()
      ensures opposite != null ==> opposite.View() == Mirrored(old(opposite.View()), false)
    {
      Blink(SLOW_PERIOD, now);
    }

    method FastBlink(now: Millis)
      requires PeerIsLeaf()
      modifies this, opposite
      ensures View() == Blinking(old(View()), FAST_PERIOD, now)
      ensures opposite == old(opposite) && PeerIsLeaf()
      ensures opposite != null ==> opposite.View() == Mirrored(old(opposite.View()), false)
    {
      Blink(FAST_PERIOD, now);
    }

    method SetOpposite(peer: Led)
      requires peer != this && peer.opposite == null
      modifies this, peer
      ensures opposite == peer && peer.opposite == null
      ensures View() == old(View())
      ensures peer.View() == Mirrored(old(peer.View()), !old(isOff))
    {
      opposite := peer;
      if isOff {
        opposite.On();
      } else {
        opposite.Off();
      }
    }

    method RemoveOpposite()
      modifies this
      ensures opposite == null && View() == old(View())
    {
      opposite := null;
    }

    method Interact(now: Millis)
      requires PeerIsLeaf()
      modifies this, opposite
      ensures View() == Ticked(old(View()), now)
      ensures opposite == old(opposite) && PeerIsLeaf()
      ensures opposite != null ==>
                opposite.View() == if TickDue(old(View()), now) then Mirrored(old(opposite.View()), old(isOff))
                                   else old(opposite.View())
    {
      if mode == Mode.Blink {
        if Elapsed(now, lastChange) >= ToUnsignedLong(duration) {
          if isOff {
            lit := true;
            if opposite != null {
              opposite.Off();
            }
          } else {
            lit := false;
            if opposite != null {
              opposite.On();
            }
          }
          lastChange := now;
          isOff := !isOff;
        }
      }
    }
  }

  // ---------------------------------------------------------------------
  // Properties of the LED operations

  /** A peer is always pushed to the inverse of the pin level of the LED
      that drives it, with a matching phase. */
  lemma MirroredIsInverse(peer: LedView, selfLit: bool)
    ensures Mirrored(peer, selfLit).lit == !selfLit
    ensures Mirrored(peer, selfLit).mode == (if selfLit then Off else On)
    ensures PhaseAgrees(Mirrored(peer, selfLit))
    ensures Mirrored(peer, selfLit).duration == peer.duration && Mirrored(peer, selfLit).lastChange == peer.lastChange
  {
  }

  /** on(), off() and blink() leave this LED and a mirrored peer on opposite
      levels. */
  lemma SwitchingKeepsPeerInverse(v: LedView, peer: LedView, c: Command)
    ensures Mirrored(peer, Apply(v, c).lit).lit == !Apply(v, c).lit
    ensures Apply(v, c).lit <==> c == TurnOn
    ensures PhaseAgrees(Apply(v, c))
  {
  }

  /** blink(period) starts dark in the off phase, and slowBlink and
      fastBlink differ from it only in the period. */
  lemma BlinkStartsDark(v: LedView, period: Int16, now: Millis)
    ensures var b := Blinking(v, period, now);
            b.mode == Blink && !b.lit && b.isOff && b.duration == period && b.lastChange == now
    ensures Blinking(v, SLOW_PERIOD, now).duration == 1000 && Blinking(v, FAST_PERIOD, now).duration == 250
  {
  }

  /** interact() changes nothing unless the LED is blinking and the period
      has elapsed (inclusively); a tick inverts the phase, restarts the
      period at `now` and stays in BLINK, and the pin follows the phase. */
  lemma TickRule(v: LedView, now: Millis)
    ensures Ticked(v, now) != v <==> v.mode == Blink && Elapsed(now, v.lastChange) >= ToUnsignedLong(v.duration)
    ensures TickDue(v, now) ==> var t := Ticked(v, now);
            t.mode == Blink && t.isOff == !v.isOff && t.lit == v.isOff && t.lastChange == now && t.duration == v.duration
    ensures v.mode == Blink && 0 <= v.duration && Elapsed(now, v.lastChange) == v.duration ==> TickDue(v, now)
    ensures PhaseAgrees(v) ==> PhaseAgrees(Ticked(v, now))
  {
  }

  /** setOpposite() leaves the peer on the inverse level, provided the
      LED's phase agrees with its pin, which on, off, blink and every tick
      guarantee. */
  lemma SetOppositeInverts(v: LedView, peer: LedView)
    requires PhaseAgrees(v)
    ensures Mirrored(peer, !v.isOff).lit == !v.lit
  {
  }

  /** A freshly constructed LED whose pin was written LOW has `_isOff`
      false, so setOpposite() switches the peer off and both are dark. */
  lemma FreshDarkLedDarkensPeer(peer: LedView)
    ensures !PhaseAgrees(Constructed(LOW))
    ensures !Constructed(LOW).lit && !Mirrored(peer, !Constructed(LOW).isOff).lit
  {
  }

  /** The LED after polling at each of `times` in order. */
  function ReplayTicks(v: LedView, times: seq<Millis>): LedView
    decreases |times|
  {
    if times == [] then v else ReplayTicks(Ticked(v, times[0]), times[1..])
  }

  /** Once blinking, polling alone never leaves BLINK, never changes the
      period, and keeps the pin in step with the phase. */
  lemma {:induction false} BlinkingPersists(v: LedView, times: seq<Millis>)
    requires v.mode == Blink && PhaseAgrees(v)
    ensures var r := ReplayTicks(v, times);
            r.mode == Blink && r.duration == v.duration && PhaseAgrees(r)
    decreases |times|
  {
    if times != [] {
      BlinkingPersists(Ticked(v, times[0]), times[1..]);
    }
  }

  /** An LED that is not blinking ignores any number of polls. */
  lemma {:induction false} SteadyIgnoresPolls(v: LedView, times: seq<Millis>)
    requires v.mode != Blink
    ensures ReplayTicks(v, times) == v
    decreases |times|
  {
    if times != [] {
      SteadyIgnoresPolls(v, times[1..]);
    }
  }
}
