/*
 * A push button on an input pin with pull-up: the pin reads high while the
 * button is released. A press is reported once it has been held for
 * `pressDelay` ms; a long press after `longPressDelay` ms, and, once two
 * presses have been processed in the same hold, every `longPressDelay / 6`
 * ms (auto-repeat).
 */
module Button {
  import opened FixedWidth
  import opened AvrPlusPlus

  const INFINITY_TIME: uint64 := UINT64_MAX

  /** The default delays of the constructor, in ms. */
  const PRESS_DELAY: uint64 := 50
  const LONG_PRESS_DELAY: uint64 := 1500

  /** `pressTime` is `INFINITY_TIME` when no hold is being timed; `occurred` is a `long`. */
  datatype ButtonState = ButtonState(pressDelay: uint64, longPressDelay: uint64,
                                     pressTime: uint64, occurred: int32)

  function NewButton(pressDelay: uint64, longPressDelay: uint64): ButtonState {
    ButtonState(pressDelay, longPressDelay, INFINITY_TIME, 0)
  }

  /** `isPressed` at clock reading `now` with the pin reading `pinHigh`: (result, new state). */
  function Pressed(b: ButtonState, now: uint64, pinHigh: bool): (bool, ButtonState) {
    if pinHigh then (false, b.(pressTime := INFINITY_TIME, occurred := 0))
    else if b.occurred > 0 then (false, b)
    else
      var pt := if b.pressTime == INFINITY_TIME then now else b.pressTime;
      (now >= pt && now - pt >= b.pressDelay, b.(pressTime := pt))
  }

  /** The hold time a long press needs: shorter once two presses were processed. */
  function LongThreshold(b: ButtonState): uint64 {
    if b.occurred < 2 then b.longPressDelay else b.longPressDelay / 6
  }

  /** `isLongPressed`: reads neither the pin nor changes the state. */
  function LongPressed(b: ButtonState, now: uint64): bool {
    if b.pressTime == INFINITY_TIME then false
    else if b.occurred < 2 then now > b.pressTime && now - b.pressTime >= b.longPressDelay
    else now > b.pressTime && now - b.pressTime >= b.longPressDelay / 6
  }

  function Processed(b: ButtonState): ButtonState {
    b.(occurred := Signed32(b.occurred + 1))
  }

  function ResetPress(b: ButtonState, now: uint64): ButtonState {
    b.(pressTime := now)
  }

  /** Releasing the button stops the timing and forgets the processed presses. */
  lemma ReleaseClears(b: ButtonState, now: uint64)
    ensures Pressed(b, now, true) == (false, NewButton(b.pressDelay, b.longPressDelay))
    ensures !LongPressed(Pressed(b, now, true).1, now)
  {}

  /**
   * While held and not yet processed, a press is reported exactly when the
   * hold has lasted `pressDelay`; the first contact starts the timing, so
   * with a positive delay it is never reported at once.
   */
  lemma PressedWhenHeldLongEnough(b: ButtonState, now: uint64)
    requires b.occurred <= 0
    ensures b.pressTime == INFINITY_TIME ==>
      Pressed(b, now, false) == (b.pressDelay == 0, b.(pressTime := now))
    ensures b.pressTime != INFINITY_TIME ==>
      Pressed(b, now, false) == (now >= b.pressTime + b.pressDelay, b)
  {}

  /** A reported press that is processed is not reported again until the button is released. */
  lemma OnePressPerHold(b: ButtonState, t1: uint64, t2: uint64)
    requires 0 <= b.occurred < 0x7FFF_FFFF
    ensures var b1 := Processed(Pressed(b, t1, false).1);
      b1.occurred > 0 && Pressed(b1, t2, false) == (false, b1)
  {}

  /** A long press is a hold of more than zero and at least the threshold since `pressTime`. */
  lemma LongPressedHold(b: ButtonState, now: uint64)
    ensures LongPressed(b, now) <==>
      b.pressTime != INFINITY_TIME && now > b.pressTime && now >= b.pressTime + LongThreshold(b)
  {}

  /** Once a long press is seen it stays seen as time goes on, and a processed press only shortens the wait. */
  lemma LongPressedMonotone(b: ButtonState, t1: uint64, t2: uint64, k: int32)
    requires t1 <= t2 && b.occurred < 2 <= k
    ensures LongPressed(b, t1) ==> LongPressed(b, t2)
    ensures LongPressed(b, t1) ==> LongPressed(b.(occurred := k), t1)
  {}

  /**
   * Auto-repeat as the clock drives it: after a press was processed, a
   * further processing and `resetTime` at t make the next long press due
   * `longPressDelay / 6` ms after t.
   */
  lemma AutoRepeat(b: ButtonState, t: uint64, now: uint64)
    requires 1 <= b.occurred < 0x7FFF_FFFF && t != INFINITY_TIME
    ensures var b1 := ResetPress(Processed(b), t);
      LongPressed(b1, now) <==> now > t && now >= t + b.longPressDelay / 6
  {}

  class Button {
    const rtc: RealTimeClock
    const pressDelay: uint64
    const longPressDelay: uint64
    var pressTime: uint64
    var occurred: int32

    function Model(): ButtonState
      reads this
    {
      ButtonState(pressDelay, longPressDelay, pressTime, occurred)
    }

    /** The pull-up of the pin is not modelled. */
    constructor (rtc: RealTimeClock, pressDelay: uint64, longPressDelay: uint64)
      ensures this.rtc == rtc && Model() == NewButton(pressDelay, longPressDelay)
    {
      this.rtc := rtc;
      this.pressDelay := pressDelay;
      this.longPressDelay := longPressDelay;
      pressTime := INFINITY_TIME;
      occurred := 0;
    }

    method ResetTime()
      modifies this
      ensures Model() == ResetPress(old(Model()), rtc.timeMillisec)
    {
      pressTime := rtc.timeMillisec;
    }

    /** `pinHigh` is the level `readInput` returns. */
    method IsPressed(pinHigh: bool) returns (pressed: bool)
      modifies this
      ensures (pressed, Model()) == Pressed(old(Model()), rtc.timeMillisec, pinHigh)
    {
      var val := !pinHigh;
      if !val {
        pressTime := INFINITY_TIME;
        occurred := 0;
        return false;
      }
      if occurred > 0 {
        return false;
      }
      if pressTime == INFINITY_TIME {
        pressTime := rtc.timeMillisec;
      }
      return rtc.timeMillisec >= pressTime && rtc.timeMillisec - pressTime >= pressDelay;
    }

    predicate IsLongPressed()
      reads this, rtc
    {
      LongPressed(Model(), rtc.timeMillisec)
    }

    method SetProcessed()
      modifies this
      ensures Model() == Processed(old(Model()))
    {
      occurred := Signed32(occurred + 1);
    }
  }
}
