/*
 * Non-blocking alarm sound on a piezo element: a double beep (75 ms on,
 * 100 ms off, 75 ms on, 300 ms off) repeated `maxNumber` times, driven by
 * calls of `periodic`. A new alarm is refused for a minute after the last
 * one started, unless `resetTime` lifted that lock.
 */
module PiezoAlarm {
  import opened FixedWidth
  import opened AvrPlusPlus

  const INFINITY_TIME: uint64 := UINT64_MAX

  /** Phase durations and the start lock-out, in ms. */
  const ON_DURATION := 75
  const PAUSE1_DURATION := 100
  const PAUSE2_DURATION := 300
  const START_LOCKOUT := 60000

  datatype Phase = Off | On1 | Pause1 | On2 | Pause2

  /** `pin` is the output bit of the piezo port pin. */
  datatype PiezoState = PiezoState(phase: Phase, startTime: uint64, stateTime: uint64,
                                   maxNumber: uint8, number: uint8, pin: bool)

  predicate Sounding(ph: Phase) {
    ph == On1 || ph == On2
  }

  /**
   * The pin is high exactly in the two sounding phases; an idle alarm has
   * no repetitions counted, and the count stays below the number asked for.
   */
  predicate PiezoValid(p: PiezoState) {
    && (p.pin <==> Sounding(p.phase))
    && (p.phase == Off ==> p.number == 0)
    && (p.number == 0 || p.number < p.maxNumber)
  }

  /** After construction: idle, no start recorded, the output low (port registers reset to 0). */
  const INITIAL_PIEZO := PiezoState(Off, INFINITY_TIME, INFINITY_TIME, 0, 0, false)

  function PhaseDuration(ph: Phase): int {
    match ph
    case Off => 0
    case On1 => ON_DURATION
    case Pause1 => PAUSE1_DURATION
    case On2 => ON_DURATION
    case Pause2 => PAUSE2_DURATION
  }

  function NextPhase(ph: Phase): Phase {
    match ph
    case Off => Off
    case On1 => Pause1
    case Pause1 => On2
    case On2 => Pause2
    case Pause2 => On1
  }

  function PiezoReset(p: PiezoState): PiezoState {
    p.(startTime := INFINITY_TIME)
  }

  function PiezoStart(p: PiezoState, now: uint64, maxNumber: uint8): (q: PiezoState)
    requires PiezoValid(p)
    ensures PiezoValid(q)
  {
    if p.phase != Off then p
    else if p.startTime != INFINITY_TIME && now < AddU64(p.startTime, START_LOCKOUT) then p
    else p.(maxNumber := maxNumber, phase := On1, startTime := now, stateTime := now, number := 0, pin := true)
  }

  /** `finish`: (whether an alarm was running, the new state). */
  function PiezoFinish(p: PiezoState): (r: (bool, PiezoState))
    ensures PiezoValid(r.1) && r.1.phase == Off
  {
    (p.phase != Off, p.(phase := Off, number := 0, pin := false))
  }

  function PiezoPeriodic(p: PiezoState, now: uint64): (q: PiezoState)
    requires PiezoValid(p)
    ensures PiezoValid(q)
  {
    match p.phase
    case Off => p
    case On1 =>
      if now > AddU64(p.stateTime, ON_DURATION) then p.(phase := Pause1, stateTime := now, pin := false) else p
    case Pause1 =>
      if now > AddU64(p.stateTime, PAUSE1_DURATION) then p.(phase := On2, stateTime := now, pin := true) else p
    case On2 =>
      if now > AddU64(p.stateTime, ON_DURATION) then p.(phase := Pause2, stateTime := now, pin := false) else p
    case Pause2 =>
      if now > AddU64(p.stateTime, PAUSE2_DURATION) then
        var n := Wrap8(p.number + 1);
        if n >= p.maxNumber then PiezoFinish(p.(number := n)).1
        else p.(number := n, phase := On1, stateTime := now, pin := true)
      else p
  }

  /** The count of repetitions never reaches the number asked for, or 1 if that is 0. */
  lemma NumberBounded(p: PiezoState)
    requires PiezoValid(p)
    ensures p.number < (if p.maxNumber > 1 then p.maxNumber else 1)
  {}

  /** `start` while an alarm is sounding, or within a minute of the last start, changes nothing. */
  lemma StartRefused(p: PiezoState, now: uint64, maxNumber: uint8)
    requires PiezoValid(p)
    requires p.phase != Off ||
      (p.startTime != INFINITY_TIME && now < p.startTime + START_LOCKOUT < 0x1_0000_0000_0000_0000)
    ensures PiezoStart(p, now, maxNumber) == p
  {}

  /** An accepted start begins the first beep now, with the pin high and no repetitions counted. */
  lemma StartAccepted(p: PiezoState, now: uint64, maxNumber: uint8)
    requires PiezoValid(p) && p.phase == Off
    requires p.startTime == INFINITY_TIME || now >= p.startTime + START_LOCKOUT
    ensures PiezoStart(p, now, maxNumber) ==
      PiezoState(On1, now, now, maxNumber, 0, true)
  {}

  /** `resetTime` lifts the lock-out: an idle alarm then always starts. */
  lemma ResetLiftsLockout(p: PiezoState, now: uint64, maxNumber: uint8)
    requires PiezoValid(p) && p.phase == Off
    ensures PiezoValid(PiezoReset(p))
    ensures PiezoStart(PiezoReset(p), now, maxNumber).phase == On1
  {}

  /**
   * `periodic` leaves a running phase only once its duration has passed
   * (strictly), then enters the next phase at `now`; leaving the long pause
   * counts a repetition, and the alarm finishes when the count reaches the
   * number asked for.
   */
  lemma PeriodicAdvances(p: PiezoState, now: uint64)
    requires PiezoValid(p) && p.phase != Off
    requires p.stateTime + PhaseDuration(p.phase) < 0x1_0000_0000_0000_0000
    ensures var q := PiezoPeriodic(p, now);
      if now <= p.stateTime + PhaseDuration(p.phase) then q == p
      else if p.phase == Pause2 && p.number + 1 >= p.maxNumber then
        q == p.(phase := Off, number := 0, pin := false)
      else
        && q.phase == NextPhase(p.phase) && q.stateTime == now
        && q.number == (if p.phase == Pause2 then p.number + 1 else p.number)
        && q.startTime == p.startTime && q.maxNumber == p.maxNumber
  {}

  /** `finish` reports whether an alarm was running; right after it, a second call reports false. */
  lemma FinishTwice(p: PiezoState)
    ensures PiezoFinish(p).0 <==> p.phase != Off
    ensures !PiezoFinish(PiezoFinish(p).1).0
    ensures PiezoFinish(PiezoFinish(p).1).1 == PiezoFinish(p).1
  {}

  class PiezoAlarm {
    const rtc: RealTimeClock
    var phase: Phase
    var startTime: uint64
    var stateTime: uint64
    var maxNumber: uint8
    var number: uint8
    var pin: bool

    function Model(): PiezoState
      reads this
    {
      PiezoState(phase, startTime, stateTime, maxNumber, number, pin)
    }

    predicate Valid()
      reads this
    {
      PiezoValid(Model())
    }

    /** `maxNumber` is not set by the constructor; the object lives in zeroed static storage. */
    constructor (rtc: RealTimeClock)
      ensures this.rtc == rtc && Model() == INITIAL_PIEZO && Valid()
    {
      this.rtc := rtc;
      phase := Off;
      startTime := INFINITY_TIME;
      stateTime := INFINITY_TIME;
      maxNumber := 0;
      number := 0;
      pin := false;
    }

    method ResetTime()
      requires Valid()
      modifies this
      ensures Model() == PiezoReset(old(Model())) && Valid()
    {
      startTime := INFINITY_TIME;
    }

    method Start(maxNumber: uint8)
      requires Valid()
      modifies this
      ensures Model() == PiezoStart(old(Model()), rtc.timeMillisec, maxNumber) && Valid()
    {
      if phase != Off {
        return;
      }
      if startTime != INFINITY_TIME && rtc.timeMillisec < AddU64(startTime, START_LOCKOUT) {
        return;
      }
      this.maxNumber := maxNumber;
      phase := On1;
      startTime := rtc.timeMillisec;
      stateTime := startTime;
      number := 0;
      pin := true;
    }

    method Periodic()
      requires Valid()
      modifies this
      ensures Model() == PiezoPeriodic(old(Model()), rtc.timeMillisec) && Valid()
    {
      match phase {
        case Off => return;
        case On1 =>
          if rtc.timeMillisec > AddU64(stateTime, ON_DURATION) {
            phase := Pause1;
            stateTime := rtc.timeMillisec;
            pin := false;
          }
        case Pause1 =>
          if rtc.timeMillisec > AddU64(stateTime, PAUSE1_DURATION) {
            phase := On2;
            stateTime := rtc.timeMillisec;
            pin := true;
          }
        case On2 =>
          if rtc.timeMillisec > AddU64(stateTime, ON_DURATION) {
            phase := Pause2;
            stateTime := rtc.timeMillisec;
            pin := false;
          }
        case Pause2 =>
          if rtc.timeMillisec > AddU64(stateTime, PAUSE2_DURATION) {
            number := Wrap8(number + 1);
            if number >= maxNumber {
              var _ := Finish();
            } else {
              phase := On1;
              stateTime := rtc.timeMillisec;
              pin := true;
            }
          }
      }
    }

    method Finish() returns (wasRunning: bool)
      modifies this
      ensures (wasRunning, Model()) == PiezoFinish(old(Model())) && Valid()
    {
      wasRunning := phase != Off;
      phase := Off;
      number := 0;
      pin := false;
    }
  }
}
