/*
 * The general classes of the AvrPlusPlus library that the clock relies on:
 * the two-source real-time clock, the periodical event trigger and the
 * word transfer of an SPI device.
 *
 * The interrupt handlers are ordinary methods here; each class is specified
 * by a pure transition function over a state record, and the lemmas state
 * what the firmware promises about those functions.
 */
module AvrPlusPlus {
  import opened FixedWidth

  // ---------------------------------------------------------------------
  // RealTimeClock
  // ---------------------------------------------------------------------

  /** `syncMs1`, `syncMs2` are `unsigned int`, `errorMs` is `int` (16 bits each). */
  datatype ClockState = ClockState(syncMs1: uint16, syncMs2: uint16, errorMs: int16,
                                   timeMillisec: uint64, timeSec: uint32)

  const INITIAL_CLOCK := ClockState(0, 0, 0, 0, 0)

  /**
   * The millisecond counter never runs ahead of the second counter by a full
   * second, and never falls behind it.
   */
  predicate Synchronised(c: ClockState) {
    && c.syncMs1 <= 999
    && c.timeSec * 1000 <= c.timeMillisec <= c.timeSec * 1000 + c.syncMs1
  }

  /** Millisecond interrupt: the display clock advances only while the second has not run out. */
  function CompareMatch(c: ClockState): ClockState {
    var c1 := if c.syncMs1 < 999
      then c.(timeMillisec := Wrap64(c.timeMillisec + 1), syncMs1 := Wrap16(c.syncMs1 + 1))
      else c;
    c1.(syncMs2 := Wrap16(c1.syncMs2 + 1))
  }

  /** Second interrupt from the watch crystal: resynchronises both counters. */
  function Overflow(c: ClockState): ClockState {
    var s2 := Wrap16(c.syncMs2 + 1);
    var sec := Wrap32(c.timeSec + 1);
    ClockState(0, 0, Signed16(s2 - 1000), sec * 1000, sec)
  }

  function ClockSetTime(c: ClockState, sec: uint32): ClockState {
    c.(timeSec := sec, timeMillisec := sec * 1000)
  }

  /** `n` millisecond interrupts in a row. */
  function CompareMatches(c: ClockState, n: nat): ClockState
    decreases n
  {
    if n == 0 then c else CompareMatches(CompareMatch(c), n - 1)
  }

  lemma InitialSynchronised()
    ensures Synchronised(INITIAL_CLOCK)
  {}

  /** The millisecond tick keeps the clock synchronised and `syncMs1 <= 999`. */
  lemma CompareMatchKeepsSync(c: ClockState)
    requires Synchronised(c)
    ensures Synchronised(CompareMatch(c))
    ensures CompareMatch(c).syncMs2 == Wrap16(c.syncMs2 + 1) && CompareMatch(c).timeSec == c.timeSec
    ensures c.syncMs1 < 999 ==> CompareMatch(c).timeMillisec == c.timeMillisec + 1
                                && CompareMatch(c).syncMs1 == c.syncMs1 + 1
    ensures c.syncMs1 == 999 ==> CompareMatch(c).timeMillisec == c.timeMillisec
                                 && CompareMatch(c).syncMs1 == c.syncMs1
  {}

  /** The second tick keeps the clock synchronised and records the crystal drift in `errorMs`. */
  lemma OverflowKeepsSync(c: ClockState)
    requires Synchronised(c)
    ensures var d := Overflow(c);
      && Synchronised(d) && d.syncMs1 == 0 && d.syncMs2 == 0
      && d.timeSec == Wrap32(c.timeSec + 1) && d.timeMillisec == d.timeSec * 1000
      && (c.syncMs2 < 0x7FFF + 999 ==> d.errorMs == c.syncMs2 + 1 - 1000)
  {}

  /** `setTime` moves both counters and leaves the synchronisation counters and error alone. */
  lemma SetTimeKeepsSync(c: ClockState, sec: uint32)
    requires Synchronised(c)
    ensures var d := ClockSetTime(c, sec);
      && Synchronised(d) && d.timeSec == sec && d.timeMillisec == sec * 1000
      && d.syncMs1 == c.syncMs1 && d.syncMs2 == c.syncMs2 && d.errorMs == c.errorMs
  {}

  /**
   * Without a second tick, any number of millisecond ticks advance the
   * millisecond counter by at most `999 - syncMs1`: it cannot run into the
   * next second.
   */
  lemma {:induction false} FastTicksBounded(c: ClockState, n: nat)
    requires Synchronised(c)
    ensures var d := CompareMatches(c, n);
      && Synchronised(d) && d.timeSec == c.timeSec
      && c.timeMillisec <= d.timeMillisec <= c.timeMillisec + (999 - c.syncMs1)
      && d.timeMillisec - c.timeMillisec == d.syncMs1 - c.syncMs1
    decreases n
  {
    if n > 0 {
      CompareMatchKeepsSync(c);
      FastTicksBounded(CompareMatch(c), n - 1);
    }
  }

  class RealTimeClock {
    var syncMs1: uint16
    var syncMs2: uint16
    var errorMs: int16
    var timeMillisec: uint64
    var timeSec: uint32

    function Model(): ClockState
      reads this
    {
      ClockState(syncMs1, syncMs2, errorMs, timeMillisec, timeSec)
    }

    predicate Valid()
      reads this
    {
      Synchronised(Model())
    }

    constructor ()
      ensures Model() == INITIAL_CLOCK && Valid()
    {
      syncMs1, syncMs2, errorMs, timeMillisec, timeSec := 0, 0, 0, 0, 0;
    }

    method OnInterruptCompareMatch()
      requires Valid()
      modifies this
      ensures Model() == CompareMatch(old(Model())) && Valid()
    {
      if syncMs1 < 999 {
        timeMillisec := Wrap64(timeMillisec + 1);
        syncMs1 := syncMs1 + 1;
      }
      syncMs2 := Wrap16(syncMs2 + 1);
      CompareMatchKeepsSync(old(Model()));
    }

    method OnInterruptOverflow()
      requires Valid()
      modifies this
      ensures Model() == Overflow(old(Model())) && Valid()
    {
      syncMs2 := Wrap16(syncMs2 + 1);
      errorMs := Signed16(syncMs2 - 1000);
      timeSec := Wrap32(timeSec + 1);
      timeMillisec := timeSec * 1000;
      syncMs1, syncMs2 := 0, 0;
    }

    method SetTime(sec: uint32)
      requires Valid()
      modifies this
      ensures Model() == ClockSetTime(old(Model()), sec) && Valid()
    {
      timeSec := sec;
      timeMillisec := sec * 1000;
    }
  }

  // ---------------------------------------------------------------------
  // PeriodicalEvent
  // ---------------------------------------------------------------------

  /** `lastEventTime`, `delay` are `time_ms`; `maxOccurrence`, `occurred` are `long`. */
  datatype EventState = EventState(lastEventTime: uint64, delay: uint64,
                                   maxOccurrence: int32, occurred: int32)

  /** A bounded event (positive maximum) counts its firings; -1 means unbounded. */
  predicate Bounded(e: EventState) {
    e.maxOccurrence > 0
  }

  predicate Exhausted(e: EventState) {
    Bounded(e) && e.occurred >= e.maxOccurrence
  }

  /** The firing count is never negative and never passes a positive maximum. */
  predicate EventValid(e: EventState) {
    0 <= e.occurred && (Bounded(e) ==> e.occurred <= e.maxOccurrence)
  }

  function NewEvent(delay: uint64, maxOccurrence: int32): EventState {
    EventState(0, delay, maxOccurrence, 0)
  }

  function ResetEvent(e: EventState, now: uint64): EventState {
    e.(lastEventTime := now, occurred := 0)
  }

  /** `isOccured`: (whether the delay has elapsed, the new state). */
  function Occur(e: EventState, now: uint64): (r: (bool, EventState))
    requires EventValid(e)
    ensures EventValid(r.1) && r.1.delay == e.delay && r.1.maxOccurrence == e.maxOccurrence
  {
    if Exhausted(e) then (false, e)
    else if now >= AddU64(e.lastEventTime, e.delay) then
      (true, e.(lastEventTime := now, occurred := if Bounded(e) then e.occurred + 1 else e.occurred))
    else (false, e)
  }

  lemma NewEventValid(delay: uint64, maxOccurrence: int32)
    ensures EventValid(NewEvent(delay, maxOccurrence)) && !Exhausted(NewEvent(delay, maxOccurrence))
  {}

  /** An exhausted bounded event never fires and never changes. */
  lemma OccurExhausted(e: EventState, now: uint64)
    requires EventValid(e) && Exhausted(e)
    ensures Occur(e, now) == (false, e)
  {}

  /**
   * Otherwise it fires exactly when `now >= lastEventTime + delay`; a firing
   * restarts the window at `now` and counts only on a bounded event, and
   * a miss changes nothing.
   */
  lemma OccurFires(e: EventState, now: uint64)
    requires EventValid(e) && !Exhausted(e)
    ensures Occur(e, now).0 <==> now >= AddU64(e.lastEventTime, e.delay)
    ensures Occur(e, now).0 ==>
      Occur(e, now).1 == e.(lastEventTime := now, occurred := if Bounded(e) then e.occurred + 1 else e.occurred)
    ensures !Occur(e, now).0 ==> Occur(e, now).1 == e
    ensures EventValid(Occur(e, now).1)
  {}

  /** An unbounded event never changes its count. */
  lemma UnboundedNeverCounts(e: EventState, now: uint64)
    requires EventValid(e) && !Bounded(e)
    ensures Occur(e, now).1.occurred == e.occurred
  {}

  /** `resetTime` re-arms even an exhausted event, with a fresh window starting at `now`. */
  lemma ResetRearms(e: EventState, now: uint64, later: uint64)
    requires EventValid(e) && now + e.delay < 0x1_0000_0000_0000_0000
    ensures EventValid(ResetEvent(e, now)) && !Exhausted(ResetEvent(e, now))
    ensures Occur(ResetEvent(e, now), later).0 <==> later >= now + e.delay
  {}

  /** After a firing at t, no second firing happens before t + delay. */
  lemma OnePerWindow(e: EventState, t1: uint64, t2: uint64)
    requires EventValid(e) && Occur(e, t1).0
    requires t1 <= t2 < t1 + e.delay < 0x1_0000_0000_0000_0000
    ensures !Occur(Occur(e, t1).1, t2).0
  {}

  /** Number of firings over successive readings of the clock. */
  function Firings(e: EventState, nows: seq<uint64>): nat
    requires EventValid(e)
    decreases |nows|
  {
    if |nows| == 0 then 0
    else
      var (fired, e1) := Occur(e, nows[0]);
      (if fired then 1 else 0) + Firings(e1, nows[1..])
  }

  /** A bounded event fires at most `maxOccurrence - occurred` more times, whatever the clock does. */
  lemma {:induction false} BoundedFirings(e: EventState, nows: seq<uint64>)
    requires EventValid(e) && Bounded(e)
    ensures Firings(e, nows) <= e.maxOccurrence - e.occurred
    decreases |nows|
  {
    if |nows| > 0 {
      if Exhausted(e) {
        OccurExhausted(e, nows[0]);
      } else {
        OccurFires(e, nows[0]);
      }
      BoundedFirings(Occur(e, nows[0]).1, nows[1..]);
    }
  }

  class PeriodicalEvent {
    const rtc: RealTimeClock
    var lastEventTime: uint64
    const delay: uint64
    const maxOccurrence: int32
    var occurred: int32

    function Model(): EventState
      reads this
    {
      EventState(lastEventTime, delay, maxOccurrence, occurred)
    }

    predicate Valid()
      reads this
    {
      EventValid(Model())
    }

    constructor (rtc: RealTimeClock, delay: uint64, maxOccurrence: int32)
      ensures this.rtc == rtc && Model() == NewEvent(delay, maxOccurrence) && Valid()
    {
      this.rtc := rtc;
      this.lastEventTime := 0;
      this.delay := delay;
      this.maxOccurrence := maxOccurrence;
      this.occurred := 0;
    }

    method ResetTime()
      modifies this
      ensures Model() == ResetEvent(old(Model()), rtc.timeMillisec) && Valid()
    {
      lastEventTime := rtc.timeMillisec;
      occurred := 0;
    }

    method IsOccured() returns (fired: bool)
      requires Valid()
      modifies this
      ensures (fired, Model()) == Occur(old(Model()), rtc.timeMillisec) && Valid()
    {
      if maxOccurrence > 0 && occurred >= maxOccurrence {
        return false;
      }
      if rtc.timeMillisec >= AddU64(lastEventTime, delay) {
        lastEventTime := rtc.timeMillisec;
        if maxOccurrence > 0 {
          occurred := occurred + 1;
        }
        return true;
      }
      return false;
    }
  }

  // ---------------------------------------------------------------------
  // SpiDevice
  // ---------------------------------------------------------------------

  /** What an SPI device puts on the bus: chip select going low or high, and bytes. */
  datatype SpiEvent = Select | Byte(b: uint8) | Deselect

  /** `putInt`: the 16-bit `int` goes out as its high byte, then its low byte. */
  function IntBytes(x: int): (r: seq<uint8>)
    ensures |r| == 2 && r[0] as int * 256 + r[1] == Wrap16(x)
  {
    [Wrap16(x) / 256, Wrap16(x) % 256]
  }

  /** Reading the two bytes back as a 16-bit word gives the 16-bit value that was sent. */
  lemma IntBytesRoundTrip(x: int16)
    ensures Signed16(IntBytes(x)[0] as int * 256 + IntBytes(x)[1]) == x
  {}

  function Bytes(s: seq<uint8>): (r: seq<SpiEvent>)
    ensures |r| == |s| && forall i :: 0 <= i < |s| ==> r[i] == Byte(s[i])
  {
    if |s| == 0 then [] else [Byte(s[0])] + Bytes(s[1..])
  }

  lemma {:induction false} BytesAppend(s: seq<uint8>, t: seq<uint8>)
    ensures Bytes(s + t) == Bytes(s) + Bytes(t)
  {
    if |s| > 0 {
      assert (s + t)[1..] == s[1..] + t;
      BytesAppend(s[1..], t);
    } else {
      assert s + t == t;
    }
  }

  /**
   * What the device answers to the n-th `readChar`: the bytes of `miso`
   * in order, and 0xFF (the idle level of the data line) once they are used up.
   */
  function MisoByte(miso: seq<uint8>, n: nat): uint8 {
    if n < |miso| then miso[n] else 0xFF
  }

  /**
   * The bus of one SPI device: the sequence of what it has driven so far,
   * the bytes the device answers and how many of them have been read.
   */
  class SpiDevice {
    var trace: seq<SpiEvent>
    const miso: seq<uint8>
    var received: nat

    /** A device that answers nothing but the idle level. */
    constructor ()
      ensures trace == [] && miso == [] && received == 0
    {
      trace := [];
      miso := [];
      received := 0;
    }

    /** A device that answers the bytes of `miso`. */
    constructor Answering(miso: seq<uint8>)
      ensures trace == [] && this.miso == miso && received == 0
    {
      trace := [];
      this.miso := miso;
      received := 0;
    }

    method StartTransfer()
      modifies this
      ensures trace == old(trace) + [Select] && received == old(received)
    {
      trace := trace + [Select];
    }

    method FinishTransfer()
      modifies this
      ensures trace == old(trace) + [Deselect] && received == old(received)
    {
      trace := trace + [Deselect];
    }

    method PutChar(b: uint8)
      modifies this
      ensures trace == old(trace) + [Byte(b)] && received == old(received)
    {
      trace := trace + [Byte(b)];
    }

    method PutInt(x: int)
      modifies this
      ensures trace == old(trace) + Bytes(IntBytes(x)) && received == old(received)
    {
      var bytes := IntBytes(x);
      PutChar(bytes[0]);
      PutChar(bytes[1]);
      assert Bytes(bytes) == [Byte(bytes[0]), Byte(bytes[1])];
    }

    /** `readChar`: the next byte of the answer. */
    method ReadChar() returns (b: uint8)
      modifies this
      ensures b == MisoByte(miso, old(received)) && received == old(received) + 1
      ensures trace == old(trace)
    {
      b := MisoByte(miso, received);
      received := received + 1;
    }
  }
}
