# avrDigitalClock in Dafny

A model of the firmware of an ATmega-based digital clock. The clock keeps time with a crystal-driven
real-time clock and corrects it from the DCF77 long-wave time signal. It shows the time on a
seven-segment display and a two-line LCD, and it rings up to three weekly alarms on a piezo
buzzer. It is set up with four buttons: mode, active element, plus and minus. The firmware is
C++ for avr-gcc, so `int` and `unsigned int` are 16 bits, `long` is 32 bits and `char` is 8 bits.
The model writes these widths out (module `FixedWidth`), with the wrap-around of an unsigned
conversion and the truncating division of C where the firmware relies on them.

One Dafny module models each core source file:

- `Calendar` (`Time.cpp`): `is_leap_year`, `gmtime` and `mktime` over the firmware's 2000-based
  `uint32` epoch, and the write-back of `mktime` into the caller's `tm` record.
- `AvrPlusPlus` (`AvrPlusPlus.cpp`):
  - the real-time clock, with its two tick handlers and `setTime`;
  - the periodical event, a delay trigger that may be bounded to a number of firings;
  - the SPI device's byte order for `putInt`.
- `Dcf77` (`Dcf77.cpp`): the edge-duration classifier that fills the 60-slot bit frame; the frame
  decoder, with its BCD weights and its three parity checks; an encoder that inverts the decoder.
- `Screens` (`Screens.cpp`): the cyclic increment, and the editing rules of the time, brightness
  and alarm screens, including the alarm match.
- `DigitalClock` (`DigitalClock.cpp`):
  - the DCF77 confirmation record;
  - screen cycling and the brightness mapping;
  - the dispatch of an edit to the active screen;
  - the priority order of one pass of `periodic`.
- `Button`, `PiezoAlarm`, `Led`: debounce and long-press acceleration; the beep sequencer; an LED
  on a pin wired as anode or cathode.
- `Ssd`, `DacMcp4901`, `Sdhc`:
  - the seven-segment glyphs and the shift-register send order;
  - the MCP4901 command word;
  - the SD card's CRC7 and CRC16, the SPI command frame, and the card-status guards of block
    reads and writes.

## How the model is built

- **Devices are classes.** Every device whose fields the firmware updates is a Dafny `class` with
  those fields. Its pure state is read back as a datatype value (`Model()`).
- **Transitions are functions.** Every handler is a method whose `ensures` ties the new state to
  a transition function of the old state (`Model() == Occur(old(Model()), now).1`). The properties
  the firmware relies on are lemmas about those functions.
- **Hardware reads are parameters.** The millisecond count, a pin level, the comparator level, the
  ADC reading and the bytes the SD card answers on MISO are passed in.
- **Outputs are recorded.** Pin levels are state fields. Bytes sent on SPI and bits shifted into a
  shift register are appended to an event sequence.
- **The application talks to a call log.** `DigitalClock` reaches its peripherals through a
  `Devices` object that records every call in order (`Call`). The answers devices give during a
  pass of `periodic` are a `Readings` value.
  - A pass is specified by functions from a `Snapshot` of the application state to a `Step`: the
    new snapshot and the calls made.
  - The lemmas about `PeriodicStep` state the branch order and the early returns as facts about
    that call log.
- **DCF77 callbacks.** The decoder's callbacks `onBitReceived`, `onBitFailed` and `onTimeReceived`
  are returned as events. `DigitalClock.DigitalClock.Dispatch` runs the application's handlers for
  them, in order.
- **Time comes from the real-time clock.** `Dcf77.Dcf77` reads the current time from the
  `RealTimeClock` it is given, whose `timeMillisec` stands for `millis()`. The comparator level is
  a parameter of `OnInterrupt`.

## Model

| member | source | states |
|---|---|---|
| AvrPlusPlus.InitialSynchronised | src/AvrPlusPlus/AvrPlusPlus.cpp:167-171 | the all-zero clock the constructor builds is synchronised |
| AvrPlusPlus.CompareMatchKeepsSync | src/AvrPlusPlus/AvrPlusPlus.cpp:241-249 | the millisecond interrupt keeps the clock synchronised; it advances `timeMillisec` and `syncMs1` by one while `syncMs1 < 999` and leaves both alone at 999; `syncMs2` always counts up (16-bit) and `timeSec` is untouched |
| AvrPlusPlus.OverflowKeepsSync | src/AvrPlusPlus/AvrPlusPlus.cpp:251-258 | the crystal's second interrupt resynchronises: both sync counters become 0, `timeSec` counts up (32-bit), `timeMillisec` is `timeSec * 1000`, and `errorMs` is the number of millisecond ticks in the second minus 1000 |
| AvrPlusPlus.SetTimeKeepsSync | src/AvrPlusPlus/AvrPlusPlus.cpp:260-266 | `setTime` sets the second and millisecond counters consistently and leaves the sync counters and the error alone |
| AvrPlusPlus.FastTicksBounded | src/AvrPlusPlus/AvrPlusPlus.cpp:241-249 | any run of millisecond ticks without a second tick advances `timeMillisec` by at most `999 - syncMs1`, equal to the growth of `syncMs1`, so the millisecond clock never runs into the next second |
| AvrPlusPlus.RealTimeClock.constructor | src/AvrPlusPlus/AvrPlusPlus.cpp:167-171 | all five counters are 0 |
| AvrPlusPlus.RealTimeClock.OnInterruptCompareMatch | src/AvrPlusPlus/AvrPlusPlus.cpp:241-249 | the new state is the millisecond transition of the old one, and the clock stays synchronised |
| AvrPlusPlus.RealTimeClock.OnInterruptOverflow | src/AvrPlusPlus/AvrPlusPlus.cpp:251-258 | the new state is the second transition of the old one, and the clock stays synchronised |
| AvrPlusPlus.RealTimeClock.SetTime | src/AvrPlusPlus/AvrPlusPlus.cpp:260-266 | the new state is the old one with both time counters set from `sec` |
| AvrPlusPlus.Occur | src/AvrPlusPlus/AvrPlusPlus.cpp:373-389 | `isOccured` keeps the firing count in range and never changes the delay or the maximum |
| AvrPlusPlus.NewEventValid | src/AvrPlusPlus/AvrPlusPlus.cpp:361-365 | a new event has no firings and is not exhausted |
| AvrPlusPlus.OccurExhausted | src/AvrPlusPlus/AvrPlusPlus.cpp:375-378 | a bounded event that has fired `maxOccurrence` times answers false and changes nothing |
| AvrPlusPlus.OccurFires | src/AvrPlusPlus/AvrPlusPlus.cpp:379-388 | otherwise it fires exactly when `now >= lastEventTime + delay` (64-bit sum); a firing moves the window start to `now` and counts only on a bounded event; a miss changes nothing |
| AvrPlusPlus.UnboundedNeverCounts | src/AvrPlusPlus/AvrPlusPlus.cpp:382-385 | an event with no positive maximum never changes its count |
| AvrPlusPlus.ResetRearms | src/AvrPlusPlus/AvrPlusPlus.cpp:367-371 | `resetTime` re-arms even an exhausted event, which then fires first at `now + delay` |
| AvrPlusPlus.OnePerWindow | src/AvrPlusPlus/AvrPlusPlus.cpp:379-388 | after a firing at t1, no reading before `t1 + delay` fires again |
| AvrPlusPlus.BoundedFirings | src/AvrPlusPlus/AvrPlusPlus.cpp:373-389 | over any sequence of clock readings a bounded event fires at most `maxOccurrence - occurred` more times |
| AvrPlusPlus.PeriodicalEvent.constructor | src/AvrPlusPlus/AvrPlusPlus.cpp:361-365 | the event starts with window start 0 and count 0 and the given delay and maximum |
| AvrPlusPlus.PeriodicalEvent.ResetTime | src/AvrPlusPlus/AvrPlusPlus.cpp:367-371 | the window restarts at the clock's `timeMillisec` and the count is 0 |
| AvrPlusPlus.PeriodicalEvent.IsOccured | src/AvrPlusPlus/AvrPlusPlus.cpp:373-389 | the answer and the new state are those of the `isOccured` transition at the clock's `timeMillisec` |
| AvrPlusPlus.IntBytes | src/AvrPlusPlus/AvrPlusPlus.cpp:288-292 | the two bytes of `putInt`, high byte first, spell the 16-bit value |
| AvrPlusPlus.IntBytesRoundTrip | src/AvrPlusPlus/AvrPlusPlus.cpp:288-292 | reading the two bytes back as a signed 16-bit word gives the value sent |
| AvrPlusPlus.BytesAppend | src/AvrPlusPlus/AvrPlusPlus.cpp:280-286 | the bus events of two byte strings sent in turn are those of their concatenation |
| AvrPlusPlus.SpiDevice.StartTransfer | src/AvrPlusPlus/AvrPlusPlus.h:370-373 | chip select goes low: one `Select` is appended to the bus trace |
| AvrPlusPlus.SpiDevice.FinishTransfer | src/AvrPlusPlus/AvrPlusPlus.h:393-396 | chip select goes high: one `Deselect` is appended |
| AvrPlusPlus.SpiDevice.PutChar | src/AvrPlusPlus/AvrPlusPlus.cpp:280-286 | exactly one byte is appended to the bus trace |
| AvrPlusPlus.SpiDevice.PutInt | src/AvrPlusPlus/AvrPlusPlus.cpp:288-292 | the high byte and then the low byte of the 16-bit value are appended |
| AvrPlusPlus.SpiDevice.constructor | src/AvrPlusPlus/AvrPlusPlus.cpp:271-278 | a new device has driven nothing, answers only the idle level and has read nothing |
| AvrPlusPlus.SpiDevice.Answering | src/AvrPlusPlus/AvrPlusPlus.cpp:271-278 | a new device has driven nothing, answers the given bytes and has read none of them |
| AvrPlusPlus.SpiDevice.ReadChar | src/AvrPlusPlus/Devices/Sdhc.cpp:250 | the byte read is the next byte of the answer (0xFF once it is used up), one more byte counts as read, and nothing is driven |
| AvrPlusPlus.CompareMatch | src/AvrPlusPlus/AvrPlusPlus.cpp:241-249 | the millisecond transition, specified by CompareMatchKeepsSync and FastTicksBounded |
| AvrPlusPlus.Overflow | src/AvrPlusPlus/AvrPlusPlus.cpp:251-258 | the second transition, specified by OverflowKeepsSync |
| AvrPlusPlus.ClockSetTime | src/AvrPlusPlus/AvrPlusPlus.cpp:260-266 | the `setTime` transition, specified by SetTimeKeepsSync |
| Button.ReleaseClears | src/AvrPlusPlus/Devices/Button.cpp:43-49 | a released button answers false, stops timing and forgets its processed presses, and then reports no long press |
| Button.PressedWhenHeldLongEnough | src/AvrPlusPlus/Devices/Button.cpp:54-58 | while held and not yet processed, the first contact starts the timing, and a press is reported exactly when the hold has lasted `pressDelay` |
| Button.OnePressPerHold | src/AvrPlusPlus/Devices/Button.cpp:50-53 | once a press has been processed it is not reported again during the same hold |
| Button.LongPressedHold | src/AvrPlusPlus/Devices/Button.cpp:61-72 | a long press is a hold that started (not `INFINITY_TIME`), lasts more than 0 ms and at least `longPressDelay`, or `longPressDelay / 6` after two processed presses |
| Button.LongPressedMonotone | src/AvrPlusPlus/Devices/Button.cpp:61-72 | a long press stays reported as time goes on, and a second processed press only shortens the wait |
| Button.AutoRepeat | src/AvrPlusPlus/Devices/Button.cpp:36-39 | after one processed press, processing again and `resetTime` at t make the next long press due `longPressDelay / 6` ms after t |
| Button.Button.constructor | src/AvrPlusPlus/Devices/Button.cpp:25-34 | a new button has no press being timed and no processed presses |
| Button.Button.ResetTime | src/AvrPlusPlus/Devices/Button.cpp:36-39 | the hold timing restarts at the clock's `timeMillisec` |
| Button.Button.IsPressed | src/AvrPlusPlus/Devices/Button.cpp:41-59 | the answer and the new state are those of the `isPressed` transition for the clock reading and pin level |
| Button.Button.SetProcessed | src/AvrPlusPlus/Devices/Button.h:48-51 | the processed-press count goes up by one (32-bit `long`) |
| Button.Pressed | src/AvrPlusPlus/Devices/Button.cpp:41-59 | the `isPressed` transition, specified by ReleaseClears, PressedWhenHeldLongEnough and OnePressPerHold |
| Button.LongPressed | src/AvrPlusPlus/Devices/Button.cpp:61-72 | the `isLongPressed` answer, specified by LongPressedHold, LongPressedMonotone and AutoRepeat |
| Button.Processed | src/AvrPlusPlus/Devices/Button.h:48-51 | `setProcessed`, specified by OnePressPerHold and AutoRepeat |
| Button.Button.IsLongPressed | src/AvrPlusPlus/Devices/Button.cpp:61-72 | the answer is LongPressed of the state at the clock's `timeMillisec`, so LongPressedHold and LongPressedMonotone apply to it |
| Led.TurnOnOff | src/AvrPlusPlus/Devices/Led.cpp:40-53 | for either wiring, `turnOn` drives the level that `isTurned` reads as lit and `turnOff` the one it reads as dark; an anode LED is lit by a high pin |
| Led.ToggleFlips | src/AvrPlusPlus/Devices/Led.cpp:55-65 | a toggle inverts the port bit and what the LED shows; two toggles restore the bit |
| Led.PulseLevels | src/AvrPlusPlus/Devices/Led.cpp:67-85 | `pulse(count)` drives exactly `2 * count` levels, alternately lit and dark, starting lit |
| Led.Led.constructor | src/AvrPlusPlus/Devices/Led.cpp:30-38 | the LED is lit when asked for, and otherwise the pin keeps its level |
| Led.Led.TurnOn | src/AvrPlusPlus/Devices/Led.cpp:40-43 | the pin gets the lighting level and the LED is lit |
| Led.Led.TurnOff | src/AvrPlusPlus/Devices/Led.cpp:45-48 | the pin gets the dark level and the LED is dark |
| Led.Led.Toggle | src/AvrPlusPlus/Devices/Led.cpp:55-65 | the port bit is the toggled one and the LED shows the opposite of before |
| Led.Led.Pulse | src/AvrPlusPlus/Devices/Led.cpp:67-85 | the loop drives the levels of `PulseLevels`; after at least one flash the LED is dark, after none the pin is unchanged |
| Led.Led.IsTurned | src/AvrPlusPlus/Devices/Led.cpp:50-53 | what the pin level means for the wiring; TurnOnOff states it, and the TurnOn, TurnOff, Toggle and Pulse contracts are written with it |
| PiezoAlarm.PiezoStart | src/AvrPlusPlus/Devices/PiezoAlarm.cpp:42-58 | `start` keeps the alarm's invariant: the pin is high exactly in a sounding phase, an idle alarm counts no repetitions, the count stays below the number asked for |
| PiezoAlarm.PiezoFinish | src/AvrPlusPlus/Devices/PiezoAlarm.cpp:107-114 | `finish` always leaves the alarm idle, silent and valid |
| PiezoAlarm.PiezoPeriodic | src/AvrPlusPlus/Devices/PiezoAlarm.cpp:60-105 | `periodic` keeps the alarm's invariant |
| PiezoAlarm.NumberBounded | src/AvrPlusPlus/Devices/PiezoAlarm.cpp:89-95 | the repetition count stays below `maxNumber` (or 1) |
| PiezoAlarm.StartRefused | src/AvrPlusPlus/Devices/PiezoAlarm.cpp:44-51 | `start` during an alarm, or within 60000 ms of the last start, changes nothing |
| PiezoAlarm.StartAccepted | src/AvrPlusPlus/Devices/PiezoAlarm.cpp:52-57 | otherwise the first beep starts now, with the pin high, no repetitions counted and the new number of repetitions |
| PiezoAlarm.ResetLiftsLockout | src/AvrPlusPlus/Devices/PiezoAlarm.cpp:37-40 | after `resetTime` an idle alarm always starts |
| PiezoAlarm.PeriodicAdvances | src/AvrPlusPlus/Devices/PiezoAlarm.cpp:60-105 | a phase is left only once its duration (75, 100, 75 or 300 ms) has strictly passed, for the next phase at `now`; leaving the long pause counts a repetition, and reaching `maxNumber` finishes the alarm |
| PiezoAlarm.FinishTwice | src/AvrPlusPlus/Devices/PiezoAlarm.cpp:107-114 | `finish` reports whether an alarm was running; a second call reports false and changes nothing |
| PiezoAlarm.PiezoAlarm.constructor | src/AvrPlusPlus/Devices/PiezoAlarm.cpp:26-35 | idle, no start recorded, pin low |
| PiezoAlarm.PiezoAlarm.ResetTime | src/AvrPlusPlus/Devices/PiezoAlarm.cpp:37-40 | the new state is the old one with no start recorded |
| PiezoAlarm.PiezoAlarm.Start | src/AvrPlusPlus/Devices/PiezoAlarm.cpp:42-58 | the new state is the `start` transition at the clock's `timeMillisec` |
| PiezoAlarm.PiezoAlarm.Periodic | src/AvrPlusPlus/Devices/PiezoAlarm.cpp:60-105 | the new state is the `periodic` transition at the clock's `timeMillisec` |
| PiezoAlarm.PiezoAlarm.Finish | src/AvrPlusPlus/Devices/PiezoAlarm.cpp:107-114 | the answer and the new state are those of the `finish` transition |
| DacMcp4901.PacketShutdown | src/AvrPlusPlus/Devices/Dac_MCP4901.cpp:37-40 | 0 % sends the all-zero word (shutdown) whatever the gain |
| DacMcp4901.PacketFields | src/AvrPlusPlus/Devices/Dac_MCP4901.cpp:41-47 | for 1 to 100 % the voltage code is `255 * percent / 100` without truncation and sits in bits 11..4; bit 12 (active) is set, bit 13 is the inverted gain flag, bits 15, 14 and 3..0 are clear |
| DacMcp4901.VoltDigitsMonotone | src/AvrPlusPlus/Devices/Dac_MCP4901.cpp:43 | 100 % gives full scale 255, and a larger percentage never gives a smaller code |
| DacMcp4901.VoltDigitsBeyondFullScale | src/AvrPlusPlus/Devices/Dac_MCP4901.cpp:43 | above 100 % the `unsigned char` code wraps: 101 % gives 1 and 128 % gives 70 |
| DacMcp4901.PacketBytes | src/AvrPlusPlus/Devices/Dac_MCP4901.cpp:44-49 | the two bytes on the bus: active flag, inverted gain and upper code nibble, then the lower code nibble shifted up |
| DacMcp4901.Dac.constructor | src/AvrPlusPlus/Devices/Dac_MCP4901.cpp:27-32 | the gain flag starts false and nothing has been sent |
| DacMcp4901.Dac.SetOutputGain | src/AvrPlusPlus/Devices/Dac_MCP4901.h:33 | the gain flag takes the given value |
| DacMcp4901.Dac.PutValue | src/AvrPlusPlus/Devices/Dac_MCP4901.cpp:34-51 | one transfer: select, the command word high byte first, deselect |
| DacMcp4901.Packet | src/AvrPlusPlus/Devices/Dac_MCP4901.cpp:36-47 | the 16-bit command word, specified by PacketShutdown, PacketFields and PacketBytes |
| Ssd.DefaultDigitCodes | src/AvrPlusPlus/Devices/Ssd.cpp:31-41 | with the default wiring (segments a to g on bits 0 to 6, dot on bit 7) each digit, as a value or as a character, has its conventional seven-segment code |
| Ssd.CodesAndCharactersAgree | src/AvrPlusPlus/Devices/Ssd.cpp:54-97 | the value d and the character `'0' + d` light the same segments, for any wiring |
| Ssd.OtherCharacters | src/AvrPlusPlus/Devices/Ssd.cpp:48-53 | '.' lights the dot alone, '-' the centre alone, any other non-digit nothing |
| Ssd.DotOnlyAdds | src/AvrPlusPlus/Devices/Ssd.cpp:101-104 | the dot flag sets the dot bit when its bit number lies within the `char` mask, and clears no other |
| Ssd.Glyphs | src/AvrPlusPlus/Devices/Ssd.cpp:137-140 | entry i of the filled buffer is the glyph of character i without the dot |
| Ssd.SendOrder | src/AvrPlusPlus/Devices/Ssd.cpp:173-176 | the buffer goes out highest index first |
| Ssd.ByteShifts | src/AvrPlusPlus/Devices/Ssd.cpp:119-129 | the three-pin `putChar` clocks out the 8 bits, bit 7 first |
| Ssd.ByteShiftsLoad | src/AvrPlusPlus/Devices/Ssd.cpp:119-129 | after those 8 clocks the shift register holds exactly the sent byte, whatever it held before |
| Ssd.Ssd74HC595ThreeBit.constructor | src/AvrPlusPlus/Devices/Ssd.cpp:111-117 | default wiring, a five-entry buffer, nothing sent |
| Ssd.Ssd74HC595ThreeBit.SetSegmentsMask | src/AvrPlusPlus/Devices/Ssd.h:60-63 | the wiring is replaced and nothing is sent |
| Ssd.Ssd74HC595ThreeBit.PutChar | src/AvrPlusPlus/Devices/Ssd.cpp:119-129 | the loop clocks out the byte's 8 bits, bit 7 first |
| Ssd.Ssd74HC595ThreeBit.PutString | src/AvrPlusPlus/Devices/Ssd.cpp:131-150 | 5 or more segments: nothing changes; otherwise the first `segNumbers` entries become the glyphs, the rest are kept, and the register latch goes low, the entries go out highest first, and the latch goes high |
| Ssd.Ssd74HC595ThreeBit.SendBuffer | src/AvrPlusPlus/Devices/Ssd.cpp:144-147 | the entries go out from n - 1 down to 0, each through `putChar` |
| Ssd.FillGlyphs | src/AvrPlusPlus/Devices/Ssd.cpp:137-140 | the first n entries become the glyphs and the rest of the buffer is untouched |
| Ssd.Ssd74HC595Spi.constructor | src/AvrPlusPlus/Devices/Ssd.cpp:155-160 | default wiring, a five-entry buffer, nothing sent |
| Ssd.Ssd74HC595Spi.PutString | src/AvrPlusPlus/Devices/Ssd.cpp:162-178 | as the three-pin driver, but the entries go out as one SPI transfer, highest index first |
| Ssd.Ssd74HC595Spi.SendBuffer | src/AvrPlusPlus/Devices/Ssd.cpp:173-176 | the bytes on the bus are the buffer in send order |
| Ssd.GetBits | src/AvrPlusPlus/Devices/Ssd.cpp:43-106 | `getBits`, specified by DefaultDigitCodes, CodesAndCharactersAgree, OtherCharacters and DotOnlyAdds |
| Calendar.MkTimeWriteBack | src/AvrPlusPlus/Time.cpp:165-244 | `mktime` returns the wrapped second count and writes back `gmtime` of it, so the caller's record ends up a valid date of years 2000 to 2136 with weekday and day of year filled in |
| Calendar.YearOfDayBounds | src/AvrPlusPlus/Time.cpp:82-121 | the year and day of year `gmtime` derives fit the `int16` fields, and the leap flag is 0 or 1 |
| Calendar.MonthOfDayBounds | src/AvrPlusPlus/Time.cpp:128-155 | the month and zero-based day of month fit the `int8` fields |
| Calendar.IsLeapYearGregorian | src/AvrPlusPlus/Time.cpp:28-49 | `is_leap_year` (with `year & 3` and the truncating `div`) is exactly the Gregorian rule for every 16-bit year, negative ones included |
| Calendar.LeapYearExamples | src/AvrPlusPlus/Time.cpp:28-49 | 2000 and 2104 are leap years, 2100 is not, 2400 is |
| Calendar.DaysBeforeClosedForm | src/AvrPlusPlus/Time.cpp:173-182 | for years up to 2400 the days before a year are `365 * n` plus the leap days counted without the 400-year rule |
| Calendar.MkLeapsCorrect | src/AvrPlusPlus/Time.cpp:173-181 | `mktime`'s leap count `(n-1)/4 - (n-1)/100 + 1` (16-bit `int`, truncating division) is the reference count of February 29s before year n, for n from 0 to 400 |
| Calendar.DaysBeforeMonthValues | src/AvrPlusPlus/Time.cpp:189-228 | the days before each month are 0, 31, 59 + leap, ..., 334 + leap, and a year has 365 + leap days |
| Calendar.YearOfDayCorrect | src/AvrPlusPlus/Time.cpp:82-121 | for every day a `uint32` reaches, the 100- and 4-year cycle mapping finds the year and day of year whose days before add up to the day count; its leap flag is the true one wherever the month split reads it |
| Calendar.YearOfDayFirstCentury | src/AvrPlusPlus/Time.cpp:82-121 | the cycle mapping is right for 2000 to 2099 |
| Calendar.YearOfDay2100 | src/AvrPlusPlus/Time.cpp:90-119 | the cycle mapping is right for 2100 to 2103, where 2100 has no February 29 |
| Calendar.YearOfDayLater | src/AvrPlusPlus/Time.cpp:90-119 | the cycle mapping is right from 2104 on, with the missing day of 2100 made up by `days++` |
| Calendar.MonthOfDayCorrect | src/AvrPlusPlus/Time.cpp:128-155 | the month split finds, for each day of year, the month and day of month whose days before add up to it |
| Calendar.GmTimeCorrect | src/AvrPlusPlus/Time.cpp:52-162 | for every `uint32` time, every field of `gmtime` is in range, the date names day `timer / 86400` counted from 2000-01-01, the time of day is `timer % 86400`, `tm_yday` is the zero-based day of year and `tm_isdst` is 0 |
| Calendar.GmTimeWeekday | src/AvrPlusPlus/Time.cpp:69-72 | 2000-01-01 is a Saturday and the weekday moves on by one (mod 7) each day |
| Calendar.FirstDayWeekday | src/AvrPlusPlus/Time.cpp:69-72 | every second of 2000-01-01 has weekday Saturday |
| Calendar.NextWeekday | src/AvrPlusPlus/Time.cpp:69-72 | a time one day later has the next weekday |
| Calendar.GmTimeYear2100 | src/AvrPlusPlus/Time.cpp:99-103 | `gmtime` has no February 29, 2100: day 59 of 2100 is March 1 and day 58 is February 28 |
| Calendar.MkTimeClosedForm | src/AvrPlusPlus/Time.cpp:182-240 | all the `uint32_t` wrapping steps of `mktime` compose into one reduction of the plain sum modulo 2^32 |
| Calendar.MkYearDayCorrect | src/AvrPlusPlus/Time.cpp:189-228 | for a month in range, `mktime`'s day of year is the days before the month plus `tm_mday - 1`, whatever the day of month |
| Calendar.MkTimeNormalizes | src/AvrPlusPlus/Time.cpp:165-240 | `mktime` takes day of month, hour, minute and second as offsets that may leave their ranges: the result is the start of the month plus those offsets modulo 2^32 |
| Calendar.MkTimeShiftSeconds | src/AvrPlusPlus/Time.cpp:236-240 | changing the second field by any amount moves the result by that amount modulo 2^32 |
| Calendar.MkTimeYear2100 | src/AvrPlusPlus/Time.cpp:173-201 | `mktime` puts February 28 and March 1 of 2100 one day apart |
| Calendar.MkTimeIgnoresDerivedFields | src/AvrPlusPlus/Time.cpp:165-240 | `mktime` reads neither `tm_wday`, `tm_yday` nor `tm_isdst` |
| Calendar.MkTimeOfGmTime | src/AvrPlusPlus/Time.cpp:52-244 | round trip: `mktime(gmtime(t)) == t` for every `uint32` t |
| Calendar.ValidDateYear | src/AvrPlusPlus/Time.cpp:57 | a date whose second count fits 32 bits lies in the years 2000 to 2136 |
| Calendar.GmTimeOfMkTime | src/AvrPlusPlus/Time.cpp:52-244 | round trip the other way: `gmtime(mktime(t))` gives back seconds, minutes, hours, day, month and year of every valid date |
| Calendar.JanuaryThirtyTwo | src/AvrPlusPlus/Time.cpp:189-198 | an out-of-range day of month is normalised: January 32 becomes February 1 of the same year |
| Calendar.IsLeapYear | src/AvrPlusPlus/Time.cpp:28-49 | `is_leap_year`, specified by IsLeapYearGregorian and LeapYearExamples |
| Calendar.GmTime | src/AvrPlusPlus/Time.cpp:52-162 | `gmtime`, specified by GmTimeCorrect, GmTimeWeekday, GmTimeYear2100 and the round trips MkTimeOfGmTime and GmTimeOfMkTime |
| Calendar.MkTime | src/AvrPlusPlus/Time.cpp:165-244 | `mktime`, specified by MkTimeClosedForm, MkTimeNormalizes, MkTimeShiftSeconds, MkTimeIgnoresDerivedFields, MkTimeWriteBack and the two round trips |
| Dcf77.Encode | src/AvrPlusPlus/Devices/Dcf77.cpp:137-142 | a transmitted minute frame has 60 slots: the data bits and even parity over minute, hour and the whole date (bits 36 to 57) |
| Dcf77.Data | src/AvrPlusPlus/Devices/Dcf77.cpp:137-142 | the data slots of a frame, 60 of them |
| Dcf77.EncodeData | src/AvrPlusPlus/Devices/Dcf77.cpp:137-142 | outside the three parity slots an encoded frame carries the data bits, and each parity slot is the parity of its field |
| Dcf77.MinuteHourOfData | src/AvrPlusPlus/Devices/Dcf77.cpp:152-169 | the BCD sums of the firmware read back the minute and the hour a frame carries |
| Dcf77.DayOfData | src/AvrPlusPlus/Devices/Dcf77.cpp:190 | the BCD sum reads back the day of month |
| Dcf77.MonthOfData | src/AvrPlusPlus/Devices/Dcf77.cpp:191 | the BCD sum reads back the month |
| Dcf77.YearOfData | src/AvrPlusPlus/Devices/Dcf77.cpp:192 | the BCD sum reads back the year of the century |
| Dcf77.MinuteParityOfEncode | src/AvrPlusPlus/Devices/Dcf77.cpp:147-150 | an encoded frame passes the minute parity check |
| Dcf77.HourParityOfEncode | src/AvrPlusPlus/Devices/Dcf77.cpp:164-167 | an encoded frame passes the hour parity check |
| Dcf77.DateParityOfEncode | src/AvrPlusPlus/Devices/Dcf77.cpp:181-188 | an encoded frame passes the firmware's date parity (bits 36 to 56) exactly when its year is below 80 |
| Dcf77.YearTensBit | src/AvrPlusPlus/Devices/Dcf77.cpp:192 | bit 57, worth 80, is set exactly for the years 80 to 99 |
| Dcf77.DateParityOfData | src/AvrPlusPlus/Devices/Dcf77.cpp:181-188 | with a parity bit over bits 36 to 57, the check over 36 to 56 passes exactly when bit 57 is 0 |
| Dcf77.DecodeEncode | src/AvrPlusPlus/Devices/Dcf77.cpp:134-215 | the decoder reads back every minute a transmitter encodes, except every frame whose year has bit 57 set, which the date parity rejects |
| Dcf77.FieldBounds | src/AvrPlusPlus/Devices/Dcf77.cpp:152-192 | on a frame of 0s and 1s the decoded fields are small enough for the `int8` and `int16` fields |
| Dcf77.DecodeFrameFields | src/AvrPlusPlus/Devices/Dcf77.cpp:204-214 | a valid frame sets seconds to 0, minute, hour, day, the 0-based month and year, and reports them once; an invalid one changes nothing and reports nothing |
| Dcf77.Interrupt | src/AvrPlusPlus/Devices/Dcf77.cpp:42-125 | `onInterrupt` keeps the bits 0 or 1, the cursor -1 when idle and within 0..60 while streaming, and stamps the edge time |
| Dcf77.GapStartsFrame | src/AvrPlusPlus/Devices/Dcf77.cpp:73-79 | a gap of over 1500 ms while idle starts streaming at slot 0 and reports nothing |
| Dcf77.GapEndsFrame | src/AvrPlusPlus/Devices/Dcf77.cpp:57-72 | a gap of over 1500 ms while streaming ends the frame; it is decoded exactly when the cursor is at 59, and the decoder goes idle either way |
| Dcf77.PulseStoresBit | src/AvrPlusPlus/Devices/Dcf77.cpp:81-100 | while streaming a low edge after 50-149 ms stores 0 and after 150-300 ms stores 1 at the cursor, advances it and reports the bit, while there is room; no other slot changes |
| Dcf77.BadPulseAborts | src/AvrPlusPlus/Devices/Dcf77.cpp:101-109 | while streaming any other low edge after more than 30 ms aborts the frame and reports a failed bit |
| Dcf77.QuietEdge | src/AvrPlusPlus/Devices/Dcf77.cpp:111-124 | a high comparator output, a glitch of at most 30 ms, or an edge while idle short of a gap changes only the edge time stamp |
| Dcf77.CursorBounded | src/AvrPlusPlus/Devices/Dcf77.cpp:85-98 | the cursor never passes 60, so the bit array is never overrun |
| Dcf77.Dcf77.constructor | src/AvrPlusPlus/Devices/Dcf77.cpp:27-35 | idle, no cursor, edge time at the clock's reading |
| Dcf77.Dcf77.TurnOn | src/AvrPlusPlus/Devices/Dcf77.cpp:127-132 | `turnOn` puts the decoder back to idle and changes nothing else |
| Dcf77.Dcf77.OnInterrupt | src/AvrPlusPlus/Devices/Dcf77.cpp:42-125 | the new state and the callbacks are those of the `onInterrupt` transition at the clock's reading with comparator output `val` |
| Dcf77.Dcf77.DecodeTime | src/AvrPlusPlus/Devices/Dcf77.cpp:134-215 | the validity, the new `dayTime` and the callbacks are those of decoding the bit array |
| Dcf77.Dcf77.DecodeDate | src/AvrPlusPlus/Devices/Dcf77.cpp:179-200 | the date parity over bits 36 to 56 decides validity, and a valid date has the BCD day, month and year |
| Dcf77.Dcf77.DateSum | src/AvrPlusPlus/Devices/Dcf77.cpp:182-186 | the loop sums bits 36 to 56 |
| Dcf77.Decode | src/AvrPlusPlus/Devices/Dcf77.cpp:134-200 | the three parity checks and the BCD fields, specified by DecodeEncode, FieldBounds and SampleFrameDecodes |
| Dcf77.DecodeFrame | src/AvrPlusPlus/Devices/Dcf77.cpp:134-215 | `decodeTime`'s result, new `dayTime` and callbacks, specified by DecodeFrameFields |
| Dcf77.SampleFrameDecodes | src/AvrPlusPlus/Devices/Dcf77.cpp:134-200 | the frame of minute 58, hour 22 and 25.06.15, with its three parity bits, passes every check and decodes to 22:58 on 25.06.15 |
| Dcf77.SampleMinute | src/AvrPlusPlus/Devices/Dcf77.cpp:144-160 | the sample frame passes the minute parity and carries minute 58 |
| Dcf77.SampleHour | src/AvrPlusPlus/Devices/Dcf77.cpp:162-177 | the sample frame passes the hour parity and carries hour 22 |
| Dcf77.SampleDate | src/AvrPlusPlus/Devices/Dcf77.cpp:179-193 | the sample frame passes the date parity and carries day 25, month 6, year 15 |
| Screens.CicleIncrement | src/Screens.cpp:39-55 | a unit step from a value in [min, max] stays in [min, max] |
| Screens.CicleIncrementModular | src/Screens.cpp:39-55 | inside its range a unit step is addition modulo the length of the range, wrapping from max to min and from min to max |
| Screens.CicleIncrementInverse | src/Screens.cpp:39-55 | a step down undoes a step up and a step up undoes a step down |
| Screens.TsNextCycles | src/Screens.cpp:88-91 | the time screen's elements follow day, month, year, hour, minute, second and come back to day after six steps |
| Screens.TimeModifyMonth | src/Screens.cpp:119-134 | a unit month edit keeps the month in 0..11, moves the month count (years times twelve plus month) by exactly the step, and changes nothing but month and year |
| Screens.TimeModifyMonthCarry | src/Screens.cpp:120-129 | December plus one is January of the next year and January minus one is December of the previous year |
| Screens.TimeModifyMonthInverse | src/Screens.cpp:119-134 | a month edit up followed by one down restores the record |
| Screens.TimeModifyOneField | src/Screens.cpp:112-148 | the day, year, hour, minute and second edits move exactly their own field by the step and leave every other field alone |
| Screens.TimeModifySeconds | src/Screens.cpp:144-146 | a seconds edit of a record moves the second count the record denotes under mktime by the step, modulo 2^32 |
| Screens.TimeSetting.constructor | src/Screens.h:71 | a new time screen starts at the day element |
| Screens.TimeSetting.SetFirst | src/Screens.h:72 | the active element becomes the day |
| Screens.TimeSetting.SetActiveElement | src/Screens.h:73 | the active element becomes the one given |
| Screens.TimeSetting.SetNext | src/Screens.cpp:88-91 | the active element moves to the next in the cycle |
| Screens.TimeSetting.ModifyValue | src/Screens.cpp:112-148 | the edited record is the one TimeModify gives for the active element and step |
| Screens.BsNextCycles | src/Screens.cpp:172-182 | in automatic mode the next element is always the mode; in manual mode mode and value alternate |
| Screens.BrightnessModifyCorrect | src/Screens.cpp:207-216 | the mode edit flips the mode whatever the step and two flips restore the record; a unit value edit keeps the manual value within 0..100 and leaves the mode alone |
| Screens.BrightnessSetting.constructor | src/Screens.cpp:160-165 | a new brightness screen starts at the mode element and holds the stored record |
| Screens.BrightnessSetting.SetFirst | src/Screens.cpp:167-170 | the active element becomes the mode; the record is unchanged |
| Screens.BrightnessSetting.SetNext | src/Screens.cpp:172-182 | the active element moves as BsNext says for the current mode; the record is unchanged |
| Screens.BrightnessSetting.ModifyValue | src/Screens.cpp:207-216 | the record becomes BrightnessModify of the active element and step; the active element is unchanged |
| Screens.FactoryAlarm | src/Screens.cpp:239-244 | the three flashed alarms are valid and set for Monday to Friday |
| Screens.AsNextCycles | src/Screens.cpp:270-273 | the alarm screen's ten elements follow in order and then come back to the on/off flag |
| Screens.AlarmModifyValid | src/Screens.cpp:299-321 | a unit edit keeps the alarm valid; a weekday edit flips that day only; hour and minute edits change only their own field |
| Screens.AlarmModifyInverse | src/Screens.cpp:299-321 | flag and weekday edits undo themselves; an hour or minute step down undoes a step up |
| Screens.AlarmFiresAt | src/Screens.cpp:339-342 | on the broken-down form of a second count an alarm fires exactly when it is on, its flag for the weekday counted from the Saturday 2000-01-01 is set, and hour and minute match the time of day |
| Screens.AlarmSetting.constructor | src/Screens.cpp:246-263 | a new alarm screen keeps its number, starts at the on/off flag and holds the stored record |
| Screens.AlarmSetting.SetFirst | src/Screens.cpp:265-268 | the active element becomes the on/off flag; the record is unchanged |
| Screens.AlarmSetting.SetNext | src/Screens.cpp:270-273 | the active element moves to the next in the cycle; the record is unchanged |
| Screens.AlarmSetting.ModifyValue | src/Screens.cpp:299-321 | the record becomes AlarmModify of the active element and step, a weekday being flipped in the array in place |
| Screens.TimeModify | src/Screens.cpp:112-148 | the time edit, specified by TimeModifyMonth, TimeModifyMonthCarry, TimeModifyMonthInverse, TimeModifyOneField and TimeModifySeconds |
| Screens.BrightnessModify | src/Screens.cpp:207-216 | the brightness edit, specified by BrightnessModifyCorrect |
| Screens.AlarmModify | src/Screens.cpp:299-321 | the alarm edit, specified by AlarmModifyValid and AlarmModifyInverse |
| Screens.AlarmFires | src/Screens.cpp:339-342 | `isOccured`, specified by AlarmFiresAt |
| Screens.AlarmSetting.IsOccured | src/Screens.cpp:339-342 | the answer is AlarmFires of the screen's record, so AlarmFiresAt applies to it |
| Sdhc.Crc7LowBitClear | src/AvrPlusPlus/Devices/Sdhc.cpp:309-315 | the result of `CRC7_one` always has bit 0 clear |
| Sdhc.Crc7AgreesWithReference | src/AvrPlusPlus/Devices/Sdhc.cpp:304-316 | `CRC7_one` on a left-aligned 7-bit register is the bit-serial CRC7 with polynomial x^7 + x^3 + 1 of the data byte, left-aligned |
| Sdhc.Crc7RoundsFeed | src/AvrPlusPlus/Devices/Sdhc.cpp:309-315 | n rounds of the reduction loop follow n steps of the bit-serial register, the message bits not yet consumed staying in the low bits |
| Sdhc.Crc7One | src/AvrPlusPlus/Devices/Sdhc.cpp:304-316 | the loop computes the one-byte CRC7 step: the byte XORed in, then eight reduce-and-shift rounds |
| Sdhc.Crc7FoldAppend | src/AvrPlusPlus/Devices/Sdhc.cpp:318-324 | the buffer CRC7 of a buffer extended by one byte is the one-byte step applied to the CRC7 of the buffer |
| Sdhc.Crc7OfBufferLowBit | src/AvrPlusPlus/Devices/Sdhc.cpp:318-324 | an empty buffer has CRC7 0 and a non-empty one a CRC7 with bit 0 clear |
| Sdhc.Crc7Buf | src/AvrPlusPlus/Devices/Sdhc.cpp:318-324 | the loop over a buffer of fewer than 256 bytes computes the left fold of the one-byte step from 0 |
| Sdhc.InitCommandCrcs | src/AvrPlusPlus/Devices/Sdhc.cpp:71-73 | the CRC7 of the CMD0 frame with the end bit set is the hard-coded 0x95, and that of the CMD8 frame (argument 0x1AA) is the hard-coded 0x87 (lines 92-94) |
| Sdhc.Cmd0Crc | src/AvrPlusPlus/Devices/Sdhc.cpp:71-73 | the buffer CRC7 of the CMD0 frame bytes 0x40, 0, 0, 0, 0 is 0x94 |
| Sdhc.Cmd8Crc | src/AvrPlusPlus/Devices/Sdhc.cpp:92-94 | the buffer CRC7 of the CMD8 frame bytes 0x48, 0, 0, 0x01, 0xAA is 0x86 |
| Sdhc.Crc16BitStepCases | src/AvrPlusPlus/Devices/Sdhc.h:208-211 | one bitwise CRC16 step shifts left and XORs in 0x1021 exactly when bit 15 was set |
| Sdhc.Crc16AgreesWithReference | src/AvrPlusPlus/Devices/Sdhc.cpp:326-334 | the byte-at-a-time `CRC16_one` equals the data byte XORed into the high byte followed by eight bitwise steps of the polynomial x^16 + x^12 + x^5 + 1 |
| Sdhc.Crc16FoldAppend | src/AvrPlusPlus/Devices/Sdhc.cpp:336-342 | the buffer CRC16 of a buffer extended by one byte is the one-byte step applied to the CRC16 of the buffer |
| Sdhc.Crc16CheckValue | src/AvrPlusPlus/Devices/Sdhc.cpp:336-342 | an empty buffer has CRC16 0, and the ASCII digits 1 to 9 have the XMODEM check value 0x31C3 |
| Sdhc.Crc16Buf | src/AvrPlusPlus/Devices/Sdhc.cpp:336-342 | the loop over a buffer of fewer than 65536 bytes computes the left fold of the one-byte step from 0 |
| Sdhc.CommandByteStartBits | src/AvrPlusPlus/Devices/Sdhc.cpp:29-37 | every command byte is 0x40 plus its index: start bit 0, transmission bit 1, and the index in the low six bits |
| Sdhc.CommandFrame | src/AvrPlusPlus/Devices/Sdhc.cpp:239-245 | a command frame is seven bytes long |
| Sdhc.CommandFrameRoundTrip | src/AvrPlusPlus/Devices/Sdhc.cpp:239-245 | the frame starts with the 0xFF filler, then the command byte, the 32-bit argument most significant byte first (read back whole) and the CRC byte |
| Sdhc.CommandFrameInjective | src/AvrPlusPlus/Devices/Sdhc.cpp:239-245 | two frames are equal only for the same command, argument and CRC |
| Sdhc.PollCountSpec | src/AvrPlusPlus/Devices/Sdhc.cpp:248-252 | the R1 poll reads between 1 and tries + 1 bytes; every byte before the last has bit 7 set, and the last has bit 7 clear unless every try was used |
| Sdhc.PollCountBound | src/AvrPlusPlus/Devices/Sdhc.cpp:238-252 | with the counter starting at 0xFF, at most 256 bytes are read |
| Sdhc.ResponsePayloadBigEndian | src/AvrPlusPlus/Devices/Sdhc.cpp:262-268 | the R3/R7 payload stored backwards in entries 4 to 1 reads, as a little-endian 32-bit word, as the four received bytes taken big-endian |
| Sdhc.CardBytes | src/AvrPlusPlus/Devices/Sdhc.cpp:185 | the n bytes read are the next n bytes of the answer, in order |
| Sdhc.TokenScanSpec | src/AvrPlusPlus/Devices/Sdhc.cpp:288-302 | the token wait succeeds exactly when one of the first 255 bytes is the start token 0xFE; it then stops right after the first one, and otherwise it has read all 255 |
| Sdhc.ReadBlockResultCases | src/AvrPlusPlus/Devices/Sdhc.cpp:182-194 | without the checksum flag a read succeeds exactly when R1 is 0, even if no start token came; with it, success also needs R1 to be 0 |
| Sdhc.DataPacketLayout | src/AvrPlusPlus/Devices/Sdhc.cpp:213-216 | the data packet is two 0xFF bytes, the start token 0xFE, the block byte for byte and two 0xFF bytes |
| Sdhc.SdhcSpi.constructor | src/AvrPlusPlus/Devices/Sdhc.cpp:40-50 | a new driver has no card and no supported card type, and its bus is untouched |
| Sdhc.SdhcSpi.SendCommand | src/AvrPlusPlus/Devices/Sdhc.cpp:236-270 | the frame of command, argument and `crcValue` goes out; R1 is the last byte of the poll; the remaining response bytes are stored as ResponseTail says for the response type |
| Sdhc.SdhcSpi.SendFrame | src/AvrPlusPlus/Devices/Sdhc.cpp:239-245 | exactly the seven frame bytes go out and nothing is read |
| Sdhc.SdhcSpi.PollR1 | src/AvrPlusPlus/Devices/Sdhc.cpp:248-252 | the poll reads PollCount bytes with the counter at 0xFF and keeps the last one in entry 0 |
| Sdhc.SdhcSpi.ReadResponseTail | src/AvrPlusPlus/Devices/Sdhc.cpp:253-269 | R1 reads nothing more, R2 one byte into entry 1, R3 and R7 four bytes into entries 4 down to 1 |
| Sdhc.SdhcSpi.FinishOperation | src/AvrPlusPlus/Devices/Sdhc.cpp:282-286 | one 0xFF filler byte goes out, then the card is deselected |
| Sdhc.SdhcSpi.WaitDataToken | src/AvrPlusPlus/Devices/Sdhc.cpp:288-302 | the answer and the number of bytes read are those of TokenScan with 255 tries |
| Sdhc.SdhcSpi.ReadBuffer | src/AvrPlusPlus/Devices/Sdhc.cpp:185 | the next n bytes of the answer land in the first n entries of the buffer and the rest is unchanged |
| Sdhc.SdhcSpi.WriteBuffer | src/AvrPlusPlus/Devices/Sdhc.cpp:215 | the first n bytes of the buffer go out in order |
| Sdhc.SdhcSpi.ReadBlock | src/AvrPlusPlus/Devices/Sdhc.cpp:173-201 | with any card status but OK it returns false and touches nothing; with OK it selects the card, sends CMD17 with the address, returns ReadBlockResult, leaves in the buffer the 512 bytes that follow the token wait when R1 is 0 (the buffer is untouched otherwise), and finishes the operation |
| Sdhc.SdhcSpi.ReadSelectedBlock | src/AvrPlusPlus/Devices/Sdhc.cpp:180-200 | past the status guard the result is ReadBlockResult of the answer, the buffer holds the block when R1 is 0, and the bus carries select, the CMD17 frame, the filler byte and deselect |
| Sdhc.SdhcSpi.ReceiveBlock | src/AvrPlusPlus/Devices/Sdhc.cpp:184-189 | after R1 is 0: the token wait, the 512-byte block and its CRC, accepted as BlockAccepted says; the buffer holds the 512 bytes after the token wait |
| Sdhc.SdhcSpi.WriteBlock | src/AvrPlusPlus/Devices/Sdhc.cpp:203-224 | with any card status but OK nothing happens; with OK, CMD24 goes out with the address, then the data packet if R1 is 0, while any other R1 sets the status to ERROR; the operation is finished either way |
| Sdhc.SdhcSpi.SendDataPacket | src/AvrPlusPlus/Devices/Sdhc.cpp:213-216 | the data packet of the first 512 bytes of the buffer goes out |
| Sdhc.Crc7Of | src/AvrPlusPlus/Devices/Sdhc.cpp:304-316 | `CRC7_one`, specified by Crc7LowBitClear and Crc7AgreesWithReference |
| Sdhc.Crc16Of | src/AvrPlusPlus/Devices/Sdhc.cpp:326-334 | `CRC16_one`, specified by Crc16AgreesWithReference and Crc16CheckValue |
| Sdhc.PollCount | src/AvrPlusPlus/Devices/Sdhc.cpp:248-252 | the length of the R1 poll, specified by PollCountSpec and PollCountBound |
| Sdhc.TokenScan | src/AvrPlusPlus/Devices/Sdhc.cpp:288-302 | the token wait, specified by TokenScanSpec |
| Sdhc.ResponseTail | src/AvrPlusPlus/Devices/Sdhc.cpp:253-269 | the response bytes after R1, specified by ResponsePayloadBigEndian |
| Sdhc.ReadBlockResult | src/AvrPlusPlus/Devices/Sdhc.cpp:180-200 | the value `readBlock` returns, specified by ReadBlockResultCases |
| DigitalClock.DcfReceiveRule | src/DigitalClock.cpp:44-55 | a decoded time confirms exactly when the stored one has the same hour, day, month and year, whatever the minutes; the flag is never cleared, the new values replace the stored ones and the last reception time is kept |
| DigitalClock.FirstDecodeUnconfirmed | src/DigitalClock.cpp:37-55 | after `invalidateTime` the first decoded time (with a hour of 0 or more) cannot confirm, since every stored value is -1 |
| DigitalClock.DcfReceiveAllLast | src/DigitalClock.cpp:44-55 | after a run of decoded times the last one is stored and the last reception time is untouched |
| DigitalClock.ConfirmedIffRepeated | src/DigitalClock.cpp:37-55 | from the invalidated record, a run of decoded times confirms exactly when two consecutive ones share hour and date |
| DigitalClock.DcfData.constructor | src/DigitalClock.cpp:31-35 | the update period is 3600 and the record is invalidated |
| DigitalClock.DcfData.InvalidateTime | src/DigitalClock.cpp:37-42 | nothing is confirmed, the last reception time is `INFINITY_SEC` and every stored value is -1 |
| DigitalClock.DcfData.OnTimeReceived | src/DigitalClock.cpp:44-55 | the record becomes DcfReceive of the old one and the decoded values |
| DigitalClock.AdvanceCycles | src/DigitalClock.cpp:172-173 | k mode presses move k screens on modulo six, and the screen comes back exactly after a multiple of six presses |
| DigitalClock.ModifySettings | src/DigitalClock.cpp:343-357 | an edit keeps every alarm at seven weekday flags |
| DigitalClock.ModifyOnlyActive | src/DigitalClock.cpp:343-357 | an edit changes only the record of the active screen |
| DigitalClock.AutoBrightness | src/DigitalClock.cpp:299-304 | the automatic brightness is a percentage |
| DigitalClock.AutoBrightnessAntitone | src/DigitalClock.cpp:299-304 | more light never gives a brighter display; a reading below 8 gives 100 %, a reading of 808 or more 0 %, and in between 100 minus an eighth of the reading |
| DigitalClock.BrightnessPercent | src/DigitalClock.cpp:291-306 | in manual mode the stored value is sent; in automatic mode the value is at most 100 |
| DigitalClock.InterruptArgsFit | src/AvrPlusPlus/Devices/Dcf77.cpp:204-214 | every time the decoder hands over has fields that fit the handler's 16-bit `int` parameters |
| DigitalClock.ShowLcd | src/DigitalClock.cpp:308-319 | `dayTime` becomes the broken-down clock second, the visibility flips exactly when asked, and nothing else changes |
| DigitalClock.ToHomeScreen | src/DigitalClock.cpp:283-289 | the home screen is active and the element hidden |
| DigitalClock.SetClock | src/DigitalClock.cpp:338 | the clock is set to `mktime` of the edited record, and the shown time is that second broken down |
| DigitalClock.CorrectSecondsStep | src/DigitalClock.cpp:275-281 | the time screen ends up with the seconds selected, the clock set one second back from the shown time and the settings unchanged |
| DigitalClock.EditStep | src/DigitalClock.cpp:335-357 | on the time screen the clock is set to `mktime` of the shown time with the selected field moved by the step, the settings are kept and the shown time follows the clock; on any other screen the clock and the shown time are kept and the settings become ModifySettings of the step; screen and selection stay |
| DigitalClock.ModifyStep | src/DigitalClock.cpp:327-361 | screen and selection stay; away from the home screen the display is left visible with the shown time following the clock; on the time screen the clock gets `mktime` of the edited time and the settings are kept, on any other screen the clock is kept and the settings become ModifySettings of the step |
| DigitalClock.DcfActivateStep | src/DigitalClock.cpp:386-398 | the confirmation record is invalidated and nothing but it and the decoder changes; switching on restarts the decoder with no bit in progress, switching off leaves it alone |
| DigitalClock.ApplyDcfStep | src/DigitalClock.cpp:155-162 | the clock is set to the decoded time and the confirmation record restarts with that time as the last received one |
| DigitalClock.ModePressStep | src/DigitalClock.cpp:163-177 | with the alarm ringing only the alarm is stopped; otherwise the next screen is shown with its first element selected, blinking everywhere but home; the return-home event is re-armed |
| DigitalClock.ModeLongPressStep | src/DigitalClock.cpp:178-183 | the home screen is shown, not blinking, and the DCF77 receiver is switched on with a fresh decoder and an invalid confirmation record |
| DigitalClock.ElementPressStep | src/DigitalClock.cpp:184-197 | with the alarm ringing nothing changes; otherwise the next element of the screen is selected and shown steadily, screen and settings unchanged, and the blink timer is restarted; the return-home event is re-armed |
| DigitalClock.StepPressStep | src/DigitalClock.cpp:198-221 | the screen stays and the alarm stops; with the alarm ringing nothing else changes, otherwise the state is that of ModifyStep and the return-home event is re-armed |
| DigitalClock.SecondShowStep | src/DigitalClock.cpp:222-236 | the shown time is the clock's broken-down time and blinking toggles; nothing else changes |
| DigitalClock.CorrectionStep | src/DigitalClock.cpp:237-241 | when the correction is due the clock is set one second back from the shown time and the shown time follows it; otherwise nothing changes; settings, screen and visibility stay |
| DigitalClock.SecondTickStep | src/DigitalClock.cpp:222-256 | the second tick keeps the state well formed and the settings and screen, flips the element visibility, and leaves the shown time equal to the broken-down clock |
| DigitalClock.SecondTickBeeps | src/DigitalClock.cpp:222-256 | the clock ends one second back exactly when the correction is due, the shown time is that second broken down, and 15 beeps are started exactly when an alarm fires at it |
| DigitalClock.SecondTickPass | src/DigitalClock.cpp:152-256 | with no DCF77 time and no button, a second tick makes the pass the quiet queries followed by the second tick |
| DigitalClock.SecondTickQueries | src/DigitalClock.cpp:222-256 | the only timer the second tick asks is the seconds correction |
| DigitalClock.CorrectionQueries | src/DigitalClock.cpp:237-241 | the correction step asks only the seconds-correction timer |
| DigitalClock.SecondShowQueriesNothing | src/DigitalClock.cpp:222-236 | the display part of the second tick asks no timer |
| DigitalClock.SecondShowSsd | src/DigitalClock.cpp:232-235 | the seven-segment display gets the hour and minute exactly in seconds 0 to 4 of the minute |
| DigitalClock.SecondTickEndsPass | src/DigitalClock.cpp:222-257 | a pass that reaches the second tick returns without asking the LED, blink or return-home timers |
| DigitalClock.IdleStep | src/DigitalClock.cpp:257-272 | the end of a quiet pass keeps the state well formed |
| DigitalClock.PeriodicStep | src/DigitalClock.cpp:152-273 | a pass of `periodic` keeps the state well formed |
| DigitalClock.LaterStep | src/DigitalClock.cpp:198-273 | the pass after the mode and active-element buttons keeps the state well formed |
| DigitalClock.InterruptStep | src/DigitalClock.h:147 | a comparator interrupt keeps the decoder's state valid |
| DigitalClock.DcfTimeFirst | src/DigitalClock.cpp:155-162 | a confirmed DCF77 time is applied before any button is asked: the clock gets `mktime` of the decoded time, which is also the last reception time, the record is invalidated otherwise, the receiver is switched off, the timers restart, and the pass ends there |
| DigitalClock.ModifyNoTick | src/DigitalClock.cpp:327-361 | `modifyActiveElement` asks neither the second tick nor the LED tick |
| DigitalClock.StepPressNoTick | src/DigitalClock.cpp:198-221 | a handled plus or minus press asks neither the second tick nor the LED tick |
| DigitalClock.ButtonEndsPass | src/DigitalClock.cpp:163-221 | once any button is handled the pass asks neither the second tick nor the LED tick |
| DigitalClock.ModeButtonEndsPass | src/DigitalClock.cpp:163-183 | a handled mode press or long press ends the pass without the second or LED tick |
| DigitalClock.ElementButtonEndsPass | src/DigitalClock.cpp:184-197 | a handled active-element press ends the pass without the second or LED tick |
| DigitalClock.ModePressCycles | src/DigitalClock.cpp:163-177 | a short mode press restarts the return-home timer; with a running alarm it only silences it, otherwise the next screen is active and the element is shown exactly off the home screen |
| DigitalClock.QuietPass | src/DigitalClock.cpp:152-222 | with no DCF77 time, no button and no second tick, every button and the second tick are asked in order and the pass goes on to the LED tick |
| DigitalClock.IdleOrder | src/DigitalClock.cpp:257-272 | the LED tick toggles both LEDs and does not end the pass; off the home screen the blink timer is asked, a blink flips the visibility and skips the return-home timer, and a return-home timeout shows the home screen; on the home screen nothing changes |
| DigitalClock.LedTickFallsThrough | src/DigitalClock.cpp:257-272 | the same order holds for a whole pass in which no DCF77 time, no button and no second tick applies |
| DigitalClock.ModifyOnHomeIsNoop | src/DigitalClock.cpp:331-334 | `modifyActiveElement` on the home screen changes nothing and calls nothing |
| DigitalClock.CorrectionIsOneSecond | src/DigitalClock.cpp:275-281 | the seconds correction sets the clock back by exactly one second, modulo 2^32 |
| DigitalClock.DigitalClock.constructor | src/DigitalClock.cpp:60-100 | the clock starts on the home screen with the element hidden, the record invalidated, the screens at their first element and holding the stored records |
| DigitalClock.DigitalClock.ResetEvents | src/DigitalClock.cpp:140-150 | the active-element, plus and minus buttons, the second, LED, blink and correction timers and the piezo restart, in this order |
| DigitalClock.DigitalClock.UpdateLcd | src/DigitalClock.cpp:308-319 | the state and the calls are those of ShowLcd |
| DigitalClock.DigitalClock.UpdateSsd | src/DigitalClock.cpp:321-325 | hour and minute of `dayTime` go to the seven-segment display |
| DigitalClock.DigitalClock.UpdateBrightness | src/DigitalClock.cpp:291-306 | the light is read only in automatic mode, and the DAC gets BrightnessPercent |
| DigitalClock.DigitalClock.SelectFirst | src/DigitalClock.cpp:174 | the active screen's selection goes to its first element and every record is unchanged |
| DigitalClock.DigitalClock.SelectNext | src/DigitalClock.cpp:192 | the active screen's selection moves to its next element and every record is unchanged |
| DigitalClock.DigitalClock.SetHomeScreen | src/DigitalClock.cpp:283-289 | the state and the calls are those of ToHomeScreen |
| DigitalClock.DigitalClock.SetClockFrom | src/DigitalClock.cpp:338 | the clock is set to `mktime` of the record, and `dayTime` holds the normalised record |
| DigitalClock.DigitalClock.CorrectSeconds | src/DigitalClock.cpp:275-281 | the state and the calls are those of CorrectSecondsStep |
| DigitalClock.DigitalClock.Edit | src/DigitalClock.cpp:335-357 | the state and the calls are those of EditStep |
| DigitalClock.DigitalClock.ModifyActiveElement | src/DigitalClock.cpp:327-361 | the state and the calls are those of ModifyStep |
| DigitalClock.DigitalClock.DcfActivate | src/DigitalClock.cpp:386-398 | the state and the calls are those of DcfActivateStep |
| DigitalClock.DigitalClock.ApplyDcfTime | src/DigitalClock.cpp:155-162 | the state and the calls are those of ApplyDcfStep |
| DigitalClock.DigitalClock.AlarmOccured | src/DigitalClock.cpp:242-250 | the loop over the three alarms answers true exactly when one of them fires at `dayTime` |
| DigitalClock.DigitalClock.SecondShow | src/DigitalClock.cpp:222-236 | the state and the calls are those of SecondShowStep |
| DigitalClock.DigitalClock.Correction | src/DigitalClock.cpp:237-241 | the state and the calls are those of CorrectionStep |
| DigitalClock.DigitalClock.SecondTick | src/DigitalClock.cpp:222-256 | the state and the calls are those of SecondTickStep, an alarm firing at the corrected time starting 15 beeps |
| DigitalClock.DigitalClock.ModePress | src/DigitalClock.cpp:163-177 | the state and the calls are those of ModePressStep |
| DigitalClock.DigitalClock.ModeLongPress | src/DigitalClock.cpp:178-183 | the state and the calls are those of ModeLongPressStep |
| DigitalClock.DigitalClock.ElementPress | src/DigitalClock.cpp:184-197 | the state and the calls are those of ElementPressStep |
| DigitalClock.DigitalClock.StepPress | src/DigitalClock.cpp:198-221 | the state and the calls are those of StepPressStep |
| DigitalClock.DigitalClock.Idle | src/DigitalClock.cpp:257-272 | the state and the calls are those of IdleStep |
| DigitalClock.DigitalClock.Periodic | src/DigitalClock.cpp:152-273 | the state and the calls are those of PeriodicStep, whose order and early returns the lemmas above state |
| DigitalClock.DigitalClock.Later | src/DigitalClock.cpp:198-273 | the state and the calls are those of LaterStep |
| DigitalClock.DigitalClock.OnTimeReceived | src/DigitalClock.cpp:407-411 | one beep is started and the record becomes DcfReceive of the decoded values; nothing else changes |
| DigitalClock.DigitalClock.OnBitReceived | src/DigitalClock.cpp:413-416 | the bit-received LED is switched on and nothing else changes |
| DigitalClock.DigitalClock.OnBitFailed | src/DigitalClock.cpp:418-421 | the bit-failed LED is switched on and nothing else changes |
| DigitalClock.DigitalClock.Dispatch | src/AvrPlusPlus/Devices/Dcf77.cpp:42-125 | the decoder's callbacks run in order: the calls are those of every handler in turn and the record is DcfAfter of the events |
| DigitalClock.DigitalClock.OnComparatorInterrupt | src/DigitalClock.h:147 | the state and the calls are those of InterruptStep at the clock's millisecond count |
| DigitalClock.DcfReceive | src/DigitalClock.cpp:44-55 | the `onTimeReceived` record update, specified by DcfReceiveRule, FirstDecodeUnconfirmed, DcfReceiveAllLast and ConfirmedIffRepeated |
| DigitalClock.NextScreen | src/DigitalClock.cpp:172-173 | the screen after a mode press, specified by AdvanceCycles |
| DigitalClock.FirstOf | src/DigitalClock.cpp:174 | `setFirst` on the active screen, specified by ModePressStep and DigitalClock.SelectFirst |
| DigitalClock.NextOf | src/DigitalClock.cpp:192 | `setNext` on the active screen, specified by ElementPressStep and DigitalClock.SelectNext |
| DigitalClock.DigitalClock.IsDcfTimeAvailable | src/DigitalClock.h:145 | true exactly when a reception time is stored; DcfData.InvalidateTime and ModeLongPressStep make it false and ApplyDcfStep stores the applied time |

## Left out

- **Register plumbing.** `System`, the I/O port and pin register pointers, the timer set-up, `Usart`,
  the ADC, the analog comparator's on and off, and the PWM timer: memory-mapped registers and
  busy-wait loops. `SpiDevice::putChar` is modelled as appending the byte to the bus log, without
  its wait for the transfer-complete flag.
- **SPI reads.** `readChar`, `readBuffer` and `writeBuffer` of the SD driver are not defined in the
  source files of this model. They are modelled as reading the successive bytes of an answer
  sequence `miso` (`0xFF` once it is exhausted) and sending bytes on the bus log.
- **Interrupts.** Interrupt masking (`cli`/`sei`), the ISR wiring and the forever loop of `main.cpp`
  are concurrency concerns. The interrupt handlers are ordinary sequential method calls.
- **Floating point.** `measureTemperature` (thermistor formula and averaging, `DigitalClock.cpp`
  368-384), `getVoltage` and `System::voltage` are not modelled. `measureTemperature` is recorded
  only as a `MeasureTemperature` call.
- **Text.** The `sprintf`/`strncpy` formatting in every `fillLine`, `updateSsd`, the DCF77 and SD log
  strings (`onDcfLog`, `onLog`) and the UART output are not modelled. An LCD update is recorded as
  an `LcdShow` call, after an `LcdClear` on a change of screen. The seven-segment update is an
  `SsdShow` call with the hour and minute; its text is not computed.
- **EEPROM.** The reads in the screen constructors are their stored records, passed in. The writes in
  each `modifyValue` are not modelled; only the in-memory records are.
- **The LCD driver** (`Lcd_DOGM162.cpp`): pin toggling with `_delay_ms`/`_delay_us` and an unbounded
  busy-flag loop.
- **DigitalClock init and construction.** The pin assignments, `init` (`DigitalClock.cpp` 102-138)
  and the event periods (74-78) are not modelled. The constructor takes the devices' states as
  parameters. `isAlarmActive` (363-366) only chooses an LED and is not modelled.
- **Event timers.** The event timers of `periodic` are answers in `Readings` rather than
  `PeriodicalEvent` objects inside `DigitalClock`. `PeriodicalEvent` itself is modelled in
  `AvrPlusPlus`.
- **SD card transactions.**
  - `Sdhc_SPI::init` (`Sdhc.cpp` 52-171) and its retry loops over a live card, and `sendAppCommand`
    (272-280), which only `init` uses, are not modelled.
  - `Sdhc.SdhcSpi.WriteBlock`: the spin `while (readChar() == 0x00);` after the data packet
    (`Sdhc.cpp` 217) is not modelled. The model goes straight from the data packet to
    `finishOperation`, and the answer bytes the wait would consume stay unread.
- **Led.Led.Pulse**: the `_delay_us` timing between the levels is not modelled. The contract states
  the sequence of pin levels and the end state.
- **DacMcp4901.Dac.PutValue**: requires `percent <= 128`. `0xFF * percent` is a 16-bit `int` product
  in the firmware and overflows beyond 128. The application never passes more than 100, except a
  manual brightness above 128 loaded from a corrupted EEPROM; that case is not modelled.
- **Ssd.Ssd74HC595ThreeBit.PutString** and **Ssd.Ssd74HC595Spi.PutString**: require `str` to hold at
  least `segNumbers` characters when fewer than five segments are driven, as the firmware reads
  them through a raw pointer. The per-bit toggling of the latch, clock and data pins is abstracted
  as `Shift` events.
- **PiezoAlarm.PiezoAlarm.constructor**: the constructor does not set `maxNumber`. The model takes
  it as 0, the value of zeroed static storage.
- **Dcf77 hardware.** `turnOn` is modelled on the decoder's state; enabling the comparator is logged
  only as a call by `DigitalClock`. There is no `turnOff` override in `Dcf77.cpp`, so switching the
  receiver off leaves the decoder where it was. The model keeps this.
- **Segment positions.** A `SegmentsMask` entry is an `unsigned char`. A bit number from 8 to 15
  drops out of the `char` mask when `1 << p` is stored; for 16 or more the C shift of an `int` is
  undefined. The model drops the bit in both cases (`Ssd.Bit`).

## Kept as written

- **Decoding at 59 bits.** A minute gap decodes the frame when `currBit == BITS_NUMBER - 1`, that
  is after 59 bits (`Dcf77.cpp` 59). This is right for DCF77, whose second 59 carries no pulse.
  `Dcf77.GapEndsFrame` states it.
- **Date parity.** It sums bits 36 to 56 only (`i < 57`) against bit 58, leaving out bit 57, the
  year's tens bit of weight 80. The model keeps the code:
  - `Dcf77.DateParityOfEncode` states the parity the decoder checks;
  - `Dcf77.DateParityOfData` and `Dcf77.YearTensBit` together show that a frame with standard
    parity is rejected exactly when its year is 80 or more.
- **Button delays.** The defaults are those of `Button.h` (50 ms and 1500 ms), not the 30 ms and
  1000 ms of the comment in `Button.cpp`.