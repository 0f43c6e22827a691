/*
 * The clock application: one `periodic` pass of the main loop, a chain of
 * guarded early returns (a DCF77 time waiting to be applied, then the mode,
 * active-element, plus and minus buttons, then the second tick, then the
 * LED tick and the blink or return-home timers), the editing of the active
 * setting screen, the display brightness, and the confirmation of received
 * DCF77 times.
 *
 * The clock's own fields, the real-time clock, the DCF77 decoder and the
 * setting screens are objects from their own modules. The buttons, the
 * periodical events, the piezo alarm, the LEDs, the LCD, the seven-segment
 * and DAC outputs and the ADC depend on pins and on time: what `periodic`
 * asks of them and tells them is recorded, in order, in `calls`, and the
 * answers they give in one pass are the `Readings` parameter.
 */
module DigitalClock {
  import opened FixedWidth
  import opened AvrPlusPlus
  import opened Calendar
  import opened Dcf77
  import opened Screens

  /** `time_t` value meaning "no time". */
  const INFINITY_SEC: uint32 := 0xFFFF_FFFF

  const SCREENS_NUMBER := 6
  const ALARMS_NUMBER := 3

  /** Beeps for a decoded DCF77 time and for an alarm. */
  const DCF_BEEPS: uint8 := 1
  const ALARM_BEEPS: uint8 := 15

  // ---------------------------------------------------------------------
  // DcfData: a received time is confirmed by the next one
  // ---------------------------------------------------------------------

  /** The five values the decoder hands over, 16-bit `int`s. */
  datatype Decoded = Decoded(min: int16, hour: int16, day: int16, month: int16, year: int16)

  datatype DcfRecord = DcfRecord(timeReceived: bool, lastReceivedTime: uint32, last: Decoded)

  /** `invalidateTime`: nothing confirmed, no time received, every stored value -1. */
  const INVALID_DCF := DcfRecord(false, INFINITY_SEC, Decoded(-1, -1, -1, -1, -1))

  /** Hour, day, month and year agree; the minute is not compared. */
  predicate SameDate(x: Decoded, y: Decoded) {
    x.hour == y.hour && x.day == y.day && x.month == y.month && x.year == y.year
  }

  /** `onTimeReceived`: a time is confirmed when it names the stored date and hour; it is stored in any case. */
  function DcfReceive(r: DcfRecord, d: Decoded): DcfRecord {
    r.(timeReceived := r.timeReceived || SameDate(r.last, d), last := d)
  }

  /** The record after a run of decoded times, oldest first. */
  function DcfReceiveAll(r: DcfRecord, ds: seq<Decoded>): DcfRecord {
    if |ds| == 0 then r else DcfReceive(DcfReceiveAll(r, ds[..|ds| - 1]), ds[|ds| - 1])
  }

  /** Some decoded time repeats the date and hour of the one before it. */
  predicate Repeats(ds: seq<Decoded>) {
    exists i :: 0 < i < |ds| && SameDate(ds[i - 1], ds[i])
  }

  /**
   * A decoded time confirms exactly when the stored one has its date and
   * hour, whatever the minutes; the flag is never cleared, the new values
   * replace the old ones and the time of the last reception is kept.
   */
  lemma DcfReceiveRule(r: DcfRecord, d: Decoded)
    ensures DcfReceive(r, d).timeReceived <==> r.timeReceived || SameDate(r.last, d)
    ensures DcfReceive(r, d).last == d
    ensures DcfReceive(r, d).lastReceivedTime == r.lastReceivedTime
    ensures forall m: int16 :: DcfReceive(r, d.(min := m)).timeReceived == DcfReceive(r, d).timeReceived
  {}

  /** After `invalidateTime`, the first decoded time (its hour is never negative) cannot confirm. */
  lemma FirstDecodeUnconfirmed(d: Decoded)
    requires d.hour >= 0
    ensures !DcfReceive(INVALID_DCF, d).timeReceived
  {}

  /** The last decoded time is stored, and the time of the last reception is untouched. */
  lemma {:induction false} DcfReceiveAllLast(r: DcfRecord, ds: seq<Decoded>)
    ensures |ds| > 0 ==> DcfReceiveAll(r, ds).last == ds[|ds| - 1]
    ensures |ds| == 0 ==> DcfReceiveAll(r, ds) == r
    ensures DcfReceiveAll(r, ds).lastReceivedTime == r.lastReceivedTime
  {
    if |ds| > 0 {
      DcfReceiveAllLast(r, ds[..|ds| - 1]);
    }
  }

  /** A repetition in a run is one in its prefix or between its last two entries. */
  lemma RepeatsSnoc(ds: seq<Decoded>)
    requires |ds| > 0
    ensures var init := ds[..|ds| - 1];
      Repeats(ds) <==> Repeats(init) || (|ds| > 1 && SameDate(ds[|ds| - 2], ds[|ds| - 1]))
  {
    var init := ds[..|ds| - 1];
    if Repeats(init) {
      var i :| 0 < i < |init| && SameDate(init[i - 1], init[i]);
      assert ds[i - 1] == init[i - 1] && ds[i] == init[i];
    }
    if Repeats(ds) {
      var i :| 0 < i < |ds| && SameDate(ds[i - 1], ds[i]);
      if i < |ds| - 1 {
        assert init[i - 1] == ds[i - 1] && init[i] == ds[i];
      }
    }
  }

  /**
   * From the invalidated record, a run of decoded times leaves the time
   * confirmed exactly when two consecutive ones share date and hour, and
   * leaves the last of them stored.
   */
  lemma {:induction false} ConfirmedIffRepeated(ds: seq<Decoded>)
    requires forall i :: 0 <= i < |ds| ==> ds[i].hour >= 0
    ensures DcfReceiveAll(INVALID_DCF, ds).timeReceived <==> Repeats(ds)
    ensures |ds| > 0 ==> DcfReceiveAll(INVALID_DCF, ds).last == ds[|ds| - 1]
    ensures DcfReceiveAll(INVALID_DCF, ds).lastReceivedTime == INFINITY_SEC
  {
    DcfReceiveAllLast(INVALID_DCF, ds);
    if |ds| > 0 {
      var init := ds[..|ds| - 1];
      ConfirmedIffRepeated(init);
      DcfReceiveAllLast(INVALID_DCF, init);
      RepeatsSnoc(ds);
      if |ds| == 1 {
        assert !Repeats(init);
        assert ds[0].hour >= 0;
      }
    }
  }

  /** `DcfData`: the confirmation state the DCF77 handler feeds. */
  class DcfData {
    var dcfUpdatePeriod: int32
    var timeReceived: bool
    var lastReceivedTime: uint32
    var min: int16
    var hour: int16
    var day: int16
    var month: int16
    var year: int16

    function Model(): DcfRecord
      reads this
    {
      DcfRecord(timeReceived, lastReceivedTime, Decoded(min, hour, day, month, year))
    }

    /** An update period of one hour, and an invalidated record. */
    constructor ()
      ensures dcfUpdatePeriod == 3600 && Model() == INVALID_DCF
    {
      dcfUpdatePeriod := 3600;
      timeReceived := false;
      lastReceivedTime := INFINITY_SEC;
      min, hour, day, month, year := -1, -1, -1, -1, -1;
    }

    method InvalidateTime()
      modifies this
      ensures Model() == INVALID_DCF && dcfUpdatePeriod == old(dcfUpdatePeriod)
    {
      timeReceived := false;
      lastReceivedTime := INFINITY_SEC;
      min, hour, day, month, year := -1, -1, -1, -1, -1;
    }

    method OnTimeReceived(min: int16, hour: int16, day: int16, month: int16, year: int16)
      modifies this
      ensures Model() == DcfReceive(old(Model()), Decoded(min, hour, day, month, year))
      ensures dcfUpdatePeriod == old(dcfUpdatePeriod)
    {
      if this.hour == hour && this.day == day && this.month == month && this.year == year {
        timeReceived := true;
      }
      this.min := min;
      this.hour := hour;
      this.day := day;
      this.month := month;
      this.year := year;
    }
  }

  // ---------------------------------------------------------------------
  // Screens
  // ---------------------------------------------------------------------

  type ScreenType = x: int | 0 <= x < 6

  const SCR_HOME: ScreenType := 0
  const SCR_TIME_SETTING: ScreenType := 1
  const SCR_BRIGHTNESS: ScreenType := 2
  const SCR_ALARM1: ScreenType := 3
  const SCR_ALARM2: ScreenType := 4
  const SCR_ALARM3: ScreenType := 5

  /** The screen a mode press leads to: the next one, the last one back to home. */
  function NextScreen(s: ScreenType): ScreenType {
    if s == SCREENS_NUMBER - 1 then SCR_HOME else s + 1
  }

  /** k mode presses in a row. */
  function Advance(s: ScreenType, k: nat): ScreenType {
    if k == 0 then s else NextScreen(Advance(s, k - 1))
  }

  lemma ModSucc(x: nat)
    ensures (x + 1) % 6 == if x % 6 == 5 then 0 else x % 6 + 1
  {
    var q := x / 6;
    assert x == 6 * q + x % 6;
    assert x + 1 == 6 * q + (x % 6 + 1);
  }

  lemma ModShift(s: ScreenType, k: nat)
    ensures (s + k) % 6 == s <==> k % 6 == 0
  {
    var q, r := k / 6, k % 6;
    assert k == 6 * q + r;
    assert s + k == 6 * q + (s + r);
    if s + r < 6 {
      assert (s + k) % 6 == s + r;
    } else {
      assert s + k == 6 * (q + 1) + (s + r - 6);
      assert (s + k) % 6 == s + r - 6;
    }
  }

  /** k mode presses move k screens on, modulo the six screens: after six presses the screen is back. */
  lemma {:induction false} AdvanceCycles(s: ScreenType, k: nat)
    ensures Advance(s, k) == (s + k) % SCREENS_NUMBER
    ensures k % SCREENS_NUMBER == 0 <==> Advance(s, k) == s
  {
    if k > 0 {
      AdvanceCycles(s, k - 1);
      ModSucc(s + k - 1);
    }
    ModShift(s, k);
  }

  /** Which element each setting screen has selected. */
  datatype Selection = Selection(time: TsElement, brightness: BsElement,
                                 alarm1: AsElement, alarm2: AsElement, alarm3: AsElement)

  /** The setting records behind the brightness and alarm screens. */
  datatype Settings = Settings(brightness: BrightnessData, alarm1: AlarmData, alarm2: AlarmData, alarm3: AlarmData)

  predicate SettingsValid(st: Settings) {
    |st.alarm1.days| == 7 && |st.alarm2.days| == 7 && |st.alarm3.days| == 7
  }

  /** `screens[screen]->setFirst()`; the home screen has nothing to select. */
  function FirstOf(sel: Selection, screen: ScreenType): Selection {
    match screen
    case 0 => sel
    case 1 => sel.(time := TS_DAY)
    case 2 => sel.(brightness := BS_MODE)
    case 3 => sel.(alarm1 := AS_ACTIVE)
    case 4 => sel.(alarm2 := AS_ACTIVE)
    case 5 => sel.(alarm3 := AS_ACTIVE)
  }

  /** `screens[screen]->setNext()`. */
  function NextOf(sel: Selection, screen: ScreenType, isManual: bool): Selection {
    match screen
    case 0 => sel
    case 1 => sel.(time := TsNext(sel.time))
    case 2 => sel.(brightness := BsNext(sel.brightness, isManual))
    case 3 => sel.(alarm1 := AsNext(sel.alarm1))
    case 4 => sel.(alarm2 := AsNext(sel.alarm2))
    case 5 => sel.(alarm3 := AsNext(sel.alarm3))
  }

  /** The records that `modifyActiveElement(s)` edits on the brightness and alarm screens. */
  function ModifySettings(st: Settings, sel: Selection, screen: ScreenType, s: int16): (r: Settings)
    requires SettingsValid(st)
    ensures SettingsValid(r)
  {
    match screen
    case 2 => st.(brightness := BrightnessModify(sel.brightness, st.brightness, s))
    case 3 => st.(alarm1 := AlarmModify(sel.alarm1, st.alarm1, s))
    case 4 => st.(alarm2 := AlarmModify(sel.alarm2, st.alarm2, s))
    case 5 => st.(alarm3 := AlarmModify(sel.alarm3, st.alarm3, s))
    case _ => st
  }

  /** An edit touches only the record of the active screen. */
  lemma ModifyOnlyActive(st: Settings, sel: Selection, screen: ScreenType, s: int16)
    requires SettingsValid(st)
    ensures var r := ModifySettings(st, sel, screen, s);
      && SettingsValid(r)
      && (screen != SCR_BRIGHTNESS ==> r.brightness == st.brightness)
      && (screen != SCR_ALARM1 ==> r.alarm1 == st.alarm1)
      && (screen != SCR_ALARM2 ==> r.alarm2 == st.alarm2)
      && (screen != SCR_ALARM3 ==> r.alarm3 == st.alarm3)
  {}

  // ---------------------------------------------------------------------
  // Brightness
  // ---------------------------------------------------------------------

  /** The automatic percentage: 100 minus an eighth of the light reading, the eighth capped at 100. */
  function AutoBrightness(light: uint16): (p: uint8)
    ensures p <= 100
  {
    var currLight := light / 8;
    var capped := if currLight > 100 then 100 else currLight;
    100 - capped
  }

  /** More light never gives a brighter display; darkness gives 100 %, a reading of 808 or more 0 %. */
  lemma AutoBrightnessAntitone(a: uint16, b: uint16)
    requires a <= b
    ensures AutoBrightness(b) <= AutoBrightness(a)
    ensures a < 8 ==> AutoBrightness(a) == 100
    ensures b >= 808 ==> AutoBrightness(b) == 0
    ensures 8 <= b < 808 ==> AutoBrightness(b) == 100 - b / 8
  {
    assert a / 8 <= b / 8;
  }

  /** The percentage `updateBrightness` sends: the manual value, or the automatic one. */
  function BrightnessPercent(d: BrightnessData, light: uint16): (p: uint8)
    ensures d.isManual ==> p == d.manValue
    ensures !d.isManual ==> p <= 100
  {
    if d.isManual then d.manValue else AutoBrightness(light)
  }

  // ---------------------------------------------------------------------
  // What the clock asks of and tells the other devices
  // ---------------------------------------------------------------------

  datatype ButtonId = ModeButton | ActiveElementButton | PlusButton | MinusButton
  datatype EventId = LedToggle | SecToggle | ActiveElementToggle | ReturnToHome | SecondsCorrection
  datatype LedId = LedSec1 | LedSec2 | DcfBitReceived | DcfBitFailed | DcfPower

  datatype Call =
    | PiezoPeriodic | PiezoFinish | PiezoStart(maxNumber: uint8) | PiezoResetTime
    | IsPressed(b: ButtonId) | IsLongPressed(b: ButtonId) | SetProcessed(b: ButtonId) | ResetButton(b: ButtonId)
    | IsOccured(e: EventId) | ResetEvent(e: EventId)
    | LedOn(l: LedId) | LedOff(l: LedId) | LedToggled(l: LedId)
    | Comparator(on: bool)
    | LcdClear | LcdShow
    | SsdShow(hour: int8, min: int8)
    | MeasureTemperature | ReadLight | DacPutValue(percent: uint8)

  /**
   * What the devices answer in one pass: the buttons' `isPressed` and
   * `isLongPressed`, whether `piezoAlarm.finish()` stopped a running alarm,
   * the periodical events' `isOccured`, and the light sensor's ADC value.
   */
  datatype Readings = Readings(
    modePressed: bool, modeLongPressed: bool, elementPressed: bool,
    plusPressed: bool, plusLongPressed: bool, minusPressed: bool, minusLongPressed: bool,
    alarmRunning: bool,
    secondTick: bool, correctionDue: bool, ledTick: bool, blinkTick: bool, homeTimeout: bool,
    light: uint16)

  /** `resetEvents`: every timer but the mode button's and the return-home event's restarts. */
  const RESET_EVENTS: seq<Call> := [
    ResetButton(ActiveElementButton), ResetButton(PlusButton), ResetButton(MinusButton),
    ResetEvent(SecToggle), ResetEvent(LedToggle), ResetEvent(ActiveElementToggle),
    ResetEvent(SecondsCorrection), PiezoResetTime]

  /** `updateBrightness`: the light is read only in automatic mode. */
  function BrightnessCalls(d: BrightnessData, light: uint16): seq<Call> {
    (if d.isManual then [] else [ReadLight]) + [DacPutValue(BrightnessPercent(d, light))]
  }

  /** The handler calls of one decoder callback. */
  function HandlerCalls(e: DcfEvent): seq<Call> {
    match e
    case BitReceived => [LedOn(DcfBitReceived)]
    case BitFailed => [LedOn(DcfBitFailed)]
    case TimeReceived(_, _, _, _, _) => [PiezoStart(DCF_BEEPS)]
  }

  function AllHandlerCalls(es: seq<DcfEvent>): seq<Call> {
    if |es| == 0 then [] else AllHandlerCalls(es[..|es| - 1]) + HandlerCalls(es[|es| - 1])
  }

  /** The decoder's `int` arguments fit the handler's 16-bit parameters. */
  predicate ArgsFit(e: DcfEvent) {
    e.TimeReceived? ==>
      && -0x8000 <= e.min < 0x8000 && -0x8000 <= e.hour < 0x8000 && -0x8000 <= e.day < 0x8000
      && -0x8000 <= e.month < 0x8000 && -0x8000 <= e.year < 0x8000
  }

  /** The confirmation record after the decoder's callbacks. */
  function DcfAfter(r: DcfRecord, es: seq<DcfEvent>): DcfRecord
    requires forall i :: 0 <= i < |es| ==> ArgsFit(es[i])
  {
    if |es| == 0 then r
    else
      var r' := DcfAfter(r, es[..|es| - 1]);
      assert ArgsFit(es[|es| - 1]);
      match es[|es| - 1]
      case TimeReceived(min, hour, day, month, year) => DcfReceive(r', Decoded(min, hour, day, month, year))
      case _ => r'
  }

  /** Every callback of `onInterrupt` has arguments a 16-bit `int` holds: they come from `tm` fields. */
  lemma InterruptArgsFit(s: DcfState, now: uint64, val: int16)
    requires DcfValid(s)
    ensures var es := Interrupt(s, now, val).1; forall i :: 0 <= i < |es| ==> ArgsFit(es[i])
  {
    var dur := Wrap16(now - s.lastInterruptTime);
    if dur > DATA_END && s.streaming && s.currBit == BITS_NUMBER - 1 {
      var (_, t, events) := DecodeFrame(s.bits, s.dayTime);
      assert events == [] || events == [TimeReceived(t.min, t.hour, t.mday, t.mon, t.year)];
    }
  }

  lemma Assoc<T>(a: seq<T>, b: seq<T>, c: seq<T>)
    ensures a + (b + c) == a + b + c
  {}

  lemma GmTimeWeekdayRange(timer: uint32)
    ensures 0 <= GmTime(timer).wday < 7
  {
    GmTimeWeekdayFormula(timer);
  }

  // ---------------------------------------------------------------------
  // One pass of `periodic`, on the state it reads and writes
  // ---------------------------------------------------------------------

  /**
   * Everything `periodic` reads or writes besides the device calls: the
   * clock's own fields, the real-time clock, the confirmation record, the
   * decoder, and the setting screens' selections and records.
   */
  datatype Snapshot = Snapshot(screen: ScreenType, visible: bool, dayTime: Tm, clock: ClockState,
                               dcf: DcfRecord, decoder: DcfState, selection: Selection, settings: Settings)

  predicate SnapshotValid(st: Snapshot) {
    SettingsValid(st.settings) && 0 <= st.dayTime.wday < 7
  }

  /** A new state and the device calls made on the way there, in order. */
  datatype Step = Step(st: Snapshot, out: seq<Call>)

  /** The calls `asked` come first. */
  function After(asked: seq<Call>, s: Step): Step {
    Step(s.st, asked + s.out)
  }

  /** `updateLcd(change)`: `dayTime` is read from the clock, and the blink flag flips if asked. */
  function ShowLcd(st: Snapshot, change: bool): (r: Step)
    requires SnapshotValid(st)
    ensures SnapshotValid(r.st) && r.st.dayTime == GmTime(st.clock.timeSec)
    ensures r.st.visible == (st.visible != change) && r.st.(dayTime := st.dayTime, visible := st.visible) == st
  {
    GmTimeWeekdayRange(st.clock.timeSec);
    Step(st.(dayTime := GmTime(st.clock.timeSec), visible := st.visible != change), [LcdShow])
  }

  /** `setHomeScreen`. */
  function ToHomeScreen(st: Snapshot): (r: Step)
    requires SnapshotValid(st)
    ensures SnapshotValid(r.st) && r.st.screen == SCR_HOME && !r.st.visible
  {
    ShowLcd(st.(screen := SCR_HOME, visible := false), false)
  }

  /** The clock is set from an edited record, which `mktime` replaces by its normalised form. */
  function SetClock(st: Snapshot, t: Tm): (r: Snapshot)
    requires SnapshotValid(st)
    ensures SnapshotValid(r) && r.clock.timeSec == MkTime(t) && r.dayTime == GmTime(r.clock.timeSec)
  {
    GmTimeWeekdayRange(MkTime(t));
    st.(clock := ClockSetTime(st.clock, MkTime(t)), dayTime := GmTime(MkTime(t)))
  }

  /** `correctSeconds`: the time screen selects the seconds, and one second comes off `dayTime`. */
  function CorrectSecondsStep(st: Snapshot): (r: Step)
    requires SnapshotValid(st)
    ensures SnapshotValid(r.st) && r.st.selection.time == TS_SEC
    ensures r.st.clock.timeSec == MkTime(TimeModify(TS_SEC, st.dayTime, -1)) && r.st.settings == st.settings
  {
    Step(SetClock(st.(selection := st.selection.(time := TS_SEC)), TimeModify(TS_SEC, st.dayTime, -1)), RESET_EVENTS)
  }

  /** The edit of `modifyActiveElement(s)` on a screen other than home, before the LCD refresh. */
  function EditStep(st: Snapshot, s: int16, light: uint16): (r: Step)
    requires SnapshotValid(st) && st.screen != SCR_HOME
    ensures SnapshotValid(r.st) && r.st.screen == st.screen && r.st.selection == st.selection
    ensures st.screen == SCR_TIME_SETTING ==>
      && r.st.clock.timeSec == MkTime(TimeModify(st.selection.time, st.dayTime, s)) && r.st.settings == st.settings
      && r.st.dayTime == GmTime(r.st.clock.timeSec)
    ensures st.screen != SCR_TIME_SETTING ==>
      && r.st.clock == st.clock && r.st.dayTime == st.dayTime
      && r.st.settings == ModifySettings(st.settings, st.selection, st.screen, s)
  {
    if st.screen == SCR_TIME_SETTING then
      var st1 := SetClock(st, TimeModify(st.selection.time, st.dayTime, s));
      Step(st1, RESET_EVENTS + [SsdShow(st1.dayTime.hour, st1.dayTime.min)])
    else
      var settings := ModifySettings(st.settings, st.selection, st.screen, s);
      Step(st.(settings := settings),
           if st.screen == SCR_BRIGHTNESS then BrightnessCalls(settings.brightness, light) else [])
  }

  /** `modifyActiveElement(s)`: nothing on the home screen; an edit, then the element shown, elsewhere. */
  function ModifyStep(st: Snapshot, s: int16, light: uint16): (r: Step)
    requires SnapshotValid(st)
    ensures SnapshotValid(r.st) && r.st.screen == st.screen && r.st.selection == st.selection
    ensures st.screen != SCR_HOME ==> r.st.visible && r.st.dayTime == GmTime(r.st.clock.timeSec)
    ensures st.screen == SCR_TIME_SETTING ==>
      r.st.clock.timeSec == MkTime(TimeModify(st.selection.time, st.dayTime, s)) && r.st.settings == st.settings
    ensures st.screen != SCR_TIME_SETTING ==>
      r.st.clock == st.clock && r.st.settings == ModifySettings(st.settings, st.selection, st.screen, s)
  {
    if st.screen == SCR_HOME then Step(st, [])
    else
      var edit := EditStep(st, s, light);
      var lcd := ShowLcd(edit.st.(visible := true), false);
      Step(lcd.st, edit.out + lcd.out)
  }

  /** `dcfActivate(flag)`. */
  function DcfActivateStep(st: Snapshot, flag: bool): (r: Step)
    ensures r.st.dcf == INVALID_DCF && r.st.(dcf := st.dcf, decoder := st.decoder) == st
    ensures flag ==> r.st.decoder.currBit == -1 && !r.st.decoder.streaming
    ensures !flag ==> r.st.decoder == st.decoder
  {
    Step(st.(dcf := INVALID_DCF,
             decoder := if flag then st.decoder.(currBit := -1, streaming := false) else st.decoder),
         [Comparator(flag), if flag then LedOn(DcfPower) else LedOff(DcfPower)])
  }

  /** The DCF77 branch: the decoded time is set on the clock and becomes the last received time. */
  function ApplyDcfStep(st: Snapshot): (r: Step)
    requires SnapshotValid(st)
    ensures SnapshotValid(r.st) && r.st.clock == ClockSetTime(st.clock, MkTime(st.decoder.dayTime))
    ensures r.st.dcf == INVALID_DCF.(lastReceivedTime := MkTime(st.decoder.dayTime))
  {
    var off := DcfActivateStep(st, false);
    var sec := MkTime(st.decoder.dayTime);
    Step(off.st.(dcf := off.st.dcf.(lastReceivedTime := sec), decoder := off.st.decoder.(dayTime := GmTime(sec)),
                 clock := ClockSetTime(st.clock, sec)),
         off.out + RESET_EVENTS)
  }

  /** A short mode press: it silences a running alarm, or else moves to the next screen. */
  function ModePressStep(st: Snapshot, alarmRunning: bool): (r: Step)
    requires SnapshotValid(st)
    ensures SnapshotValid(r.st) && ResetEvent(ReturnToHome) in r.out && PiezoFinish in r.out
    ensures alarmRunning ==> r.st == st
    ensures !alarmRunning ==>
      && r.st.screen == NextScreen(st.screen) && r.st.selection == FirstOf(st.selection, r.st.screen)
      && (r.st.visible <==> r.st.screen != SCR_HOME)
  {
    var ack := [SetProcessed(ModeButton), ResetEvent(ReturnToHome), PiezoFinish];
    if alarmRunning then Step(st, ack)
    else
      var n := NextScreen(st.screen);
      Step(st.(screen := n, selection := FirstOf(st.selection, n), visible := n != SCR_HOME), ack + [LcdClear])
  }

  /** A long mode press: the receiver is switched on and the home screen shown. */
  function ModeLongPressStep(st: Snapshot): (r: Step)
    requires SnapshotValid(st)
    ensures SnapshotValid(r.st) && r.st.screen == SCR_HOME && !r.st.visible
    ensures r.st.dcf == INVALID_DCF && r.st.decoder.currBit == -1 && !r.st.decoder.streaming
  {
    var on := DcfActivateStep(st, true);
    After(on.out, ToHomeScreen(on.st))
  }

  /** An active-element press: it silences a running alarm, or else selects the next element. */
  function ElementPressStep(st: Snapshot, alarmRunning: bool): (r: Step)
    requires SnapshotValid(st)
    ensures SnapshotValid(r.st) && ResetEvent(ReturnToHome) in r.out
    ensures alarmRunning ==> r.st == st
    ensures !alarmRunning ==>
      && r.st.selection == NextOf(st.selection, st.screen, st.settings.brightness.isManual)
      && r.st.visible && r.st.screen == st.screen && r.st.settings == st.settings
      && ResetEvent(ActiveElementToggle) in r.out
  {
    var ack := [SetProcessed(ActiveElementButton), ResetEvent(ReturnToHome), PiezoFinish];
    if alarmRunning then Step(st, ack)
    else
      var sel := NextOf(st.selection, st.screen, st.settings.brightness.isManual);
      After(ack + [ResetEvent(ActiveElementToggle)], ShowLcd(st.(selection := sel, visible := true), false))
  }

  /** A press (or hold) of plus (s = 1) or minus (s = -1). */
  function StepPressStep(st: Snapshot, b: ButtonId, s: int16, r: Readings): (q: Step)
    requires SnapshotValid(st)
    ensures SnapshotValid(q.st) && q.st.screen == st.screen && PiezoFinish in q.out
    ensures r.alarmRunning ==> q.st == st
    ensures !r.alarmRunning ==> q.st == ModifyStep(st, s, r.light).st && ResetEvent(ReturnToHome) in q.out
  {
    var ack := [SetProcessed(b), PiezoFinish];
    if r.alarmRunning then Step(st, ack)
    else
      var m := ModifyStep(st, s, r.light);
      Step(m.st, ack + m.out + [ResetEvent(ReturnToHome), ResetButton(b)])
  }

  /** The second tick up to the brightness update. */
  function SecondShowStep(st: Snapshot, light: uint16): (r: Step)
    requires SnapshotValid(st)
    ensures SnapshotValid(r.st) && r.st.dayTime == GmTime(st.clock.timeSec)
    ensures r.st.visible == !st.visible && r.st.(dayTime := st.dayTime, visible := st.visible) == st
  {
    var lcd := ShowLcd(st, true);
    var t := lcd.st.dayTime;
    Step(lcd.st,
         [LedOff(DcfBitReceived), LedOff(DcfBitFailed), MeasureTemperature] + lcd.out
         + [ResetEvent(LedToggle), ResetEvent(ActiveElementToggle), LedToggled(LedSec1), LedToggled(LedSec2)]
         + (if t.sec < 5 then [SsdShow(t.hour, t.min)] else [])
         + BrightnessCalls(st.settings.brightness, light))
  }

  /** The seconds correction of the second tick: asked every tick, run and restarted when due. */
  function CorrectionStep(st: Snapshot, due: bool): (r: Step)
    requires SnapshotValid(st)
    ensures SnapshotValid(r.st) && r.st.settings == st.settings
    ensures !due ==> r.st == st
    ensures due ==> r.st.clock.timeSec == MkTime(TimeModify(TS_SEC, st.dayTime, -1))
    ensures due ==> r.st.dayTime == GmTime(r.st.clock.timeSec)
    ensures r.st.screen == st.screen && r.st.visible == st.visible
  {
    if due then
      var c := CorrectSecondsStep(st);
      Step(c.st, [IsOccured(SecondsCorrection)] + c.out + [ResetEvent(SecondsCorrection)])
    else Step(st, [IsOccured(SecondsCorrection)])
  }

  /** An active alarm matches the record `t`. */
  predicate AlarmsFire(settings: Settings, t: Tm)
    requires SettingsValid(settings) && 0 <= t.wday < 7
  {
    AlarmFires(settings.alarm1, t) || AlarmFires(settings.alarm2, t) || AlarmFires(settings.alarm3, t)
  }

  /** The second-tick branch; an alarm matching the (corrected) time starts a beep of 15 repetitions. */
  function SecondTickStep(st: Snapshot, r: Readings): (q: Step)
    requires SnapshotValid(st)
    ensures SnapshotValid(q.st) && q.st.settings == st.settings && q.st.dayTime == GmTime(q.st.clock.timeSec)
    ensures q.st.screen == st.screen && q.st.visible == !st.visible
  {
    var show := SecondShowStep(st, r.light);
    var corr := CorrectionStep(show.st, r.correctionDue);
    var fired := AlarmsFire(corr.st.settings, corr.st.dayTime);
    Step(corr.st, show.out + corr.out + (if fired then [PiezoStart(ALARM_BEEPS)] else []))
  }

  /** The end of a pass with no button and no second tick: the LED tick, then blinking before returning home. */
  function IdleStep(st: Snapshot, r: Readings): (q: Step)
    requires SnapshotValid(st)
    ensures SnapshotValid(q.st)
  {
    var leds := [IsOccured(LedToggle)] + (if r.ledTick then [LedToggled(LedSec1), LedToggled(LedSec2)] else []);
    if st.screen == SCR_HOME then Step(st, leds)
    else if r.blinkTick then After(leds + [IsOccured(ActiveElementToggle)], ShowLcd(st, true))
    else if r.homeTimeout then
      After(leds + [IsOccured(ActiveElementToggle), IsOccured(ReturnToHome)], ToHomeScreen(st))
    else Step(st, leds + [IsOccured(ActiveElementToggle), IsOccured(ReturnToHome)])
  }

  /** `isPressed()`, and `isLongPressed()` only when that was false. */
  function ButtonQueries(b: ButtonId, pressed: bool): seq<Call> {
    [IsPressed(b)] + (if pressed then [] else [IsLongPressed(b)])
  }

  /** One pass of `periodic`: who is asked, in which order, and the first branch that applies. */
  function PeriodicStep(st: Snapshot, r: Readings): (q: Step)
    requires SnapshotValid(st)
    ensures SnapshotValid(q.st)
  {
    var q0 := [PiezoPeriodic];
    if st.dcf.timeReceived then After(q0, ApplyDcfStep(st))
    else
      var q1 := q0 + [IsPressed(ModeButton)];
      if r.modePressed then After(q1, ModePressStep(st, r.alarmRunning))
      else
        var q2 := q1 + [IsLongPressed(ModeButton)];
        if r.modeLongPressed then After(q2, ModeLongPressStep(st))
        else
          var q3 := q2 + [IsPressed(ActiveElementButton)];
          if r.elementPressed then After(q3, ElementPressStep(st, r.alarmRunning))
          else After(q3, LaterStep(st, r))
  }

  /** The pass once neither the mode nor the active-element button was pressed. */
  function LaterStep(st: Snapshot, r: Readings): (q: Step)
    requires SnapshotValid(st)
    ensures SnapshotValid(q.st)
  {
    var q4 := ButtonQueries(PlusButton, r.plusPressed);
    if r.plusPressed || r.plusLongPressed then After(q4, StepPressStep(st, PlusButton, 1, r))
    else
      var q5 := q4 + ButtonQueries(MinusButton, r.minusPressed);
      if r.minusPressed || r.minusLongPressed then After(q5, StepPressStep(st, MinusButton, -1, r))
      else
        var q6 := q5 + [IsOccured(SecToggle)];
        if r.secondTick then After(q6, SecondTickStep(st, r))
        else After(q6, IdleStep(st, r))
  }

  /** The comparator interrupt: the decoder's new state, and its callbacks on the record. */
  function InterruptStep(st: Snapshot, now: uint64, val: int16): (q: Step)
    requires DcfValid(st.decoder)
    ensures DcfValid(q.st.decoder)
  {
    InterruptArgsFit(st.decoder, now, val);
    var (d, es) := Interrupt(st.decoder, now, val);
    Step(st.(decoder := d, dcf := DcfAfter(st.dcf, es)), AllHandlerCalls(es))
  }

  // ---------------------------------------------------------------------
  // Properties of a pass
  // ---------------------------------------------------------------------

  /** A button is handled in this pass. */
  predicate ButtonHandled(r: Readings) {
    r.modePressed || r.modeLongPressed || r.elementPressed
    || r.plusPressed || r.plusLongPressed || r.minusPressed || r.minusLongPressed
  }

  /**
   * A confirmed DCF77 time is applied before any button is looked at, and
   * the pass ends there: the clock gets the decoded time, which is also
   * the last received time, and a new confirmation must start over.
   */
  lemma DcfTimeFirst(st: Snapshot, r: Readings)
    requires SnapshotValid(st) && st.dcf.timeReceived
    ensures var q := PeriodicStep(st, r); var sec := MkTime(st.decoder.dayTime);
      && q.out == [PiezoPeriodic, Comparator(false), LedOff(DcfPower)] + RESET_EVENTS
      && q.st.clock == ClockSetTime(st.clock, sec)
      && q.st.dcf == INVALID_DCF.(lastReceivedTime := sec)
      && q.st.(clock := st.clock, dcf := st.dcf, decoder := st.decoder) == st
  {}

  /** Neither the second tick nor the LED tick is asked. */
  predicate NoTickQuery(cs: seq<Call>) {
    IsOccured(SecToggle) !in cs && IsOccured(LedToggle) !in cs
  }

  lemma NoTickAppend(a: seq<Call>, b: seq<Call>)
    requires NoTickQuery(a) && NoTickQuery(b)
    ensures NoTickQuery(a + b)
  {}

  /** A plus or minus press asks no tick: the edit restarts timers but asks none. */
  lemma ModifyNoTick(st: Snapshot, s: int16, light: uint16)
    requires SnapshotValid(st)
    ensures NoTickQuery(ModifyStep(st, s, light).out)
  {
    if st.screen != SCR_HOME {
      var edit := EditStep(st, s, light);
      assert NoTickQuery(RESET_EVENTS);
      assert NoTickQuery(edit.out);
      NoTickAppend(edit.out, [LcdShow]);
    }
  }

  /** The plus and minus buttons ask no tick once pressed. */
  lemma StepPressNoTick(st: Snapshot, r: Readings)
    requires SnapshotValid(st) && (r.plusPressed || r.plusLongPressed || r.minusPressed || r.minusLongPressed)
    ensures NoTickQuery(LaterStep(st, r).out)
  {
    var s: int16 := if r.plusPressed || r.plusLongPressed then 1 else -1;
    var b := if r.plusPressed || r.plusLongPressed then PlusButton else MinusButton;
    ModifyNoTick(st, s, r.light);
    var m := ModifyStep(st, s, r.light);
    NoTickAppend([SetProcessed(b), PiezoFinish], m.out);
    NoTickAppend([SetProcessed(b), PiezoFinish] + m.out, [ResetEvent(ReturnToHome), ResetButton(b)]);
    var x := StepPressStep(st, b, s, r);
    var q := ButtonQueries(PlusButton, r.plusPressed)
      + if b == PlusButton then [] else ButtonQueries(MinusButton, r.minusPressed);
    NoTickAppend(q, x.out);
  }

  /** A handled button ends the pass: neither the second tick nor the LED tick is asked. */
  lemma ButtonEndsPass(st: Snapshot, r: Readings)
    requires SnapshotValid(st) && !st.dcf.timeReceived && ButtonHandled(r)
    ensures NoTickQuery(PeriodicStep(st, r).out)
  {
    if r.modePressed || r.modeLongPressed {
      ModeButtonEndsPass(st, r);
    } else if r.elementPressed {
      ElementButtonEndsPass(st, r);
    } else {
      StepPressNoTick(st, r);
      NoTickAppend([PiezoPeriodic, IsPressed(ModeButton), IsLongPressed(ModeButton), IsPressed(ActiveElementButton)],
                   LaterStep(st, r).out);
    }
  }

  lemma ModeButtonEndsPass(st: Snapshot, r: Readings)
    requires SnapshotValid(st) && !st.dcf.timeReceived && (r.modePressed || r.modeLongPressed)
    ensures NoTickQuery(PeriodicStep(st, r).out)
  {
    if r.modePressed {
      NoTickAppend([PiezoPeriodic, IsPressed(ModeButton)], ModePressStep(st, r.alarmRunning).out);
    } else {
      NoTickAppend([PiezoPeriodic, IsPressed(ModeButton), IsLongPressed(ModeButton)], ModeLongPressStep(st).out);
    }
  }

  lemma ElementButtonEndsPass(st: Snapshot, r: Readings)
    requires SnapshotValid(st) && !st.dcf.timeReceived && !r.modePressed && !r.modeLongPressed && r.elementPressed
    ensures NoTickQuery(PeriodicStep(st, r).out)
  {
    NoTickAppend([PiezoPeriodic, IsPressed(ModeButton), IsLongPressed(ModeButton), IsPressed(ActiveElementButton)],
                 ElementPressStep(st, r.alarmRunning).out);
  }

  /**
   * A short mode press moves through the six screens in order, the
   * element shown exactly off the home screen, unless it only silenced a
   * running alarm; either way the return-home timer restarts.
   */
  lemma ModePressCycles(st: Snapshot, r: Readings)
    requires SnapshotValid(st) && !st.dcf.timeReceived && r.modePressed
    ensures var q := PeriodicStep(st, r);
      && ResetEvent(ReturnToHome) in q.out
      && (r.alarmRunning ==> q.st == st)
      && (!r.alarmRunning ==> q.st.screen == NextScreen(st.screen) && (q.st.visible <==> q.st.screen != SCR_HOME))
  {}

  /** Every button and the second tick, asked in this order when none of them is due. */
  const QUIET_QUERIES: seq<Call> := [
    PiezoPeriodic, IsPressed(ModeButton), IsLongPressed(ModeButton), IsPressed(ActiveElementButton),
    IsPressed(PlusButton), IsLongPressed(PlusButton), IsPressed(MinusButton), IsLongPressed(MinusButton),
    IsOccured(SecToggle)]

  /** Without a DCF77 time, a button or a second tick, the pass asks everything and goes on to the LED tick. */
  lemma QuietPass(st: Snapshot, r: Readings)
    requires SnapshotValid(st) && !st.dcf.timeReceived && !ButtonHandled(r) && !r.secondTick
    ensures PeriodicStep(st, r) == After(QUIET_QUERIES, IdleStep(st, r))
  {}

  /**
   * The LED tick does not end the pass: it is followed, off the home
   * screen, by the blink timer and, unless that fired, the return-home
   * timer.
   */
  lemma IdleOrder(st: Snapshot, r: Readings)
    requires SnapshotValid(st)
    ensures var q := IdleStep(st, r);
      && (r.ledTick ==> LedToggled(LedSec1) in q.out && LedToggled(LedSec2) in q.out)
      && (st.screen != SCR_HOME ==> IsOccured(ActiveElementToggle) in q.out)
      && (st.screen != SCR_HOME && r.blinkTick ==>
            IsOccured(ReturnToHome) !in q.out && q.st.screen == st.screen && q.st.visible == !st.visible)
      && (st.screen != SCR_HOME && !r.blinkTick && r.homeTimeout ==> q.st.screen == SCR_HOME)
      && (st.screen == SCR_HOME ==> q.st == st && q.out[1..] == (if r.ledTick then [LedToggled(LedSec1), LedToggled(LedSec2)] else []))
  {}

  /**
   * Without a button or a second tick, the LED tick falls through to the
   * screen timers; on a setting screen the blink timer is asked first and,
   * when it fires, the return-home timer is not asked at all.
   */
  lemma LedTickFallsThrough(st: Snapshot, r: Readings)
    requires SnapshotValid(st) && !st.dcf.timeReceived && !ButtonHandled(r) && !r.secondTick
    ensures var q := PeriodicStep(st, r);
      && (r.ledTick ==> LedToggled(LedSec1) in q.out && LedToggled(LedSec2) in q.out)
      && (st.screen != SCR_HOME ==> IsOccured(ActiveElementToggle) in q.out)
      && (st.screen != SCR_HOME && r.blinkTick ==>
            IsOccured(ReturnToHome) !in q.out && q.st.screen == st.screen && q.st.visible == !st.visible)
      && (st.screen != SCR_HOME && !r.blinkTick && r.homeTimeout ==> q.st.screen == SCR_HOME)
      && (st.screen == SCR_HOME ==> q.st == st)
  {
    QuietPass(st, r);
    IdleOrder(st, r);
    assert IsOccured(ReturnToHome) !in QUIET_QUERIES;
  }

  /**
   * The second tick reaches the alarm check with the clock's own time, or
   * with one second less when the correction was due; the buzzer is started
   * for 15 beeps exactly when an active alarm matches that time.
   */
  lemma SecondTickBeeps(st: Snapshot, r: Readings)
    requires SnapshotValid(st)
    ensures var q := SecondTickStep(st, r); var t := st.clock.timeSec;
      var now := if r.correctionDue then Wrap32(t - 1) else t;
      && q.st.clock.timeSec == now && q.st.dayTime == GmTime(now)
      && (PiezoStart(ALARM_BEEPS) in q.out <==> AlarmsFire(st.settings, GmTime(now)))
  {
    var show := SecondShowStep(st, r.light);
    var corr := CorrectionStep(show.st, r.correctionDue);
    assert show.st.clock == st.clock && show.st.dayTime == GmTime(st.clock.timeSec);
    if r.correctionDue {
      CorrectionIsOneSecond(st.clock.timeSec);
    }
    SecondShowQueriesNothing(st, r.light);
    assert PiezoStart(ALARM_BEEPS) !in show.out;
    assert PiezoStart(ALARM_BEEPS) !in corr.out by {
      assert forall c :: c in RESET_EVENTS ==> !c.PiezoStart?;
    }
  }

  /** With no DCF77 time and no button, a second tick is handled after every button has been asked. */
  lemma SecondTickPass(st: Snapshot, r: Readings)
    requires SnapshotValid(st) && !st.dcf.timeReceived && !ButtonHandled(r) && r.secondTick
    ensures PeriodicStep(st, r) == After(QUIET_QUERIES, SecondTickStep(st, r))
  {
    var q3 := [PiezoPeriodic, IsPressed(ModeButton), IsLongPressed(ModeButton), IsPressed(ActiveElementButton)];
    var q6 := ButtonQueries(PlusButton, false) + ButtonQueries(MinusButton, false) + [IsOccured(SecToggle)];
    var x := SecondTickStep(st, r);
    assert PeriodicStep(st, r) == After(q3, LaterStep(st, r));
    assert LaterStep(st, r) == After(q6, x);
    Assoc(q3, q6, x.out);
    assert q3 + q6 == QUIET_QUERIES;
  }

  /** The only timer the second tick asks is the seconds correction. */
  lemma SecondTickQueries(st: Snapshot, r: Readings)
    requires SnapshotValid(st)
    ensures forall c :: c in SecondTickStep(st, r).out && c.IsOccured? ==> c.e == SecondsCorrection
  {
    var show := SecondShowStep(st, r.light);
    var corr := CorrectionStep(show.st, r.correctionDue);
    var beep: seq<Call> := if AlarmsFire(corr.st.settings, corr.st.dayTime) then [PiezoStart(ALARM_BEEPS)] else [];
    assert SecondTickStep(st, r).out == show.out + corr.out + beep;
    SecondShowQueriesNothing(st, r.light);
    CorrectionQueries(show.st, r.correctionDue);
  }

  /** The seconds correction asks only its own timer. */
  lemma CorrectionQueries(st: Snapshot, due: bool)
    requires SnapshotValid(st)
    ensures forall c :: c in CorrectionStep(st, due).out && c.IsOccured? ==> c.e == SecondsCorrection
  {
    assert forall c :: c in RESET_EVENTS ==> !c.IsOccured?;
  }

  /** The display part of the second tick asks no timer. */
  lemma SecondShowQueriesNothing(st: Snapshot, light: uint16)
    requires SnapshotValid(st)
    ensures forall c :: c in SecondShowStep(st, light).out ==> !c.IsOccured?
  {
    assert forall c :: c in BrightnessCalls(st.settings.brightness, light) ==> !c.IsOccured?;
  }

  /** The second tick refreshes the big display with the hour and minute exactly in seconds 0 to 4. */
  lemma SecondShowSsd(st: Snapshot, light: uint16)
    requires SnapshotValid(st)
    ensures var q := SecondShowStep(st, light); var t := GmTime(st.clock.timeSec);
      && (t.sec < 5 ==> SsdShow(t.hour, t.min) in q.out)
      && (t.sec >= 5 ==> forall c :: c in q.out ==> !c.SsdShow?)
  {
    assert forall c :: c in BrightnessCalls(st.settings.brightness, light) ==> !c.SsdShow?;
  }

  /**
   * A second tick ends the pass: after every button and the second tick
   * have been asked, neither the LED tick, the blink timer nor the
   * return-home timer is.
   */
  lemma SecondTickEndsPass(st: Snapshot, r: Readings)
    requires SnapshotValid(st) && !st.dcf.timeReceived && !ButtonHandled(r) && r.secondTick
    ensures var q := PeriodicStep(st, r);
      && IsOccured(LedToggle) !in q.out && IsOccured(ActiveElementToggle) !in q.out
      && IsOccured(ReturnToHome) !in q.out
  {
    SecondTickPass(st, r);
    SecondTickQueries(st, r);
    assert forall c :: c in QUIET_QUERIES && c.IsOccured? ==> c.e == SecToggle;
  }

  /** `modifyActiveElement` on the home screen changes nothing and calls nothing. */
  lemma ModifyOnHomeIsNoop(st: Snapshot, s: int16, light: uint16)
    requires SnapshotValid(st) && st.screen == SCR_HOME
    ensures ModifyStep(st, s, light) == Step(st, [])
  {}

  /** The seconds correction sets the clock back by exactly one second (modulo 2^32). */
  lemma CorrectionIsOneSecond(timer: uint32)
    ensures MkTime(TimeModify(TS_SEC, GmTime(timer), -1)) == Wrap32(timer - 1)
  {
    GmTimeCorrect(timer);
    TimeModifySeconds(GmTime(timer), -1);
    MkTimeOfGmTime(timer);
  }

  // ---------------------------------------------------------------------
  // DigitalClock
  // ---------------------------------------------------------------------

  /** The clock's peripherals, recorded as the calls made to them, oldest first. */
  class Devices {
    var calls: seq<Call>

    constructor ()
      ensures calls == []
    {
      calls := [];
    }
  }

  class DigitalClock {
    const rtc: RealTimeClock
    const dcfSignal: Dcf77
    const dcfData: DcfData
    const timeSetting: TimeSetting
    const brightnessSetting: BrightnessSetting
    const alarmSetting1: AlarmSetting
    const alarmSetting2: AlarmSetting
    const alarmSetting3: AlarmSetting
    /** `alarms[]`, filled by `init`. */
    const alarms: seq<AlarmSetting>
    var activeScreen: ScreenType
    var activeElementVisible: bool
    var dayTime: Tm
    /** The peripherals that `Readings` answers for. */
    const devices: Devices

    predicate Valid()
      reads this, rtc, dcfSignal, dcfSignal.bits
    {
      && rtc.Valid() && dcfSignal.Valid() && dcfSignal.clock == rtc
      && alarms == [alarmSetting1, alarmSetting2, alarmSetting3]
      && alarmSetting1 != alarmSetting2 && alarmSetting1 != alarmSetting3 && alarmSetting2 != alarmSetting3
      && alarmSetting1.days != alarmSetting2.days && alarmSetting1.days != alarmSetting3.days
      && alarmSetting2.days != alarmSetting3.days
      && alarmSetting1.days.Length == 7 && alarmSetting2.days.Length == 7 && alarmSetting3.days.Length == 7
      && 0 <= dayTime.wday < 7
    }

    function Selected(): Selection
      reads timeSetting, brightnessSetting, alarmSetting1, alarmSetting2, alarmSetting3
    {
      Selection(timeSetting.activeElement, brightnessSetting.activeElement,
                alarmSetting1.activeElement, alarmSetting2.activeElement, alarmSetting3.activeElement)
    }

    function Stored(): Settings
      reads brightnessSetting, alarmSetting1, alarmSetting1.days, alarmSetting2, alarmSetting2.days,
            alarmSetting3, alarmSetting3.days
    {
      Settings(brightnessSetting.data, alarmSetting1.Model(), alarmSetting2.Model(), alarmSetting3.Model())
    }

    function State(): Snapshot
      reads this, rtc, dcfData, dcfSignal, dcfSignal.bits, timeSetting, brightnessSetting,
            alarmSetting1, alarmSetting1.days, alarmSetting2, alarmSetting2.days, alarmSetting3, alarmSetting3.days
    {
      Snapshot(activeScreen, activeElementVisible, dayTime, rtc.Model(), dcfData.Model(), dcfSignal.Model(),
               Selected(), Stored())
    }

    /** `isDcfTimeAvailable`. */
    predicate IsDcfTimeAvailable()
      reads dcfData
    {
      dcfData.lastReceivedTime != INFINITY_SEC
    }

    /**
     * The parts the firmware constructs: the screens read their records
     * (`brightness`, `alarm1` to `alarm3`) from EEPROM, the home screen is
     * active and the active element hidden.
     */
    constructor (rtc: RealTimeClock, brightness: BrightnessData, alarm1: AlarmData, alarm2: AlarmData, alarm3: AlarmData)
      requires rtc.Valid() && |alarm1.days| == 7 && |alarm2.days| == 7 && |alarm3.days| == 7
      ensures Valid() && this.rtc == rtc && fresh(dcfData) && fresh(dcfSignal)
      ensures activeScreen == SCR_HOME && !activeElementVisible && fresh(devices) && devices.calls == []
      ensures dcfData.Model() == INVALID_DCF && dcfData.dcfUpdatePeriod == 3600
      ensures Selected() == Selection(TS_DAY, BS_MODE, AS_ACTIVE, AS_ACTIVE, AS_ACTIVE)
      ensures Stored() == Settings(brightness, alarm1, alarm2, alarm3)
    {
      this.rtc := rtc;
      dcfSignal := new Dcf77(rtc);
      dcfData := new DcfData();
      timeSetting := new TimeSetting();
      brightnessSetting := new BrightnessSetting(brightness);
      var a1 := new AlarmSetting(1, alarm1);
      var a2 := new AlarmSetting(2, alarm2);
      var a3 := new AlarmSetting(3, alarm3);
      alarmSetting1, alarmSetting2, alarmSetting3 := a1, a2, a3;
      alarms := [a1, a2, a3];
      activeScreen := SCR_HOME;
      activeElementVisible := false;
      dayTime := Tm(0, 0, 0, 0, 0, 0, 0, 0, 0);
      devices := new Devices();
    }

    lemma StateValid()
      requires Valid()
      ensures SnapshotValid(State())
    {}

    /** `resetEvents`. */
    method ResetEvents()
      modifies devices
      ensures devices.calls == old(devices.calls) + RESET_EVENTS
    {
      devices.calls := devices.calls + RESET_EVENTS;
    }

    /** `updateLcd`. */
    method UpdateLcd(changeActiveElement: bool)
      requires Valid()
      modifies this, devices
      ensures Valid() && SnapshotValid(old(State()))
      ensures var q := ShowLcd(old(State()), changeActiveElement); State() == q.st && devices.calls == old(devices.calls) + q.out
    {
      StateValid();
      dayTime := GmTime(rtc.timeSec);
      GmTimeWeekdayRange(rtc.timeSec);
      devices.calls := devices.calls + [LcdShow];
      if changeActiveElement {
        activeElementVisible := !activeElementVisible;
      }
    }

    /** `updateSsd`: hours and minutes on the seven-segment display. */
    method UpdateSsd()
      modifies devices
      ensures devices.calls == old(devices.calls) + [SsdShow(dayTime.hour, dayTime.min)]
    {
      devices.calls := devices.calls + [SsdShow(dayTime.hour, dayTime.min)];
    }

    /** `updateBrightness` with the ADC reading `light`. */
    method UpdateBrightness(light: uint16)
      modifies devices
      ensures devices.calls == old(devices.calls) + BrightnessCalls(brightnessSetting.data, light)
    {
      if brightnessSetting.data.isManual {
        devices.calls := devices.calls + [DacPutValue(brightnessSetting.data.manValue)];
      } else {
        var currLight := light / 8;
        if currLight > 100 {
          currLight := 100;
        }
        devices.calls := devices.calls + [ReadLight, DacPutValue(100 - currLight)];
      }
    }

    /** `screens[activeScreen]->setFirst()`. */
    method SelectFirst()
      requires Valid()
      modifies timeSetting, brightnessSetting, alarmSetting1, alarmSetting2, alarmSetting3
      ensures Selected() == FirstOf(old(Selected()), activeScreen) && Stored() == old(Stored())
    {
      match activeScreen {
        case 0 =>
        case 1 => timeSetting.SetFirst();
        case 2 => brightnessSetting.SetFirst();
        case 3 => alarmSetting1.SetFirst();
        case 4 => alarmSetting2.SetFirst();
        case 5 => alarmSetting3.SetFirst();
      }
    }

    /** `screens[activeScreen]->setNext()`. */
    method SelectNext()
      requires Valid()
      modifies timeSetting, brightnessSetting, alarmSetting1, alarmSetting2, alarmSetting3
      ensures Selected() == NextOf(old(Selected()), activeScreen, brightnessSetting.data.isManual)
      ensures Stored() == old(Stored())
    {
      match activeScreen {
        case 0 =>
        case 1 => timeSetting.SetNext();
        case 2 => brightnessSetting.SetNext();
        case 3 => alarmSetting1.SetNext();
        case 4 => alarmSetting2.SetNext();
        case 5 => alarmSetting3.SetNext();
      }
    }

    /** `setHomeScreen`. */
    method SetHomeScreen()
      requires Valid()
      modifies this, devices
      ensures Valid() && SnapshotValid(old(State()))
      ensures var q := ToHomeScreen(old(State())); State() == q.st && devices.calls == old(devices.calls) + q.out
    {
      StateValid();
      activeScreen := SCR_HOME;
      activeElementVisible := false;
      UpdateLcd(false);
    }

    /** `rtc->setTime(mktime(t))`, `mktime` writing the normalised record back into `dayTime`. */
    method SetClockFrom(t: Tm)
      requires Valid()
      modifies this, rtc
      ensures Valid() && SnapshotValid(old(State()))
      ensures State() == SetClock(old(State()), t)
    {
      StateValid();
      var sec, t' := MkTimeWriteBack(t);
      dayTime := t';
      rtc.SetTime(sec);
    }

    /** `correctSeconds`. */
    method CorrectSeconds()
      requires Valid()
      modifies this, devices, rtc, timeSetting
      ensures Valid() && SnapshotValid(old(State()))
      ensures var q := CorrectSecondsStep(old(State())); State() == q.st && devices.calls == old(devices.calls) + q.out
    {
      StateValid();
      timeSetting.SetActiveElement(TS_SEC);
      var t := timeSetting.ModifyValue(dayTime, -1);
      SetClockFrom(t);
      ResetEvents();
    }

    /** The edit of `modifyActiveElement(s)`, before the element is shown. */
    method Edit(s: int16, light: uint16)
      requires Valid() && activeScreen != SCR_HOME
      modifies this, devices, rtc, brightnessSetting, alarmSetting1, alarmSetting1.days,
               alarmSetting2, alarmSetting2.days, alarmSetting3, alarmSetting3.days
      ensures Valid() && SnapshotValid(old(State()))
      ensures var q := EditStep(old(State()), s, light); State() == q.st && devices.calls == old(devices.calls) + q.out
    {
      StateValid();
      match activeScreen {
        case 1 =>
          var t := timeSetting.ModifyValue(dayTime, s);
          SetClockFrom(t);
          ResetEvents();
          UpdateSsd();
          Assoc(old(devices.calls), RESET_EVENTS, [SsdShow(dayTime.hour, dayTime.min)]);
        case 2 =>
          brightnessSetting.ModifyValue(s);
          UpdateBrightness(light);
        case 3 => alarmSetting1.ModifyValue(s);
        case 4 => alarmSetting2.ModifyValue(s);
        case 5 => alarmSetting3.ModifyValue(s);
      }
    }

    /** `modifyActiveElement(s)`. */
    method ModifyActiveElement(s: int16, light: uint16)
      requires Valid()
      modifies this, devices, rtc, brightnessSetting, alarmSetting1, alarmSetting1.days,
               alarmSetting2, alarmSetting2.days, alarmSetting3, alarmSetting3.days
      ensures Valid() && SnapshotValid(old(State()))
      ensures var q := ModifyStep(old(State()), s, light); State() == q.st && devices.calls == old(devices.calls) + q.out
    {
      StateValid();
      if activeScreen == SCR_HOME {
        return;
      }
      ghost var edit := EditStep(State(), s, light);
      Edit(s, light);
      StateValid();
      ghost var lcd := ShowLcd(State().(visible := true), false);
      activeElementVisible := true;
      UpdateLcd(false);
      Assoc(old(devices.calls), edit.out, lcd.out);
    }

    /** `dcfActivate(flag)`. */
    method DcfActivate(flag: bool)
      requires Valid()
      modifies devices, dcfData, dcfSignal
      ensures Valid() && dcfData.dcfUpdatePeriod == old(dcfData.dcfUpdatePeriod)
      ensures var q := DcfActivateStep(old(State()), flag); State() == q.st && devices.calls == old(devices.calls) + q.out
    {
      dcfData.InvalidateTime();
      if flag {
        dcfSignal.TurnOn();
      }
      devices.calls := devices.calls + [Comparator(flag), if flag then LedOn(DcfPower) else LedOff(DcfPower)];
    }

    /** The DCF77 branch of `periodic`. */
    method ApplyDcfTime()
      requires Valid()
      modifies devices, dcfData, dcfSignal, rtc
      ensures Valid() && SnapshotValid(old(State()))
      ensures var q := ApplyDcfStep(old(State())); State() == q.st && devices.calls == old(devices.calls) + q.out
    {
      StateValid();
      ghost var off := DcfActivateStep(State(), false);
      DcfActivate(false);
      var sec, t' := MkTimeWriteBack(dcfSignal.dayTime);
      dcfSignal.dayTime := t';
      dcfData.lastReceivedTime := sec;
      rtc.SetTime(dcfData.lastReceivedTime);
      ResetEvents();
      Assoc(old(devices.calls), off.out, RESET_EVENTS);
    }

    /** The alarm check of the second tick: the loop over `alarms[]`, leaving at the first match. */
    method AlarmOccured() returns (fired: bool)
      requires Valid()
      ensures SettingsValid(Stored()) && (fired <==> AlarmsFire(Stored(), dayTime))
    {
      fired := false;
      var a := 0;
      while a < ALARMS_NUMBER
        invariant 0 <= a <= ALARMS_NUMBER
        invariant forall k :: 0 <= k < a ==> !AlarmFires(alarms[k].Model(), dayTime)
      {
        if alarms[a].IsOccured(dayTime) {
          fired := true;
          break;
        }
        a := a + 1;
      }
      assert alarms[0] == alarmSetting1 && alarms[1] == alarmSetting2 && alarms[2] == alarmSetting3;
    }

    /** The second tick up to the brightness update. */
    method SecondShow(light: uint16)
      requires Valid()
      modifies this, devices
      ensures Valid() && SnapshotValid(old(State()))
      ensures var q := SecondShowStep(old(State()), light); State() == q.st && devices.calls == old(devices.calls) + q.out
    {
      StateValid();
      var a := [LedOff(DcfBitReceived), LedOff(DcfBitFailed), MeasureTemperature];
      devices.calls := devices.calls + a;
      StateValid();
      ghost var lcd := ShowLcd(State(), true);
      UpdateLcd(true);
      Assoc(old(devices.calls), a, lcd.out);
      var b := [ResetEvent(LedToggle), ResetEvent(ActiveElementToggle), LedToggled(LedSec1), LedToggled(LedSec2)];
      devices.calls := devices.calls + b;
      Assoc(old(devices.calls), a + lcd.out, b);
      ghost var ssd := if dayTime.sec < 5 then [SsdShow(dayTime.hour, dayTime.min)] else [];
      if dayTime.sec < 5 {
        UpdateSsd();
      }
      Assoc(old(devices.calls), a + lcd.out + b, ssd);
      UpdateBrightness(light);
      Assoc(old(devices.calls), a + lcd.out + b + ssd, BrightnessCalls(brightnessSetting.data, light));
    }

    /** `secondsCorrection.isOccured()` and, when it fired, `correctSeconds` and the event's restart. */
    method Correction(due: bool)
      requires Valid()
      modifies this, devices, rtc, timeSetting
      ensures Valid() && SnapshotValid(old(State()))
      ensures var q := CorrectionStep(old(State()), due); State() == q.st && devices.calls == old(devices.calls) + q.out
    {
      StateValid();
      devices.calls := devices.calls + [IsOccured(SecondsCorrection)];
      if due {
        CorrectSeconds();
        Assoc(old(devices.calls), [IsOccured(SecondsCorrection)], RESET_EVENTS);
        devices.calls := devices.calls + [ResetEvent(SecondsCorrection)];
        Assoc(old(devices.calls), [IsOccured(SecondsCorrection)] + RESET_EVENTS, [ResetEvent(SecondsCorrection)]);
      }
    }

    /** The second-tick branch of `periodic`. */
    method SecondTick(r: Readings)
      requires Valid()
      modifies this, devices, rtc, timeSetting
      ensures Valid() && SnapshotValid(old(State()))
      ensures var q := SecondTickStep(old(State()), r); State() == q.st && devices.calls == old(devices.calls) + q.out
    {
      StateValid();
      ghost var show := SecondShowStep(State(), r.light);
      SecondShow(r.light);
      StateValid();
      ghost var corr := CorrectionStep(State(), r.correctionDue);
      Correction(r.correctionDue);
      Assoc(old(devices.calls), show.out, corr.out);
      var alarmOccured := AlarmOccured();
      ghost var beep := if alarmOccured then [PiezoStart(ALARM_BEEPS)] else [];
      if alarmOccured {
        devices.calls := devices.calls + [PiezoStart(ALARM_BEEPS)];
      }
      Assoc(old(devices.calls), show.out + corr.out, beep);
    }

    /** The short mode press branch of `periodic`. */
    method ModePress(alarmRunning: bool)
      requires Valid()
      modifies this, devices, timeSetting, brightnessSetting, alarmSetting1, alarmSetting2, alarmSetting3
      ensures Valid() && SnapshotValid(old(State()))
      ensures var q := ModePressStep(old(State()), alarmRunning); State() == q.st && devices.calls == old(devices.calls) + q.out
    {
      StateValid();
      var ack := [SetProcessed(ModeButton), ResetEvent(ReturnToHome), PiezoFinish];
      devices.calls := devices.calls + ack;
      if alarmRunning {
        return;
      }
      devices.calls := devices.calls + [LcdClear];
      Assoc(old(devices.calls), ack, [LcdClear]);
      activeScreen := NextScreen(activeScreen);
      SelectFirst();
      activeElementVisible := activeScreen != SCR_HOME;
    }

    /** The long mode press branch of `periodic`. */
    method ModeLongPress()
      requires Valid()
      modifies this, devices, dcfData, dcfSignal
      ensures Valid() && SnapshotValid(old(State()))
      ensures var q := ModeLongPressStep(old(State())); State() == q.st && devices.calls == old(devices.calls) + q.out
    {
      StateValid();
      ghost var on := DcfActivateStep(State(), true);
      DcfActivate(true);
      StateValid();
      ghost var home := ToHomeScreen(State());
      SetHomeScreen();
      Assoc(old(devices.calls), on.out, home.out);
    }

    /** The active-element button branch of `periodic`. */
    method ElementPress(alarmRunning: bool)
      requires Valid()
      modifies this, devices, timeSetting, brightnessSetting, alarmSetting1, alarmSetting2, alarmSetting3
      ensures Valid() && SnapshotValid(old(State()))
      ensures var q := ElementPressStep(old(State()), alarmRunning); State() == q.st && devices.calls == old(devices.calls) + q.out
    {
      StateValid();
      var ack := [SetProcessed(ActiveElementButton), ResetEvent(ReturnToHome), PiezoFinish];
      devices.calls := devices.calls + ack;
      if alarmRunning {
        return;
      }
      SelectNext();
      devices.calls := devices.calls + [ResetEvent(ActiveElementToggle)];
      Assoc(old(devices.calls), ack, [ResetEvent(ActiveElementToggle)]);
      activeElementVisible := true;
      StateValid();
      ghost var lcd := ShowLcd(State(), false);
      UpdateLcd(false);
      Assoc(old(devices.calls), ack + [ResetEvent(ActiveElementToggle)], lcd.out);
    }

    /** The plus and minus branches of `periodic`, for button `b` and step `s`. */
    method StepPress(b: ButtonId, s: int16, r: Readings)
      requires Valid()
      modifies this, devices, rtc, brightnessSetting, alarmSetting1, alarmSetting1.days,
               alarmSetting2, alarmSetting2.days, alarmSetting3, alarmSetting3.days
      ensures Valid() && SnapshotValid(old(State()))
      ensures var q := StepPressStep(old(State()), b, s, r); State() == q.st && devices.calls == old(devices.calls) + q.out
    {
      StateValid();
      var ack := [SetProcessed(b), PiezoFinish];
      devices.calls := devices.calls + ack;
      if r.alarmRunning {
        return;
      }
      StateValid();
      ghost var m := ModifyStep(State(), s, r.light);
      ModifyActiveElement(s, r.light);
      Assoc(old(devices.calls), ack, m.out);
      var tail := [ResetEvent(ReturnToHome), ResetButton(b)];
      devices.calls := devices.calls + tail;
      Assoc(old(devices.calls), ack + m.out, tail);
    }

    /** The end of `periodic` when no button was handled and the second did not tick. */
    method Idle(r: Readings)
      requires Valid()
      modifies this, devices
      ensures Valid() && SnapshotValid(old(State()))
      ensures var q := IdleStep(old(State()), r); State() == q.st && devices.calls == old(devices.calls) + q.out
    {
      StateValid();
      var leds := [IsOccured(LedToggle)] + (if r.ledTick then [LedToggled(LedSec1), LedToggled(LedSec2)] else []);
      devices.calls := devices.calls + [IsOccured(LedToggle)];
      if r.ledTick {
        devices.calls := devices.calls + [LedToggled(LedSec1), LedToggled(LedSec2)];
      }
      Assoc(old(devices.calls), [IsOccured(LedToggle)], leds[1..]);
      assert devices.calls == old(devices.calls) + leds;
      if activeScreen != SCR_HOME {
        devices.calls := devices.calls + [IsOccured(ActiveElementToggle)];
        Assoc(old(devices.calls), leds, [IsOccured(ActiveElementToggle)]);
        var q1 := leds + [IsOccured(ActiveElementToggle)];
        if r.blinkTick {
          StateValid();
          ghost var lcd := ShowLcd(State(), true);
          UpdateLcd(true);
          Assoc(old(devices.calls), q1, lcd.out);
        } else {
          devices.calls := devices.calls + [IsOccured(ReturnToHome)];
          Assoc(old(devices.calls), q1, [IsOccured(ReturnToHome)]);
          assert leds + [IsOccured(ActiveElementToggle), IsOccured(ReturnToHome)] == q1 + [IsOccured(ReturnToHome)];
          if r.homeTimeout {
            StateValid();
            ghost var home := ToHomeScreen(State());
            SetHomeScreen();
            Assoc(old(devices.calls), q1 + [IsOccured(ReturnToHome)], home.out);
          }
        }
      }
    }

    /** `periodic`: the devices answer as `r` says. */
    method Periodic(r: Readings)
      requires Valid()
      modifies this, devices, rtc, dcfData, dcfSignal, timeSetting, brightnessSetting,
               alarmSetting1, alarmSetting1.days, alarmSetting2, alarmSetting2.days, alarmSetting3, alarmSetting3.days
      ensures Valid() && SnapshotValid(old(State()))
      ensures var q := PeriodicStep(old(State()), r); State() == q.st && devices.calls == old(devices.calls) + q.out
    {
      StateValid();
      ghost var st := State();
      ghost var q: seq<Call> := [PiezoPeriodic];
      devices.calls := devices.calls + [PiezoPeriodic];
      if dcfData.timeReceived {
        ghost var x := ApplyDcfStep(st);
        ApplyDcfTime();
        Assoc(old(devices.calls), q, x.out);
        return;
      }
      devices.calls := devices.calls + [IsPressed(ModeButton)];
      Assoc(old(devices.calls), q, [IsPressed(ModeButton)]);
      q := q + [IsPressed(ModeButton)];
      if r.modePressed {
        ghost var x := ModePressStep(st, r.alarmRunning);
        ModePress(r.alarmRunning);
        Assoc(old(devices.calls), q, x.out);
        return;
      }
      devices.calls := devices.calls + [IsLongPressed(ModeButton)];
      Assoc(old(devices.calls), q, [IsLongPressed(ModeButton)]);
      q := q + [IsLongPressed(ModeButton)];
      if r.modeLongPressed {
        ghost var x := ModeLongPressStep(st);
        ModeLongPress();
        Assoc(old(devices.calls), q, x.out);
        return;
      }
      devices.calls := devices.calls + [IsPressed(ActiveElementButton)];
      Assoc(old(devices.calls), q, [IsPressed(ActiveElementButton)]);
      q := q + [IsPressed(ActiveElementButton)];
      if r.elementPressed {
        ghost var x := ElementPressStep(st, r.alarmRunning);
        ElementPress(r.alarmRunning);
        Assoc(old(devices.calls), q, x.out);
        return;
      }
      ghost var x := LaterStep(st, r);
      Later(r);
      Assoc(old(devices.calls), q, x.out);
    }

    /** The plus and minus buttons and the timers, once no other button was pressed. */
    method Later(r: Readings)
      requires Valid()
      modifies this, devices, rtc, timeSetting, brightnessSetting,
               alarmSetting1, alarmSetting1.days, alarmSetting2, alarmSetting2.days, alarmSetting3, alarmSetting3.days
      ensures Valid() && SnapshotValid(old(State()))
      ensures var q := LaterStep(old(State()), r); State() == q.st && devices.calls == old(devices.calls) + q.out
    {
      StateValid();
      ghost var st := State();
      devices.calls := devices.calls + ButtonQueries(PlusButton, r.plusPressed);
      ghost var q := ButtonQueries(PlusButton, r.plusPressed);
      if r.plusPressed || r.plusLongPressed {
        ghost var x := StepPressStep(st, PlusButton, 1, r);
        StepPress(PlusButton, 1, r);
        Assoc(old(devices.calls), q, x.out);
        return;
      }
      devices.calls := devices.calls + ButtonQueries(MinusButton, r.minusPressed);
      Assoc(old(devices.calls), q, ButtonQueries(MinusButton, r.minusPressed));
      q := q + ButtonQueries(MinusButton, r.minusPressed);
      if r.minusPressed || r.minusLongPressed {
        ghost var x := StepPressStep(st, MinusButton, -1, r);
        StepPress(MinusButton, -1, r);
        Assoc(old(devices.calls), q, x.out);
        return;
      }
      devices.calls := devices.calls + [IsOccured(SecToggle)];
      Assoc(old(devices.calls), q, [IsOccured(SecToggle)]);
      q := q + [IsOccured(SecToggle)];
      if r.secondTick {
        ghost var x := SecondTickStep(st, r);
        SecondTick(r);
        Assoc(old(devices.calls), q, x.out);
        return;
      }
      ghost var x := IdleStep(st, r);
      Idle(r);
      Assoc(old(devices.calls), q, x.out);
    }

    /** `onTimeReceived`: one beep, and the decoded time goes to the confirmation record. */
    method OnTimeReceived(min: int16, hour: int16, day: int16, month: int16, year: int16)
      modifies devices, dcfData
      ensures State() == old(State()).(dcf := DcfReceive(old(dcfData.Model()), Decoded(min, hour, day, month, year)))
      ensures devices.calls == old(devices.calls) + [PiezoStart(DCF_BEEPS)] && dcfData.dcfUpdatePeriod == old(dcfData.dcfUpdatePeriod)
    {
      devices.calls := devices.calls + [PiezoStart(DCF_BEEPS)];
      dcfData.OnTimeReceived(min, hour, day, month, year);
    }

    /** `onBitReceived`. */
    method OnBitReceived()
      modifies devices
      ensures State() == old(State()) && devices.calls == old(devices.calls) + [LedOn(DcfBitReceived)]
    {
      devices.calls := devices.calls + [LedOn(DcfBitReceived)];
    }

    /** `onBitFailed`. */
    method OnBitFailed()
      modifies devices
      ensures State() == old(State()) && devices.calls == old(devices.calls) + [LedOn(DcfBitFailed)]
    {
      devices.calls := devices.calls + [LedOn(DcfBitFailed)];
    }

    /** The decoder's callbacks, in the order it makes them. */
    method Dispatch(events: seq<DcfEvent>)
      requires forall i :: 0 <= i < |events| ==> ArgsFit(events[i])
      modifies devices, dcfData
      ensures State() == old(State()).(dcf := DcfAfter(old(dcfData.Model()), events))
      ensures devices.calls == old(devices.calls) + AllHandlerCalls(events) && dcfData.dcfUpdatePeriod == old(dcfData.dcfUpdatePeriod)
    {
      for i := 0 to |events|
        invariant State() == old(State()).(dcf := DcfAfter(old(dcfData.Model()), events[..i]))
        invariant devices.calls == old(devices.calls) + AllHandlerCalls(events[..i])
        invariant dcfData.dcfUpdatePeriod == old(dcfData.dcfUpdatePeriod)
      {
        assert events[..i + 1][..i] == events[..i];
        assert ArgsFit(events[i]);
        match events[i]
        case BitReceived => OnBitReceived();
        case BitFailed => OnBitFailed();
        case TimeReceived(min, hour, day, month, year) =>
          OnTimeReceived(min as int16, hour as int16, day as int16, month as int16, year as int16);
        Assoc(old(devices.calls), AllHandlerCalls(events[..i]), HandlerCalls(events[i]));
      }
      assert events[..|events|] == events;
    }

    /** The comparator interrupt: the decoder measures the edge, then its callbacks run. */
    method OnComparatorInterrupt(val: int16)
      requires Valid()
      modifies devices, dcfData, dcfSignal, dcfSignal.bits
      ensures Valid() && SnapshotValid(old(State())) && DcfValid(old(State()).decoder)
      ensures var q := InterruptStep(old(State()), rtc.timeMillisec, val); State() == q.st && devices.calls == old(devices.calls) + q.out
    {
      StateValid();
      var events := dcfSignal.OnInterrupt(val);
      InterruptArgsFit(old(dcfSignal.Model()), rtc.timeMillisec, val);
      Dispatch(events);
    }
  }
}
