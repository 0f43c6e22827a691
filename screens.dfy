/*
 * Editing screens of the clock: the cyclic increment used by every edit,
 * the time-setting screen (which edits the clock's `tm` record), the
 * brightness screen and the three alarm screens. Only the in-memory data
 * records are modelled; their EEPROM copies are an input of the
 * constructors.
 */
module Screens {
  import opened FixedWidth
  import opened Calendar

  /**
   * `cicleIncrement` on `unsigned char`: a step past `max` comes back to
   * `min` and a step below `min` goes to `max`; any other step is the
   * 8-bit sum.
   */
  function CicleIncrement(val: uint8, s: int16, min: uint8, max: uint8): (r: uint8)
    ensures min <= val <= max && (s == 1 || s == -1) ==> min <= r <= max
  {
    if s > 0 && val == max then min
    else if s < 0 && val == min then max
    else Wrap8(val + s)
  }

  /** Inside its range, a unit step is addition modulo the length of the range. */
  lemma CicleIncrementModular(val: uint8, s: int16, min: uint8, max: uint8)
    requires min <= val <= max && (s == 1 || s == -1)
    ensures CicleIncrement(val, s, min, max) == min + (val - min + s) % (max - min + 1)
  {
    var n := max - min + 1;
    if s == 1 && val < max {
      ModInRange(val - min + 1, n);
    } else if s == -1 && val > min {
      ModInRange(val - min - 1, n);
    } else if s == 1 {
      ModInRange(0, n);
      assert val - min + s == 0 + 1 * n;
    } else {
      ModInRange(n - 1, n);
      assert val - min + s == (n - 1) + (-1) * n;
    }
  }

  lemma ModInRange(a: int, n: int)
    requires 0 <= a < n
    ensures a % n == a && (a + n) % n == a && (a - n) % n == a
  {}

  /** A step down undoes a step up and vice versa. */
  lemma CicleIncrementInverse(val: uint8, min: uint8, max: uint8)
    requires min <= val <= max
    ensures CicleIncrement(CicleIncrement(val, 1, min, max), -1, min, max) == val
    ensures CicleIncrement(CicleIncrement(val, -1, min, max), 1, min, max) == val
  {}

  // ---------------------------------------------------------------------
  // TimeSetting
  // ---------------------------------------------------------------------

  type TsElement = x: int | 0 <= x <= 5

  const TS_DAY: TsElement := 0
  const TS_MONTH: TsElement := 1
  const TS_YEAR: TsElement := 2
  const TS_HOUR: TsElement := 3
  const TS_MIN: TsElement := 4
  const TS_SEC: TsElement := 5

  function TsNext(e: TsElement): TsElement {
    if e == TS_SEC then TS_DAY else e + 1
  }

  /** DAY, MONTH, YEAR, HOUR, MIN, SEC and back to DAY. */
  lemma TsNextCycles(e: TsElement)
    ensures TsNext(e) == (e + 1) % 6
    ensures TsNext(TsNext(TsNext(TsNext(TsNext(TsNext(e)))))) == e
  {}

  /**
   * `TimeSetting::modifyValue`: the active field of the record moves by s,
   * in the field's own width; a month step past December or before January
   * carries into the year.
   */
  function TimeModify(e: TsElement, t: Tm, s: int16): Tm {
    match e
    case 0 => t.(mday := Signed8(t.mday + s))
    case 1 =>
      if s < 0 && t.mon == JANUARY then t.(mon := DECEMBER, year := Signed16(t.year - 1))
      else if s > 0 && t.mon == DECEMBER then t.(mon := JANUARY, year := Signed16(t.year + 1))
      else t.(mon := Signed8(t.mon + s))
    case 2 => t.(year := Signed16(t.year + s))
    case 3 => t.(hour := Signed8(t.hour + s))
    case 4 => t.(min := Signed8(t.min + s))
    case 5 => t.(sec := Signed8(t.sec + s))
  }

  /** The month count of a record, years and months together. */
  function MonthCount(t: Tm): int { t.year * 12 + t.mon }

  /**
   * A unit month step keeps the month in range and moves the month count
   * by exactly one, the year included; nothing but month and year changes.
   */
  lemma TimeModifyMonth(t: Tm, s: int16)
    requires 0 <= t.mon < 12 && (s == 1 || s == -1) && -0x8000 < t.year < 0x7FFF
    ensures var r := TimeModify(TS_MONTH, t, s);
      && 0 <= r.mon < 12 && MonthCount(r) == MonthCount(t) + s
      && r.(mon := t.mon, year := t.year) == t
  {
    Signed16Id(t.year - 1);
    Signed16Id(t.year + 1);
    Signed8Id(t.mon + s);
  }

  /** December plus one is January of the next year, January minus one December of the last. */
  lemma TimeModifyMonthCarry(t: Tm)
    requires -0x8000 < t.year < 0x7FFF
    ensures t.mon == DECEMBER ==> TimeModify(TS_MONTH, t, 1) == t.(mon := JANUARY, year := t.year + 1)
    ensures t.mon == JANUARY ==> TimeModify(TS_MONTH, t, -1) == t.(mon := DECEMBER, year := t.year - 1)
  {
    Signed16Id(t.year - 1);
    Signed16Id(t.year + 1);
  }

  /** A month step up followed by a step down restores the record. */
  lemma TimeModifyMonthInverse(t: Tm)
    requires 0 <= t.mon < 12 && -0x8000 < t.year < 0x7FFF
    ensures TimeModify(TS_MONTH, TimeModify(TS_MONTH, t, 1), -1) == t
  {
    Signed16Id(t.year + 1);
    Signed8Id(t.mon + 1);
    Signed16Id(t.year);
    Signed8Id(t.mon);
  }

  /** Every other element moves exactly its own field by s and leaves the rest alone. */
  lemma TimeModifyOneField(e: TsElement, t: Tm, s: int16)
    requires e != TS_MONTH && (s == 1 || s == -1)
    requires -0x80 < t.mday < 0x7F && -0x80 < t.hour < 0x7F && -0x80 < t.min < 0x7F
    requires -0x80 < t.sec < 0x7F && -0x8000 < t.year < 0x7FFF
    ensures var r := TimeModify(e, t, s);
      && (e == TS_DAY ==> r.mday == t.mday + s && r.(mday := t.mday) == t)
      && (e == TS_YEAR ==> r.year == t.year + s && r.(year := t.year) == t)
      && (e == TS_HOUR ==> r.hour == t.hour + s && r.(hour := t.hour) == t)
      && (e == TS_MIN ==> r.min == t.min + s && r.(min := t.min) == t)
      && (e == TS_SEC ==> r.sec == t.sec + s && r.(sec := t.sec) == t)
  {
    Signed8Id(t.mday + s);
    Signed8Id(t.hour + s);
    Signed8Id(t.min + s);
    Signed8Id(t.sec + s);
    Signed16Id(t.year + s);
  }

  /**
   * A seconds edit of a record with a month in range moves the time it
   * denotes by s seconds (modulo 2^32), the normalisation by `mktime`
   * carrying an edited second of -1 or 60 into the minute.
   */
  lemma TimeModifySeconds(t: Tm, s: int16)
    requires 0 <= t.mon < 12 && 0 <= t.year <= 400 && (s == 1 || s == -1) && -0x80 < t.sec < 0x7F
    ensures MkTime(TimeModify(TS_SEC, t, s)) == Wrap32(MkTime(t) + s)
  {
    Signed8Id(t.sec + s);
    MkTimeShiftSeconds(t, t.sec + s);
  }

  class TimeSetting {
    var activeElement: TsElement

    constructor ()
      ensures activeElement == TS_DAY
    {
      activeElement := TS_DAY;
    }

    method SetFirst()
      modifies this
      ensures activeElement == TS_DAY
    {
      activeElement := TS_DAY;
    }

    method SetActiveElement(element: TsElement)
      modifies this
      ensures activeElement == element
    {
      activeElement := element;
    }

    method SetNext()
      modifies this
      ensures activeElement == TsNext(old(activeElement))
    {
      activeElement := if activeElement == TS_SEC then TS_DAY else activeElement + 1;
    }

    /** Edits the caller's record in place; here the edited record is returned. */
    method ModifyValue(dayTime: Tm, s: int16) returns (t: Tm)
      ensures t == TimeModify(activeElement, dayTime, s)
    {
      t := dayTime;
      match activeElement {
        case 0 => t := t.(mday := Signed8(t.mday + s));
        case 1 =>
          if s < 0 && t.mon == JANUARY {
            t := t.(mon := DECEMBER);
            t := t.(year := Signed16(t.year - 1));
          } else if s > 0 && t.mon == DECEMBER {
            t := t.(mon := JANUARY);
            t := t.(year := Signed16(t.year + 1));
          } else {
            t := t.(mon := Signed8(t.mon + s));
          }
        case 2 => t := t.(year := Signed16(t.year + s));
        case 3 => t := t.(hour := Signed8(t.hour + s));
        case 4 => t := t.(min := Signed8(t.min + s));
        case 5 => t := t.(sec := Signed8(t.sec + s));
      }
    }
  }

  // ---------------------------------------------------------------------
  // BrightnessSetting
  // ---------------------------------------------------------------------

  type BsElement = x: int | 0 <= x <= 1

  const BS_MODE: BsElement := 0
  const BS_MAN_VALUE: BsElement := 1

  datatype BrightnessData = BrightnessData(isManual: bool, manValue: uint8)

  /** The EEPROM image the firmware is flashed with: automatic, 100 %. */
  const FACTORY_BRIGHTNESS := BrightnessData(false, 100)

  function BsNext(e: BsElement, isManual: bool): BsElement {
    if isManual then (if e == BS_MODE then BS_MAN_VALUE else BS_MODE) else BS_MODE
  }

  /** In automatic mode only the mode is editable; in manual mode the two elements alternate. */
  lemma BsNextCycles(e: BsElement, isManual: bool)
    ensures !isManual ==> BsNext(e, isManual) == BS_MODE
    ensures isManual ==> BsNext(e, isManual) != e && BsNext(BsNext(e, isManual), isManual) == e
  {}

  function BrightnessModify(e: BsElement, d: BrightnessData, s: int16): BrightnessData {
    if e == BS_MODE then d.(isManual := !d.isManual)
    else d.(manValue := CicleIncrement(d.manValue, s, 0, 100))
  }

  /**
   * The mode edit flips the mode whatever s is, and two of them restore the
   * record; a unit value edit keeps the manual value a percentage and
   * leaves the mode alone.
   */
  lemma BrightnessModifyCorrect(e: BsElement, d: BrightnessData, s: int16)
    ensures e == BS_MODE ==>
      (BrightnessModify(e, d, s).isManual == !d.isManual && BrightnessModify(e, d, s).manValue == d.manValue
       && BrightnessModify(e, BrightnessModify(e, d, s), s) == d)
    ensures e == BS_MAN_VALUE && d.manValue <= 100 && (s == 1 || s == -1) ==>
      (BrightnessModify(e, d, s).manValue <= 100 && BrightnessModify(e, d, s).isManual == d.isManual)
  {}

  class BrightnessSetting {
    var activeElement: BsElement
    var data: BrightnessData

    /** `stored` is the EEPROM record the constructor reads. */
    constructor (stored: BrightnessData)
      ensures activeElement == BS_MODE && data == stored
    {
      activeElement := BS_MODE;
      data := stored;
    }

    method SetFirst()
      modifies this
      ensures activeElement == BS_MODE && data == old(data)
    {
      activeElement := BS_MODE;
    }

    method SetNext()
      modifies this
      ensures activeElement == BsNext(old(activeElement), data.isManual) && data == old(data)
    {
      if data.isManual {
        activeElement := if activeElement == BS_MODE then BS_MAN_VALUE else BS_MODE;
      } else {
        activeElement := BS_MODE;
      }
    }

    /** The edit of the in-memory record; writing it back to EEPROM is not modelled. */
    method ModifyValue(s: int16)
      modifies this
      ensures data == BrightnessModify(activeElement, old(data), s) && activeElement == old(activeElement)
    {
      if activeElement == BS_MODE {
        data := data.(isManual := !data.isManual);
      } else {
        data := data.(manValue := CicleIncrement(data.manValue, s, 0, 100));
      }
    }
  }

  // ---------------------------------------------------------------------
  // AlarmSetting
  // ---------------------------------------------------------------------

  type AsElement = x: int | 0 <= x <= 9

  const AS_ACTIVE: AsElement := 0
  const AS_HOUR: AsElement := 1
  const AS_MIN: AsElement := 2
  const AS_DAY1: AsElement := 3
  const AS_DAY7: AsElement := 9

  /** An alarm: on/off, time of day and one flag per weekday, Sunday first. */
  datatype AlarmData = AlarmData(isActive: bool, hour: int8, min: int8, days: seq<bool>)

  predicate AlarmValid(d: AlarmData) {
    0 <= d.hour < 24 && 0 <= d.min < 60 && |d.days| == 7
  }

  /** The EEPROM images of alarms 1 to 3: 06:50 and 07:30 on, 09:10 off, Monday to Friday. */
  function FactoryAlarm(number: int): (d: AlarmData)
    requires 1 <= number <= 3
    ensures AlarmValid(d) && d.days == [false, true, true, true, true, true, false]
  {
    var workdays := [false, true, true, true, true, true, false];
    if number == 1 then AlarmData(true, 6, 50, workdays)
    else if number == 2 then AlarmData(true, 7, 30, workdays)
    else AlarmData(false, 9, 10, workdays)
  }

  function AsNext(e: AsElement): AsElement {
    if e == AS_DAY7 then AS_ACTIVE else e + 1
  }

  /** The ten elements in order, then back to the on/off flag. */
  lemma AsNextCycles(e: AsElement)
    ensures AsNext(e) == (e + 1) % 10
  {}

  /**
   * `AlarmSetting::modifyValue`: flip the flag, step the hour or the minute
   * cyclically (through `unsigned char` and back), or flip one weekday.
   */
  function AlarmModify(e: AsElement, d: AlarmData, s: int16): AlarmData
    requires |d.days| == 7
  {
    if e == AS_ACTIVE then d.(isActive := !d.isActive)
    else if e == AS_HOUR then d.(hour := Signed8(CicleIncrement(Wrap8(d.hour), s, 0, 23)))
    else if e == AS_MIN then d.(min := Signed8(CicleIncrement(Wrap8(d.min), s, 0, 59)))
    else d.(days := d.days[e - AS_DAY1 := !d.days[e - AS_DAY1]])
  }

  /** A unit edit keeps the alarm valid; a weekday edit flips that day and nothing else. */
  lemma AlarmModifyValid(e: AsElement, d: AlarmData, s: int16)
    requires AlarmValid(d) && (s == 1 || s == -1)
    ensures var r := AlarmModify(e, d, s);
      && AlarmValid(r)
      && (e >= AS_DAY1 ==>
            (r.isActive == d.isActive && r.hour == d.hour && r.min == d.min
             && r.days[e - AS_DAY1] == !d.days[e - AS_DAY1]
             && forall i :: 0 <= i < 7 && i != e - AS_DAY1 ==> r.days[i] == d.days[i]))
      && (e == AS_HOUR ==> r.(hour := d.hour) == d)
      && (e == AS_MIN ==> r.(min := d.min) == d)
  {
    Signed8Id(CicleIncrement(Wrap8(d.hour), s, 0, 23));
    Signed8Id(CicleIncrement(Wrap8(d.min), s, 0, 59));
  }

  /** Each edit has an inverse: a flip undoes itself, a step down undoes a step up. */
  lemma AlarmModifyInverse(e: AsElement, d: AlarmData, s: int16)
    requires AlarmValid(d)
    ensures e != AS_HOUR && e != AS_MIN ==> AlarmModify(e, AlarmModify(e, d, s), s) == d
    ensures AlarmModify(e, AlarmModify(e, d, 1), -1) == d
  {
    if e == AS_HOUR {
      HourStepInverse(d);
    } else if e == AS_MIN {
      MinuteStepInverse(d);
    } else if e >= AS_DAY1 {
      DayFlipInverse(e, d, s);
      DayFlipInverse(e, d, 1);
    }
  }

  lemma HourStepInverse(d: AlarmData)
    requires AlarmValid(d)
    ensures AlarmModify(AS_HOUR, AlarmModify(AS_HOUR, d, 1), -1) == d
  {
    var h := CicleIncrement(d.hour, 1, 0, 23);
    CicleIncrementInverse(d.hour, 0, 23);
    Signed8Id(h);
    assert Wrap8(d.hour) == d.hour && Wrap8(Signed8(h)) == h;
  }

  lemma MinuteStepInverse(d: AlarmData)
    requires AlarmValid(d)
    ensures AlarmModify(AS_MIN, AlarmModify(AS_MIN, d, 1), -1) == d
  {
    var m := CicleIncrement(d.min, 1, 0, 59);
    CicleIncrementInverse(d.min, 0, 59);
    Signed8Id(m);
    assert Wrap8(d.min) == d.min && Wrap8(Signed8(m)) == m;
  }

  lemma DayFlipInverse(e: AsElement, d: AlarmData, s: int16)
    requires AlarmValid(d) && e >= AS_DAY1
    ensures AlarmModify(e, AlarmModify(e, d, s), s) == d
  {
    var r := AlarmModify(e, d, s);
    assert r.days[e - AS_DAY1 := !r.days[e - AS_DAY1]] == d.days;
  }

  /** `isOccured`: the alarm is on, today is one of its days, and hour and minute match. */
  predicate AlarmFires(d: AlarmData, t: Tm)
    requires |d.days| == 7 && 0 <= t.wday < 7
  {
    d.isActive && d.days[t.wday] && d.hour == t.hour && d.min == t.min
  }

  /**
   * On the broken-down form of a 2000-based second count x, an alarm fires
   * exactly on its weekdays, counted from the Saturday 2000-01-01, during
   * its minute of the day.
   */
  lemma AlarmFiresAt(d: AlarmData, x: uint32)
    requires |d.days| == 7
    ensures 0 <= GmTime(x).wday < 7
    ensures AlarmFires(d, GmTime(x)) <==>
      && d.isActive && d.days[(x / SECONDS_PER_DAY + SATURDAY) % 7]
      && d.hour == (x % SECONDS_PER_DAY) / 3600 && d.min == ((x % SECONDS_PER_DAY) / 60) % 60
  {
    var t := GmTime(x);
    GmTimeCorrect(x);
    GmTimeWeekdayFormula(x);
    SplitSeconds(x);
    var f := x % SECONDS_PER_DAY;
    TimeOfDayUnique(t.hour, t.min, t.sec, f / 3600, (f / 60) % 60, f % 60);
  }

  class AlarmSetting {
    var activeElement: AsElement
    const number: uint8
    var isActive: bool
    var hour: int8
    var min: int8
    const days: array<bool>

    function Model(): AlarmData
      reads this, days
    {
      AlarmData(isActive, hour, min, days[..])
    }

    /** `stored` is the EEPROM record of alarm `number` that the constructor reads. */
    constructor (number: uint8, stored: AlarmData)
      requires |stored.days| == 7
      ensures this.number == number && activeElement == AS_ACTIVE && Model() == stored && fresh(days)
    {
      this.number := number;
      activeElement := AS_ACTIVE;
      isActive := stored.isActive;
      hour := stored.hour;
      min := stored.min;
      days := new bool[7](i requires 0 <= i < 7 reads {} => stored.days[i]);
      new;
      assert days[..] == stored.days;
    }

    method SetFirst()
      modifies this
      ensures activeElement == AS_ACTIVE && Model() == old(Model())
    {
      activeElement := AS_ACTIVE;
    }

    method SetNext()
      modifies this
      ensures activeElement == AsNext(old(activeElement)) && Model() == old(Model())
    {
      activeElement := if activeElement == AS_DAY7 then AS_ACTIVE else activeElement + 1;
    }

    /** The edit of the in-memory record, a weekday flipped in place; the EEPROM write is not modelled. */
    method ModifyValue(s: int16)
      requires days.Length == 7
      modifies this, days
      ensures Model() == AlarmModify(activeElement, old(Model()), s) && activeElement == old(activeElement)
    {
      match activeElement {
        case 0 => isActive := !isActive;
        case 1 => hour := Signed8(CicleIncrement(Wrap8(hour), s, 0, 23));
        case 2 => min := Signed8(CicleIncrement(Wrap8(min), s, 0, 59));
        case _ => days[activeElement - AS_DAY1] := !days[activeElement - AS_DAY1];
      }
    }

    predicate IsOccured(dayTime: Tm)
      requires days.Length == 7 && 0 <= dayTime.wday < 7
      reads this, days
    {
      AlarmFires(Model(), dayTime)
    }
  }
}
