/*
 * Receiver of the DCF77 long-wave time signal. Every second except the
 * last of a minute the carrier is lowered for 100 ms (a 0 bit) or 200 ms
 * (a 1 bit); the missing pulse of second 59 marks the start of the next
 * minute. The analog comparator interrupt measures the time between its
 * edges, classifies it and fills a 60-slot bit array; the 59 bits of a
 * complete minute are decoded with the PTB bit assignment:
 *
 *   bits 21-27  minute (BCD, weights 1 2 4 8 10 20 40), even parity bit 28
 *   bits 29-34  hour   (BCD, weights 1 2 4 8 10 20),    even parity bit 35
 *   bits 36-41  day of month, 42-44 day of week, 45-49 month,
 *   bits 50-57  year of the century,                    even parity bit 58
 *
 * The firmware's date parity sums bits 36 to 56 only, leaving out bit 57.
 */
module Dcf77 {
  import opened FixedWidth
  import opened Calendar
  import opened AvrPlusPlus

  const BITS_NUMBER := 60

  /** Pulse classification in milliseconds. */
  const ZERO_START := 50
  const ZERO_END := 149
  const ONE_START := 150
  const ONE_END := 300
  const DATA_END := 1500
  const NOISE_END := 30

  datatype Option<T> = None | Some(value: T)

  /** A decoded minute: the calendar month is 1-based here. */
  datatype DcfTime = DcfTime(min: int, hour: int, day: int, month: int, year: int)

  /** The handler callbacks the decoder makes (the log strings are not modelled). */
  datatype DcfEvent = BitReceived | BitFailed
                    | TimeReceived(min: int, hour: int, day: int, month: int, year: int)

  predicate Binary(b: seq<uint8>) {
    forall i :: 0 <= i < |b| ==> b[i] <= 1
  }

  /** b[lo] + ... + b[hi - 1]. */
  function Sum(b: seq<uint8>, lo: int, hi: int): nat
    requires 0 <= lo <= hi <= |b|
    decreases hi - lo
  {
    if lo == hi then 0 else Sum(b, lo, hi - 1) + b[hi - 1]
  }

  // ---------------------------------------------------------------------
  // decodeTime
  // ---------------------------------------------------------------------

  predicate MinuteParity(b: seq<uint8>)
    requires |b| == BITS_NUMBER
  {
    Sum(b, 21, 28) % 2 == b[28] as int
  }

  predicate HourParity(b: seq<uint8>)
    requires |b| == BITS_NUMBER
  {
    Sum(b, 29, 35) % 2 == b[35] as int
  }

  /** The firmware's date check: bits 36 to 56 against bit 58. */
  predicate DateParity(b: seq<uint8>)
    requires |b| == BITS_NUMBER
  {
    Sum(b, 36, 57) % 2 == b[58] as int
  }

  function MinuteValue(b: seq<uint8>): int
    requires |b| == BITS_NUMBER
  {
    b[21] as int + 2 * b[22] as int + 4 * b[23] as int + 8 * b[24] as int
    + 10 * b[25] as int + 20 * b[26] as int + 40 * b[27] as int
  }

  function HourValue(b: seq<uint8>): int
    requires |b| == BITS_NUMBER
  {
    b[29] as int + 2 * b[30] as int + 4 * b[31] as int + 8 * b[32] as int
    + 10 * b[33] as int + 20 * b[34] as int
  }

  function DayValue(b: seq<uint8>): int
    requires |b| == BITS_NUMBER
  {
    b[36] as int + 2 * b[37] as int + 4 * b[38] as int + 8 * b[39] as int
    + 10 * b[40] as int + 20 * b[41] as int
  }

  function MonthValue(b: seq<uint8>): int
    requires |b| == BITS_NUMBER
  {
    b[45] as int + 2 * b[46] as int + 4 * b[47] as int + 8 * b[48] as int + 10 * b[49] as int
  }

  function YearValue(b: seq<uint8>): int
    requires |b| == BITS_NUMBER
  {
    b[50] as int + 2 * b[51] as int + 4 * b[52] as int + 8 * b[53] as int
    + 10 * b[54] as int + 20 * b[55] as int + 40 * b[56] as int + 80 * b[57] as int
  }

  /** The minute a received frame carries, if all three parity checks pass. */
  function Decode(b: seq<uint8>): Option<DcfTime>
    requires |b| == BITS_NUMBER
  {
    if MinuteParity(b) && HourParity(b) && DateParity(b)
    then Some(DcfTime(MinuteValue(b), HourValue(b), DayValue(b), MonthValue(b), YearValue(b)))
    else None
  }

  /** Slots 0 to 20 of a received frame: the weather bits, the zone bits (summer time) and the start bit. */
  const SAMPLE_HEADER: seq<uint8> := [ 0, 0, 1, 0, 1, 1, 1, 1, 0, 0, 0, 1, 0, 1, 0, 0, 0, 1, 0, 0, 1 ]
  /** Slots 21 to 28: minute 58 in BCD, then odd parity. */
  const SAMPLE_MINUTE: seq<uint8> := [ 0, 0, 0, 1, 1, 0, 1, 1 ]
  /** Slots 29 to 35: hour 22 in BCD, then even parity. */
  const SAMPLE_HOUR: seq<uint8> := [ 0, 1, 0, 0, 0, 1, 0 ]
  /** Slots 36 to 58: day 25, Thursday, month 6, year 15, then a parity bit that makes bits 36 to 57 odd. */
  const SAMPLE_DATE: seq<uint8> := [ 1, 0, 1, 0, 0, 1, 0, 0, 1, 0, 1, 1, 0, 0, 1, 0, 1, 0, 1, 0, 0, 0, 1 ]
  /** A whole received frame; slot 59 carries no pulse. */
  const SAMPLE_FRAME: seq<uint8> := SAMPLE_HEADER + SAMPLE_MINUTE + SAMPLE_HOUR + SAMPLE_DATE + [0]

  /** The sample frame passes all three checks and decodes to 22:58 on 25.06.15. */
  lemma SampleFrameDecodes()
    ensures |SAMPLE_FRAME| == BITS_NUMBER && Decode(SAMPLE_FRAME) == Some(DcfTime(58, 22, 25, 6, 15))
  {
    SampleMinute();
    SampleHour();
    SampleDate();
  }

  lemma SampleMinute()
    ensures |SAMPLE_FRAME| == BITS_NUMBER && MinuteParity(SAMPLE_FRAME) && MinuteValue(SAMPLE_FRAME) == 58
  {
    var b := SAMPLE_FRAME;
    assert b[21..29] == SAMPLE_MINUTE;
    SumMinute(b);
  }

  lemma SampleHour()
    ensures |SAMPLE_FRAME| == BITS_NUMBER && HourParity(SAMPLE_FRAME) && HourValue(SAMPLE_FRAME) == 22
  {
    var b := SAMPLE_FRAME;
    assert b[29..36] == SAMPLE_HOUR;
    SumHour(b);
  }

  lemma SampleDate()
    ensures |SAMPLE_FRAME| == BITS_NUMBER && DateParity(SAMPLE_FRAME)
            && DayValue(SAMPLE_FRAME) == 25 && MonthValue(SAMPLE_FRAME) == 6 && YearValue(SAMPLE_FRAME) == 15
  {
    var b := SAMPLE_FRAME;
    assert b[36..59] == SAMPLE_DATE;
    SumDate(b);
  }

  /**
   * `decodeTime`: (valid, the new `dayTime`, the callbacks). Seconds are
   * zeroed and the month made 0-based; day of week and of year are kept.
   */
  function DecodeFrame(b: seq<uint8>, dayTime: Tm): (bool, Tm, seq<DcfEvent>)
    requires |b| == BITS_NUMBER
  {
    match Decode(b)
    case None => (false, dayTime, [])
    case Some(d) =>
      var t := dayTime.(sec := 0, min := Signed8(d.min), hour := Signed8(d.hour),
                        mday := Signed8(d.day), mon := Signed8(d.month - 1), year := Signed16(d.year));
      (true, t, [TimeReceived(t.min, t.hour, t.mday, t.mon, t.year)])
  }

  // ---------------------------------------------------------------------
  // The PTB encoding, as a reference for the decoder
  // ---------------------------------------------------------------------

  /** Bit k (0 to 3) of a BCD digit. */
  function DigitBit(d: nat, k: nat): uint8
    requires k < 4
  {
    if k == 0 then d % 2 else if k == 1 then (d / 2) % 2 else if k == 2 then (d / 4) % 2 else (d / 8) % 2
  }

  predicate EncodableTime(t: DcfTime, wday: int) {
    0 <= t.min < 60 && 0 <= t.hour < 24 && 1 <= t.day <= 31 && 1 <= wday <= 7
    && 1 <= t.month <= 12 && 0 <= t.year < 100
  }

  /** Bit i of a minute frame, with the three parity slots still 0. */
  function DataBit(t: DcfTime, wday: int, header: seq<uint8>, i: nat): uint8
    requires EncodableTime(t, wday) && |header| == 21 && i < BITS_NUMBER
  {
    if i < 21 then header[i]
    else if i < 25 then DigitBit(t.min % 10, i - 21)
    else if i < 28 then DigitBit(t.min / 10, i - 25)
    else if i == 28 then 0
    else if i < 33 then DigitBit(t.hour % 10, i - 29)
    else if i < 35 then DigitBit(t.hour / 10, i - 33)
    else if i == 35 then 0
    else if i < 40 then DigitBit(t.day % 10, i - 36)
    else if i < 42 then DigitBit(t.day / 10, i - 40)
    else if i < 45 then DigitBit(wday, i - 42)
    else if i < 49 then DigitBit(t.month % 10, i - 45)
    else if i == 49 then DigitBit(t.month / 10, 0)
    else if i < 54 then DigitBit(t.year % 10, i - 50)
    else if i < 58 then DigitBit(t.year / 10, i - 54)
    else 0
  }

  /**
   * The frame a transmitter sends for a minute: the header bits 0-20 as
   * given, BCD fields, and even parity over minute, hour and the whole date
   * (bits 36 to 57). Slot 59 has no pulse and stays 0.
   */
  function Encode(t: DcfTime, wday: int, header: seq<uint8>): (b: seq<uint8>)
    requires EncodableTime(t, wday) && |header| == 21
    ensures |b| == BITS_NUMBER
  {
    var d := Data(t, wday, header);
    d[28 := Sum(d, 21, 28) % 2][35 := Sum(d, 29, 35) % 2][58 := Sum(d, 36, 58) % 2]
  }

  function Data(t: DcfTime, wday: int, header: seq<uint8>): (d: seq<uint8>)
    requires EncodableTime(t, wday) && |header| == 21
    ensures |d| == BITS_NUMBER
  {
    seq(BITS_NUMBER, i requires 0 <= i < BITS_NUMBER => DataBit(t, wday, header, i))
  }

  lemma {:induction false} SumAgree(b: seq<uint8>, c: seq<uint8>, lo: int, hi: int)
    requires 0 <= lo <= hi <= |b| && hi <= |c|
    requires forall i :: lo <= i < hi ==> b[i] == c[i]
    ensures Sum(b, lo, hi) == Sum(c, lo, hi)
    decreases hi - lo
  {
    if lo < hi {
      SumAgree(b, c, lo, hi - 1);
    }
  }

  lemma DigitBits(d: nat)
    requires d < 16
    ensures d == DigitBit(d, 0) + 2 * DigitBit(d, 1) as int + 4 * DigitBit(d, 2) as int + 8 * DigitBit(d, 3) as int
  {}

  /** Outside the parity slots the frame carries the data bits. */
  lemma EncodeData(t: DcfTime, wday: int, header: seq<uint8>)
    requires EncodableTime(t, wday) && |header| == 21
    ensures forall i :: 0 <= i < BITS_NUMBER && i != 28 && i != 35 && i != 58 ==>
      Encode(t, wday, header)[i] == DataBit(t, wday, header, i)
    ensures var d := Data(t, wday, header); var b := Encode(t, wday, header);
      b[28] as int == Sum(d, 21, 28) % 2 && b[35] as int == Sum(d, 29, 35) % 2
      && b[58] as int == Sum(d, 36, 58) % 2
  {}

  /** A frame that carries the data bits of a minute outside its parity slots. */
  predicate CarriesData(b: seq<uint8>, t: DcfTime, wday: int, header: seq<uint8>)
    requires EncodableTime(t, wday) && |header| == 21
  {
    |b| == BITS_NUMBER &&
    forall i :: 0 <= i < BITS_NUMBER && i != 28 && i != 35 && i != 58 ==> b[i] == DataBit(t, wday, header, i)
  }

  lemma MinuteHourOfData(b: seq<uint8>, t: DcfTime, wday: int, header: seq<uint8>)
    requires EncodableTime(t, wday) && |header| == 21 && CarriesData(b, t, wday, header)
    ensures MinuteValue(b) == t.min && HourValue(b) == t.hour
  {
    assert b[21] == DigitBit(t.min % 10, 0) && b[22] == DigitBit(t.min % 10, 1);
    assert b[23] == DigitBit(t.min % 10, 2) && b[24] == DigitBit(t.min % 10, 3);
    assert b[25] == DigitBit(t.min / 10, 0) && b[26] == DigitBit(t.min / 10, 1);
    assert b[27] == DigitBit(t.min / 10, 2);
    assert b[29] == DigitBit(t.hour % 10, 0) && b[30] == DigitBit(t.hour % 10, 1);
    assert b[31] == DigitBit(t.hour % 10, 2) && b[32] == DigitBit(t.hour % 10, 3);
    assert b[33] == DigitBit(t.hour / 10, 0) && b[34] == DigitBit(t.hour / 10, 1);
    DigitBits(t.min % 10);
    DigitBits(t.hour % 10);
    DigitBits(t.min / 10);
    DigitBits(t.hour / 10);
  }

  lemma DayOfData(b: seq<uint8>, t: DcfTime, wday: int, header: seq<uint8>)
    requires EncodableTime(t, wday) && |header| == 21 && CarriesData(b, t, wday, header)
    ensures DayValue(b) == t.day
  {
    assert b[36] == DigitBit(t.day % 10, 0) && b[37] == DigitBit(t.day % 10, 1);
    assert b[38] == DigitBit(t.day % 10, 2) && b[39] == DigitBit(t.day % 10, 3);
    assert b[40] == DigitBit(t.day / 10, 0) && b[41] == DigitBit(t.day / 10, 1);
    DigitBits(t.day % 10);
    DigitBits(t.day / 10);
  }

  lemma MonthOfData(b: seq<uint8>, t: DcfTime, wday: int, header: seq<uint8>)
    requires EncodableTime(t, wday) && |header| == 21 && CarriesData(b, t, wday, header)
    ensures MonthValue(b) == t.month
  {
    assert b[45] == DigitBit(t.month % 10, 0) && b[46] == DigitBit(t.month % 10, 1);
    assert b[47] == DigitBit(t.month % 10, 2) && b[48] == DigitBit(t.month % 10, 3);
    assert b[49] == DigitBit(t.month / 10, 0);
    DigitBits(t.month % 10);
  }

  lemma YearOfData(b: seq<uint8>, t: DcfTime, wday: int, header: seq<uint8>)
    requires EncodableTime(t, wday) && |header| == 21 && CarriesData(b, t, wday, header)
    ensures YearValue(b) == t.year
  {
    assert b[50] == DigitBit(t.year % 10, 0) && b[51] == DigitBit(t.year % 10, 1);
    assert b[52] == DigitBit(t.year % 10, 2) && b[53] == DigitBit(t.year % 10, 3);
    assert b[54] == DigitBit(t.year / 10, 0) && b[55] == DigitBit(t.year / 10, 1);
    assert b[56] == DigitBit(t.year / 10, 2) && b[57] == DigitBit(t.year / 10, 3);
    DigitBits(t.year % 10);
    DigitBits(t.year / 10);
  }

  lemma MinuteParityOfEncode(t: DcfTime, wday: int, header: seq<uint8>)
    requires EncodableTime(t, wday) && |header| == 21
    ensures MinuteParity(Encode(t, wday, header))
  {
    EncodeData(t, wday, header);
    SumAgree(Encode(t, wday, header), Data(t, wday, header), 21, 28);
  }

  lemma HourParityOfEncode(t: DcfTime, wday: int, header: seq<uint8>)
    requires EncodableTime(t, wday) && |header| == 21
    ensures HourParity(Encode(t, wday, header))
  {
    EncodeData(t, wday, header);
    SumAgree(Encode(t, wday, header), Data(t, wday, header), 29, 35);
  }

  /** The transmitted date parity covers bit 57, the firmware's does not. */
  lemma DateParityOfEncode(t: DcfTime, wday: int, header: seq<uint8>)
    requires EncodableTime(t, wday) && |header| == 21
    ensures DateParity(Encode(t, wday, header)) <==> t.year < 80
  {
    var d := Data(t, wday, header);
    EncodeData(t, wday, header);
    assert d[57] == DigitBit(t.year / 10, 3);
    YearTensBit(t.year);
    DateParityOfData(Encode(t, wday, header), d);
  }

  /** Bit 57, the 80 of the year, is set exactly for the years 80 to 99. */
  lemma YearTensBit(y: int)
    requires 0 <= y < 100
    ensures DigitBit(y / 10, 3) == 0 <==> y < 80
  {
    assert y / 10 < 8 <==> y < 80;
  }

  /** A date parity computed over bits 36-57 of the data passes the 36-56 check iff bit 57 is 0. */
  lemma DateParityOfData(b: seq<uint8>, d: seq<uint8>)
    requires |b| == BITS_NUMBER && |d| == BITS_NUMBER && d[57] <= 1
    requires forall i :: 36 <= i < 57 ==> b[i] == d[i]
    requires b[58] as int == Sum(d, 36, 58) % 2
    ensures DateParity(b) <==> d[57] == 0
  {
    SumAgree(b, d, 36, 57);
    assert Sum(d, 36, 58) == Sum(d, 36, 57) + d[57] as int;
    ParityOfSum(Sum(d, 36, 58), Sum(d, 36, 57), d[57] as int, b[58] as int);
  }

  /** A check bit c that is the parity of s + x matches the parity of s exactly when x is 0. */
  lemma ParityOfSum(total: int, s: int, x: int, c: int)
    requires x == 0 || x == 1
    requires total == s + x && c == total % 2
    ensures (s % 2 == c) <==> x == 0
  {
  }

  /**
   * The decoder reads back every minute a transmitter encodes, except that
   * its date parity, which leaves out bit 57, rejects every frame whose
   * year has bit 57 set: the years 80 to 99 of a century.
   */
  lemma DecodeEncode(t: DcfTime, wday: int, header: seq<uint8>)
    requires EncodableTime(t, wday) && |header| == 21
    ensures Decode(Encode(t, wday, header)) == if t.year < 80 then Some(t) else None
  {
    var b := Encode(t, wday, header);
    EncodeData(t, wday, header);
    assert CarriesData(b, t, wday, header);
    MinuteParityOfEncode(t, wday, header);
    HourParityOfEncode(t, wday, header);
    DateParityOfEncode(t, wday, header);
    MinuteHourOfData(b, t, wday, header);
    DayOfData(b, t, wday, header);
    MonthOfData(b, t, wday, header);
    YearOfData(b, t, wday, header);
  }

  /** The fields of a frame of 0s and 1s are small. */
  lemma FieldBounds(b: seq<uint8>)
    requires |b| == BITS_NUMBER && Binary(b)
    ensures 0 <= MinuteValue(b) <= 85 && 0 <= HourValue(b) <= 45 && 0 <= DayValue(b) <= 45
    ensures 0 <= MonthValue(b) <= 25 && 0 <= YearValue(b) <= 165
  {
    assert b[21] <= 1 && b[22] <= 1 && b[23] <= 1 && b[24] <= 1 && b[25] <= 1 && b[26] <= 1 && b[27] <= 1;
    assert b[29] <= 1 && b[30] <= 1 && b[31] <= 1 && b[32] <= 1 && b[33] <= 1 && b[34] <= 1;
    assert b[36] <= 1 && b[37] <= 1 && b[38] <= 1 && b[39] <= 1 && b[40] <= 1 && b[41] <= 1;
    assert b[45] <= 1 && b[46] <= 1 && b[47] <= 1 && b[48] <= 1 && b[49] <= 1;
    assert b[50] <= 1 && b[51] <= 1 && b[52] <= 1 && b[53] <= 1 && b[54] <= 1 && b[55] <= 1;
    assert b[56] <= 1 && b[57] <= 1;
  }

  /** A received time has its fields converted without loss, with a 0-based month. */
  lemma DecodeFrameFields(b: seq<uint8>, dayTime: Tm)
    requires |b| == BITS_NUMBER && Binary(b)
    ensures var (valid, t, events) := DecodeFrame(b, dayTime);
      && (valid <==> Decode(b).Some?)
      && (valid ==> var d := Decode(b).value;
            && t == dayTime.(sec := 0, min := d.min, hour := d.hour, mday := d.day,
                             mon := d.month - 1, year := d.year)
            && events == [TimeReceived(d.min, d.hour, d.day, d.month - 1, d.year)])
      && (!valid ==> t == dayTime && events == [])
  {
    if Decode(b).Some? {
      var d := Decode(b).value;
      FieldBounds(b);
      Signed8Id(d.min);
      Signed8Id(d.hour);
      Signed8Id(d.day);
      Signed8Id(d.month - 1);
      Signed16Id(d.year);
    }
  }

  lemma SumMinute(b: seq<uint8>)
    requires |b| == BITS_NUMBER
    ensures Sum(b, 21, 28) == b[21] as int + b[22] as int + b[23] as int + b[24] as int
                              + b[25] as int + b[26] as int + b[27] as int
  {
    assert Sum(b, 21, 23) == b[21] as int + b[22] as int;
    assert Sum(b, 21, 25) == Sum(b, 21, 23) + b[23] as int + b[24] as int;
    assert Sum(b, 21, 27) == Sum(b, 21, 25) + b[25] as int + b[26] as int;
  }

  lemma SumHour(b: seq<uint8>)
    requires |b| == BITS_NUMBER
    ensures Sum(b, 29, 35) == b[29] as int + b[30] as int + b[31] as int + b[32] as int
                              + b[33] as int + b[34] as int
  {
    assert Sum(b, 29, 31) == b[29] as int + b[30] as int;
    assert Sum(b, 29, 33) == Sum(b, 29, 31) + b[31] as int + b[32] as int;
  }

  lemma SumDate(b: seq<uint8>)
    requires |b| == BITS_NUMBER
    ensures Sum(b, 36, 57) == b[36] as int + b[37] as int + b[38] as int + b[39] as int
                              + b[40] as int + b[41] as int + b[42] as int + b[43] as int
                              + b[44] as int + b[45] as int + b[46] as int + b[47] as int
                              + b[48] as int + b[49] as int + b[50] as int + b[51] as int
                              + b[52] as int + b[53] as int + b[54] as int + b[55] as int
                              + b[56] as int
  {
    assert Sum(b, 36, 38) == b[36] as int + b[37] as int;
    assert Sum(b, 36, 41) == Sum(b, 36, 38) + b[38] as int + b[39] as int + b[40] as int;
    assert Sum(b, 36, 44) == Sum(b, 36, 41) + b[41] as int + b[42] as int + b[43] as int;
    assert Sum(b, 36, 47) == Sum(b, 36, 44) + b[44] as int + b[45] as int + b[46] as int;
    assert Sum(b, 36, 50) == Sum(b, 36, 47) + b[47] as int + b[48] as int + b[49] as int;
    assert Sum(b, 36, 53) == Sum(b, 36, 50) + b[50] as int + b[51] as int + b[52] as int;
    assert Sum(b, 36, 56) == Sum(b, 36, 53) + b[53] as int + b[54] as int + b[55] as int;
  }

  // ---------------------------------------------------------------------
  // onInterrupt
  // ---------------------------------------------------------------------

  datatype DcfState = DcfState(currBit: int16, streaming: bool, lastInterruptTime: uint64,
                               bits: seq<uint8>, dayTime: Tm)

  /** Idle means no cursor; while streaming the cursor is a slot or one past the last. */
  predicate DcfValid(s: DcfState) {
    && |s.bits| == BITS_NUMBER && Binary(s.bits)
    && (if s.streaming then 0 <= s.currBit <= BITS_NUMBER else s.currBit == -1)
  }

  predicate InPulseBand(dur: int) {
    (ZERO_START <= dur <= ZERO_END) || (ONE_START <= dur <= ONE_END)
  }

  /** `onInterrupt` at clock reading `now` with comparator output `val`: (new state, callbacks). */
  function Interrupt(s: DcfState, now: uint64, val: int16): (r: (DcfState, seq<DcfEvent>))
    requires DcfValid(s)
    ensures DcfValid(r.0) && r.0.lastInterruptTime == now
  {
    var dur := Wrap16(now - s.lastInterruptTime);
    var s1 := s.(lastInterruptTime := now);
    if dur > DATA_END then
      if s.streaming then
        if s.currBit == BITS_NUMBER - 1 then
          var (_, t, events) := DecodeFrame(s.bits, s.dayTime);
          (s1.(currBit := -1, streaming := false, dayTime := t), events)
        else
          (s1.(currBit := -1, streaming := false), [])
      else
        (s1.(currBit := 0, streaming := true), [])
    else if val == 0 && s.streaming then
      if InPulseBand(dur) then
        if s.currBit < BITS_NUMBER then
          var v: uint8 := if dur <= ZERO_END then 0 else 1;
          (s1.(bits := s.bits[s.currBit := v], currBit := s.currBit + 1), [BitReceived])
        else
          (s1, [])
      else if dur > NOISE_END then
        (s1.(currBit := -1, streaming := false), [BitFailed])
      else
        (s1, [])
    else if val == 0 then
      if InPulseBand(dur) then (s1, [BitFailed, BitReceived])
      else if dur > NOISE_END then (s1, [BitFailed])
      else (s1, [])
    else
      (s1, [])
  }

  function Duration(s: DcfState, now: uint64): uint16 {
    Wrap16(now - s.lastInterruptTime)
  }

  /** A gap of over 1.5 s while idle starts a frame at slot 0. */
  lemma GapStartsFrame(s: DcfState, now: uint64, val: int16)
    requires DcfValid(s) && !s.streaming && Duration(s, now) > DATA_END
    ensures Interrupt(s, now, val) == (s.(lastInterruptTime := now, currBit := 0, streaming := true), [])
  {}

  /**
   * A gap of over 1.5 s while streaming ends the frame: it is decoded
   * exactly when 59 slots (0 to 58) were filled, and the decoder goes idle
   * either way.
   */
  lemma GapEndsFrame(s: DcfState, now: uint64, val: int16)
    requires DcfValid(s) && s.streaming && Duration(s, now) > DATA_END
    ensures var (s', events) := Interrupt(s, now, val);
      && s'.currBit == -1 && !s'.streaming && s'.bits == s.bits
      && (s.currBit == BITS_NUMBER - 1 ==>
            (s'.dayTime, events) == (DecodeFrame(s.bits, s.dayTime).1, DecodeFrame(s.bits, s.dayTime).2))
      && (s.currBit != BITS_NUMBER - 1 ==> s'.dayTime == s.dayTime && events == [])
  {}

  /**
   * A low edge after a 50-149 ms pulse stores a 0, after 150-300 ms a 1, at
   * the cursor, and advances it, while there is room; no other slot changes.
   */
  lemma PulseStoresBit(s: DcfState, now: uint64)
    requires DcfValid(s) && s.streaming && InPulseBand(Duration(s, now))
    ensures var (s', events) := Interrupt(s, now, 0);
      if s.currBit < BITS_NUMBER then
        && s'.currBit == s.currBit + 1 && s'.streaming
        && s'.bits[s.currBit] == (if Duration(s, now) <= ZERO_END then 0 else 1)
        && (forall i :: 0 <= i < BITS_NUMBER && i != s.currBit as int ==> s'.bits[i] == s.bits[i])
        && s'.dayTime == s.dayTime && events == [BitReceived]
      else
        s' == s.(lastInterruptTime := now) && events == []
  {}

  /** While streaming, any other low edge after more than 30 ms aborts the frame. */
  lemma BadPulseAborts(s: DcfState, now: uint64)
    requires DcfValid(s) && s.streaming
    requires Duration(s, now) <= DATA_END && !InPulseBand(Duration(s, now)) && Duration(s, now) > NOISE_END
    ensures Interrupt(s, now, 0) == (s.(lastInterruptTime := now, currBit := -1, streaming := false), [BitFailed])
  {}

  /**
   * A high comparator output, a glitch of at most 30 ms, or any edge while
   * idle short of a 1.5 s gap moves only the edge time stamp.
   */
  lemma QuietEdge(s: DcfState, now: uint64, val: int16)
    requires DcfValid(s) && Duration(s, now) <= DATA_END
    requires val != 0 || Duration(s, now) <= NOISE_END || !s.streaming
    ensures Interrupt(s, now, val).0 == s.(lastInterruptTime := now)
  {}

  /** A cursor past the last slot is never written: the bit array is never overrun. */
  lemma CursorBounded(s: DcfState, now: uint64, val: int16)
    requires DcfValid(s)
    ensures Interrupt(s, now, val).0.currBit <= BITS_NUMBER
  {}

  class Dcf77 {
    const clock: RealTimeClock
    var currBit: int16
    var streaming: bool
    var lastInterruptTime: uint64
    var dayTime: Tm
    const bits: array<uint8>

    function Model(): DcfState
      reads this, bits
    {
      DcfState(currBit, streaming, lastInterruptTime, bits[..], dayTime)
    }

    predicate Valid()
      reads this, bits
    {
      DcfValid(Model())
    }

    /** The object lives in static storage, so the bit array and `dayTime` start zeroed. */
    constructor (clock: RealTimeClock)
      ensures this.clock == clock && fresh(bits) && Valid()
      ensures currBit == -1 && !streaming && lastInterruptTime == clock.timeMillisec
      ensures bits[..] == seq(BITS_NUMBER, i => 0) && dayTime == Tm(0, 0, 0, 0, 0, 0, 0, 0, 0)
    {
      this.clock := clock;
      currBit := -1;
      streaming := false;
      lastInterruptTime := clock.timeMillisec;
      dayTime := Tm(0, 0, 0, 0, 0, 0, 0, 0, 0);
      bits := new uint8[BITS_NUMBER](i => 0);
    }

    /** `turnOn`: back to idle (enabling the comparator itself is not modelled). */
    method TurnOn()
      requires Valid()
      modifies this
      ensures Model() == old(Model()).(currBit := -1, streaming := false) && Valid()
    {
      currBit := -1;
      streaming := false;
    }

    method OnInterrupt(val: int16) returns (events: seq<DcfEvent>)
      requires Valid()
      modifies this, bits
      ensures (Model(), events) == Interrupt(old(Model()), clock.timeMillisec, val) && Valid()
    {
      var dur := Wrap16(clock.timeMillisec - lastInterruptTime);
      lastInterruptTime := clock.timeMillisec;
      events := [];
      if dur > DATA_END {
        if streaming {
          if currBit == BITS_NUMBER - 1 {
            var _, ev := DecodeTime();
            events := ev;
          }
          currBit := -1;
          streaming := false;
        } else {
          currBit := 0;
          streaming := true;
        }
      } else if val == 0 && streaming {
        if ZERO_START <= dur <= ZERO_END {
          if currBit < BITS_NUMBER {
            events := [BitReceived];
            bits[currBit] := 0;
            currBit := currBit + 1;
          }
        } else if ONE_START <= dur <= ONE_END {
          if currBit < BITS_NUMBER {
            events := [BitReceived];
            bits[currBit] := 1;
            currBit := currBit + 1;
          }
        } else if dur > NOISE_END {
          currBit := -1;
          streaming := false;
          events := [BitFailed];
        }
      } else if val == 0 {
        if InPulseBand(dur) {
          events := [BitFailed, BitReceived];
        } else if dur > NOISE_END {
          events := [BitFailed];
        }
      }
    }

    /** `decodeTime` over the bit array, with the date parity summed in a loop. */
    method DecodeTime() returns (valid: bool, events: seq<DcfEvent>)
      requires Valid()
      modifies this
      ensures (valid, dayTime, events) == DecodeFrame(old(bits[..]), old(dayTime))
      ensures Model() == old(Model()).(dayTime := dayTime) && Valid()
    {
      ghost var b := bits[..];
      valid := true;
      var min := -1;
      var sum := bits[21] as int + bits[22] as int + bits[23] as int + bits[24] as int
                 + bits[25] as int + bits[26] as int + bits[27] as int;
      SumMinute(b);
      if sum % 2 == bits[28] as int {
        min := bits[21] as int + 2 * bits[22] as int + 4 * bits[23] as int + 8 * bits[24] as int
               + 10 * bits[25] as int + 20 * bits[26] as int + 40 * bits[27] as int;
        assert min == MinuteValue(b);
      } else {
        valid := false;
      }
      assert valid == MinuteParity(b);
      var hour := -1;
      sum := bits[29] as int + bits[30] as int + bits[31] as int + bits[32] as int
             + bits[33] as int + bits[34] as int;
      SumHour(b);
      if sum % 2 == bits[35] as int {
        hour := bits[29] as int + 2 * bits[30] as int + 4 * bits[31] as int + 8 * bits[32] as int
                + 10 * bits[33] as int + 20 * bits[34] as int;
        assert hour == HourValue(b);
      } else {
        valid := false;
      }
      assert valid == (MinuteParity(b) && HourParity(b));
      var dateValid, day, month, year := DecodeDate();
      valid := valid && dateValid;
      assert valid <==> Decode(b).Some?;
      events := [];
      if valid {
        assert Decode(b).value == DcfTime(min, hour, day, month, year);
        dayTime := dayTime.(sec := 0, min := Signed8(min), hour := Signed8(hour), mday := Signed8(day),
                            mon := Signed8(month - 1), year := Signed16(year));
        events := [TimeReceived(dayTime.min, dayTime.hour, dayTime.mday, dayTime.mon, dayTime.year)];
      }
    }

    /** The date half of `decodeTime`: day, month and year under the date parity bit 58. */
    method DecodeDate() returns (valid: bool, day: int, month: int, year: int)
      requires Valid()
      ensures valid == DateParity(bits[..])
      ensures valid ==> day == DayValue(bits[..]) && month == MonthValue(bits[..]) && year == YearValue(bits[..])
    {
      ghost var b := bits[..];
      day, month, year := -1, -1, -1;
      var sum := DateSum();
      valid := sum % 2 == bits[58] as int;
      if valid {
        day := bits[36] as int + 2 * bits[37] as int + 4 * bits[38] as int + 8 * bits[39] as int
               + 10 * bits[40] as int + 20 * bits[41] as int;
        month := bits[45] as int + 2 * bits[46] as int + 4 * bits[47] as int + 8 * bits[48] as int
                 + 10 * bits[49] as int;
        year := bits[50] as int + 2 * bits[51] as int + 4 * bits[52] as int + 8 * bits[53] as int
                + 10 * bits[54] as int + 20 * bits[55] as int + 40 * bits[56] as int + 80 * bits[57] as int;
        assert day == DayValue(b) && month == MonthValue(b) && year == YearValue(b);
      }
    }

    /** The loop of `decodeTime` that sums the date bits 36 to 56. */
    method DateSum() returns (sum: int)
      requires Valid()
      ensures sum == Sum(bits[..], 36, 57)
    {
      sum := 0;
      for i := 36 to 57
        invariant sum == Sum(bits[..], 36, i)
      {
        sum := sum + bits[i] as int;
      }
    }
  }
}
