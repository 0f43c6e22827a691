/*
 * Seven-segment displays: the glyph of a character as a bit mask over
 * configurable segment positions, and two drivers that keep a buffer of
 * up to five masks and send it to a chain of 74HC595 shift registers,
 * either over three port pins or over SPI. The last entry of the buffer is
 * sent first.
 */
module Ssd {
  import opened FixedWidth
  import opened AvrPlusPlus

  /** A segment's bit number within the mask, an `unsigned char`. */
  type SegPos = x: int | 0 <= x < 0x100

  datatype SegmentsMask = SegmentsMask(top: SegPos, rightTop: SegPos, rightBottom: SegPos, bottom: SegPos,
                                       leftBottom: SegPos, leftTop: SegPos, center: SegPos, dot: SegPos)

  /** The default wiring: segments a to g on bits 0 to 6, the dot on bit 7. */
  const DEFAULT_MASK := SegmentsMask(0, 1, 2, 3, 4, 5, 6, 7)

  /** `1 << p` stored in a `char`: a bit number past 7 drops out of the mask. */
  function Bit(p: SegPos): bv8 {
    if p < 8 then (1 as bv8) << p else 0
  }

  /** The lit segments of digit d. */
  function DigitGlyph(sm: SegmentsMask, d: int): bv8
    requires 0 <= d <= 9
  {
    var t, rt, rb, b, lb, lt, c :=
      Bit(sm.top), Bit(sm.rightTop), Bit(sm.rightBottom), Bit(sm.bottom),
      Bit(sm.leftBottom), Bit(sm.leftTop), Bit(sm.center);
    if d == 0 then t | rt | rb | b | lb | lt
    else if d == 1 then rt | rb
    else if d == 2 then t | rt | c | lb | b
    else if d == 3 then t | rt | c | rb | b
    else if d == 4 then lt | c | rt | rb
    else if d == 5 then t | lt | c | rb | b
    else if d == 6 then t | lt | c | rb | b | lb
    else if d == 7 then t | rt | rb
    else if d == 8 then t | rt | c | rb | b | lb | lt
    else t | rt | c | rb | b | lt
  }

  const DOT_CHAR: int := 46
  const MINUS_CHAR: int := 45
  const ZERO_CHAR: int := 48

  /**
   * `getBits` of a (signed) `char`: '.' and '-' light the dot and the
   * centre, the values 0 to 9 and the characters '0' to '9' their digit,
   * anything else nothing; `dot` adds the dot.
   */
  function GetBits(sm: SegmentsMask, c: int8, dot: bool): bv8 {
    var bits :=
      if c == DOT_CHAR then Bit(sm.dot)
      else if c == MINUS_CHAR then Bit(sm.center)
      else if 0 <= c <= 9 then DigitGlyph(sm, c)
      else if ZERO_CHAR <= c <= ZERO_CHAR + 9 then DigitGlyph(sm, c - ZERO_CHAR)
      else 0;
    if dot then bits | Bit(sm.dot) else bits
  }

  /** The conventional gfedcba codes of the ten digits. */
  const SEVEN_SEGMENT_CODES: seq<bv8> := [0x3F, 0x06, 0x5B, 0x4F, 0x66, 0x6D, 0x7D, 0x07, 0x7F, 0x6F]

  /** With the default wiring every digit, as a character or as a value, has its conventional code. */
  lemma DefaultDigitCodes(d: int)
    requires 0 <= d <= 9
    ensures GetBits(DEFAULT_MASK, d, false) == SEVEN_SEGMENT_CODES[d]
    ensures GetBits(DEFAULT_MASK, ZERO_CHAR + d, false) == SEVEN_SEGMENT_CODES[d]
  {}

  /** A digit value and its character light the same segments, whatever the wiring. */
  lemma CodesAndCharactersAgree(sm: SegmentsMask, d: int, dot: bool)
    requires 0 <= d <= 9
    ensures GetBits(sm, d, dot) == GetBits(sm, ZERO_CHAR + d, dot)
  {}

  /** '.' is the dot alone, '-' the centre alone, and any non-glyph character blank. */
  lemma OtherCharacters(sm: SegmentsMask, c: int8)
    ensures c == DOT_CHAR ==> GetBits(sm, c, false) == Bit(sm.dot)
    ensures c == MINUS_CHAR ==> GetBits(sm, c, false) == Bit(sm.center)
    ensures c != DOT_CHAR && c != MINUS_CHAR && !(0 <= c <= 9) && !(ZERO_CHAR <= c <= ZERO_CHAR + 9) ==>
      GetBits(sm, c, false) == 0
  {}

  /** The dot flag sets the dot bit, if the dot's bit number lies in the mask, and clears no other. */
  lemma DotOnlyAdds(sm: SegmentsMask, c: int8)
    ensures GetBits(sm, c, true) == GetBits(sm, c, false) | Bit(sm.dot)
    ensures GetBits(sm, c, false) & !GetBits(sm, c, true) == 0
    ensures sm.dot < 8 ==> GetBits(sm, c, true) & Bit(sm.dot) != 0
  {}

  // ---------------------------------------------------------------------
  // Sending the buffer
  // ---------------------------------------------------------------------

  /** The buffer entries `putString` fills from the text: the dot argument is not used. */
  function Glyphs(sm: SegmentsMask, str: seq<int8>, n: nat): (r: seq<bv8>)
    requires n <= |str|
    ensures |r| == n && forall i :: 0 <= i < n ==> r[i] == GetBits(sm, str[i], false)
  {
    if n == 0 then [] else Glyphs(sm, str, n - 1) + [GetBits(sm, str[n - 1], false)]
  }

  /** The order in which a buffer goes out: highest index first. */
  function SendOrder(s: seq<bv8>): (r: seq<uint8>)
    ensures |r| == |s| && forall k :: 0 <= k < |s| ==> r[k] == s[|s| - 1 - k] as int
  {
    if |s| == 0 then [] else SendOrder(s[1..]) + [s[0] as int]
  }

  /** What the three-pin driver does to the shift register: latch low, one serial bit per clock, latch high. */
  datatype ShiftEvent = LatchLow | Shift(ser: bool) | LatchHigh

  /** `putChar` of the three-pin driver: bit 7 first. */
  function ByteShifts(b: bv8): (r: seq<ShiftEvent>)
    ensures |r| == 8 && forall k :: 0 <= k < 8 ==> r[k] == Shift(BitSet(b, 7 - k))
  {
    seq(8, k requires 0 <= k < 8 => Shift(BitSet(b, 7 - k)))
  }

  predicate BitSet(b: bv8, p: SegPos) {
    b & Bit(p) != 0
  }

  /** The eight-bit shift register: clocking in a bit shifts the rest one place up. */
  function Load(r: bv8, events: seq<ShiftEvent>): bv8
    decreases |events|
  {
    if |events| == 0 then r
    else
      var e := events[0];
      var r' := if e.Shift? then In(r, e.ser) else r;
      Load(r', events[1..])
  }

  /** After the eight clocks of a byte the register holds exactly that byte, whatever it held before. */
  lemma ByteShiftsLoad(r: bv8, b: bv8)
    ensures Load(r, ByteShifts(b)) == b
  {
    var s := ByteShifts(b);
    var x1 := In(r, BitSet(b, 7));
    var x2 := In(x1, BitSet(b, 6));
    var x3 := In(x2, BitSet(b, 5));
    var x4 := In(x3, BitSet(b, 4));
    var x5 := In(x4, BitSet(b, 3));
    var x6 := In(x5, BitSet(b, 2));
    var x7 := In(x6, BitSet(b, 1));
    var x8 := In(x7, BitSet(b, 0));
    assert s[0..] == s;
    LoadStep(r, s, 0);
    LoadStep(x1, s, 1);
    LoadStep(x2, s, 2);
    LoadStep(x3, s, 3);
    LoadStep(x4, s, 4);
    LoadStep(x5, s, 5);
    LoadStep(x6, s, 6);
    LoadStep(x7, s, 7);
    assert s[8..] == [];
    EightBitsIn(r, b);
  }

  /** One clock of the register with serial input `ser`. */
  function In(r: bv8, ser: bool): bv8 {
    (r << 1) | (if ser then 1 else 0)
  }

  /** Clocking in the bits of b from bit 7 down to bit 0 leaves b in the register. */
  lemma EightBitsIn(r: bv8, b: bv8)
    ensures In(In(In(In(In(In(In(In(r, BitSet(b, 7)), BitSet(b, 6)), BitSet(b, 5)), BitSet(b, 4)),
                  BitSet(b, 3)), BitSet(b, 2)), BitSet(b, 1)), BitSet(b, 0)) == b
  {}

  lemma LoadStep(r: bv8, s: seq<ShiftEvent>, k: nat)
    requires k < |s| && s[k].Shift?
    ensures Load(r, s[k..]) == Load(In(r, s[k].ser), s[k + 1..])
  {
    assert s[k..][1..] == s[k + 1..];
  }

  /** The shift events of a buffer sent highest index first. */
  function SentShifts(s: seq<bv8>): seq<ShiftEvent> {
    if |s| == 0 then [] else SentShifts(s[1..]) + ByteShifts(s[0])
  }

  const MAX_SEGMENTS := 5

  /** The number of buffer entries a `segNumbers` fills: none for a negative count. */
  function Filled(segNumbers: int): nat {
    if segNumbers < 0 then 0 else segNumbers
  }

  /** The three-pin driver (`Ssd_74HC595_3bit`). */
  class Ssd74HC595ThreeBit {
    var sm: SegmentsMask
    const segData: array<bv8>
    var trace: seq<ShiftEvent>

    constructor ()
      ensures sm == DEFAULT_MASK && segData.Length == MAX_SEGMENTS && fresh(segData) && trace == []
    {
      sm := DEFAULT_MASK;
      segData := new bv8[MAX_SEGMENTS];
      trace := [];
    }

    method SetSegmentsMask(sm: SegmentsMask)
      modifies this
      ensures this.sm == sm && trace == old(trace)
    {
      this.sm := sm;
    }

    method PutChar(bits: bv8)
      modifies this
      ensures trace == old(trace) + ByteShifts(bits) && sm == old(sm)
    {
      var i := 8;
      while i > 0
        invariant 0 <= i <= 8
        invariant trace == old(trace) + ByteShifts(bits)[..8 - i] && sm == old(sm)
      {
        i := i - 1;
        trace := trace + [Shift(bits & Bit(i) != 0)];
        assert ByteShifts(bits)[..8 - i] == ByteShifts(bits)[..8 - i - 1] + [ByteShifts(bits)[7 - i]];
      }
    }

    method PutString(str: seq<int8>, segNumbers: int16)
      requires segData.Length == MAX_SEGMENTS
      requires segNumbers >= MAX_SEGMENTS || segNumbers <= |str|
      modifies this, segData
      ensures sm == old(sm)
      ensures segNumbers >= MAX_SEGMENTS ==> segData[..] == old(segData[..]) && trace == old(trace)
      ensures segNumbers < MAX_SEGMENTS ==>
        var n := Filled(segNumbers);
        && segData[..n] == Glyphs(sm, str, n) && segData[n..] == old(segData[n..])
        && trace == old(trace) + [LatchLow] + SentShifts(segData[..n]) + [LatchHigh]
    {
      if segNumbers >= MAX_SEGMENTS {
        return;
      }
      var n := Filled(segNumbers);
      FillGlyphs(sm, segData, str, n);
      trace := trace + [LatchLow];
      SendBuffer(n);
      trace := trace + [LatchHigh];
    }

    /** The sending loop of `putString`: entries n - 1 down to 0, each bit 7 first. */
    method SendBuffer(n: nat)
      requires n <= segData.Length
      modifies this
      ensures trace == old(trace) + SentShifts(segData[..n]) && sm == old(sm)
    {
      var i := n;
      while i > 0
        invariant 0 <= i <= n
        invariant trace == old(trace) + SentShifts(segData[i..n]) && sm == old(sm)
      {
        i := i - 1;
        assert segData[i..n][1..] == segData[i + 1..n];
        PutChar(segData[i]);
      }
      assert segData[0..n] == segData[..n];
    }
  }

  /** The filling loop of `putString`: entry i is the glyph of character i, without the dot. */
  method FillGlyphs(sm: SegmentsMask, segData: array<bv8>, str: seq<int8>, n: nat)
    requires n <= segData.Length && n <= |str|
    modifies segData
    ensures segData[..n] == Glyphs(sm, str, n) && segData[n..] == old(segData[n..])
  {
    var i := 0;
    while i < n
      invariant 0 <= i <= n
      invariant segData[..i] == Glyphs(sm, str, i) && segData[n..] == old(segData[n..])
    {
      segData[i] := GetBits(sm, str[i], false);
      i := i + 1;
    }
  }

  /** The SPI driver (`Ssd_74HC595_SPI`). */
  class Ssd74HC595Spi {
    var sm: SegmentsMask
    const segData: array<bv8>
    const spi: SpiDevice

    constructor ()
      ensures sm == DEFAULT_MASK && segData.Length == MAX_SEGMENTS && fresh(segData)
      ensures fresh(spi) && spi.trace == []
    {
      sm := DEFAULT_MASK;
      segData := new bv8[MAX_SEGMENTS];
      spi := new SpiDevice();
    }

    method PutString(str: seq<int8>, segNumbers: int16)
      requires segData.Length == MAX_SEGMENTS
      requires segNumbers >= MAX_SEGMENTS || segNumbers <= |str|
      modifies segData, spi
      ensures segNumbers >= MAX_SEGMENTS ==> segData[..] == old(segData[..]) && spi.trace == old(spi.trace)
      ensures segNumbers < MAX_SEGMENTS ==>
        var n := Filled(segNumbers);
        && segData[..n] == Glyphs(sm, str, n) && segData[n..] == old(segData[n..])
        && spi.trace == old(spi.trace) + [Select] + Bytes(SendOrder(segData[..n])) + [Deselect]
    {
      if segNumbers >= MAX_SEGMENTS {
        return;
      }
      var n := Filled(segNumbers);
      FillGlyphs(sm, segData, str, n);
      spi.StartTransfer();
      SendBuffer(n);
      spi.FinishTransfer();
    }

    /** The sending loop of `putString`: entries n - 1 down to 0, one byte each. */
    method SendBuffer(n: nat)
      requires n <= segData.Length
      modifies spi
      ensures spi.trace == old(spi.trace) + Bytes(SendOrder(segData[..n]))
    {
      var i := n;
      while i > 0
        invariant 0 <= i <= n
        invariant spi.trace == old(spi.trace) + Bytes(SendOrder(segData[i..n]))
      {
        i := i - 1;
        assert segData[i..n][1..] == segData[i + 1..n];
        BytesAppend(SendOrder(segData[i + 1..n]), [segData[i] as int]);
        spi.PutChar(segData[i] as int);
      }
      assert segData[0..n] == segData[..n];
    }
  }
}
