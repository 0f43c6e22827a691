/*
 * The SD card driver in SPI mode: the CRC7 of command frames and the
 * CRC16 of data blocks (section 4.5 of the SD Physical Layer Simplified
 * Specification), the six-byte command frame of section 7.3.1.1 with the
 * polling for its R1 answer, and the card-status guards of the block
 * transfers.
 */
module Sdhc {
  import opened FixedWidth
  import opened AvrPlusPlus

  // ---------------------------------------------------------------------
  // CRC7: polynomial x^7 + x^3 + 1, kept in bits 7..1 of a byte
  // ---------------------------------------------------------------------

  /** x^7 + x^3 + 1 with the x^7 term in bit 7. */
  const CRC7_POLY: bv8 := 0x89

  /** One round of `CRC7_one`: reduce by the polynomial when bit 7 is set, then shift. */
  function Crc7Round(c: bv8): bv8 {
    (if c & 0x80 != 0 then c ^ CRC7_POLY else c) << 1
  }

  function Crc7Rounds(c: bv8, n: nat): bv8
    decreases n
  {
    if n == 0 then c else Crc7Rounds(Crc7Round(c), n - 1)
  }

  /** `CRC7_one`: the data byte is XORed in, then eight rounds. */
  function Crc7Of(crcIn: bv8, data: bv8): bv8 {
    Crc7Rounds(crcIn ^ data, 8)
  }

  /**
   * The textbook definition: a 7-bit register fed with the message bits,
   * most significant first; whenever the bit leaving the register differs
   * from the message bit, x^3 + 1 is added. `e` holds the message bits
   * still to come in its top bits.
   */
  function Crc7BitStep(r: bv8, e: bv8): bv8 {
    var fb := (r & 0x40 != 0) != (e & 0x80 != 0);
    ((r << 1) & 0x7F) ^ (if fb then 0x09 else 0)
  }

  function Crc7Feed(r: bv8, e: bv8, n: nat): bv8
    decreases n
  {
    if n == 0 then r else Crc7Feed(Crc7BitStep(r, e), e << 1, n - 1)
  }

  /** The textbook CRC7 register after the eight bits of `data`. */
  function Crc7Reference(r: bv8, data: bv8): bv8 {
    Crc7Feed(r, data, 8)
  }

  /** `e` shifted left n times. */
  function ShiftedOut(e: bv8, n: nat): bv8
    decreases n
  {
    if n == 0 then e else ShiftedOut(e << 1, n - 1)
  }

  /** The result of `CRC7_one` always has bit 0 clear. */
  lemma {:induction false} Crc7LowBitClear(crcIn: bv8, data: bv8)
    ensures Crc7Of(crcIn, data) & 1 == 0
  {
    var c := Crc7Rounds(crcIn ^ data, 7);
    Crc7RoundsSplit(crcIn ^ data, 7);
    assert Crc7Of(crcIn, data) == Crc7Round(c);
  }

  lemma {:induction false} Crc7RoundsSplit(c: bv8, n: nat)
    ensures Crc7Rounds(c, n + 1) == Crc7Round(Crc7Rounds(c, n))
    decreases n
  {
    if n > 0 {
      Crc7RoundsSplit(Crc7Round(c), n - 1);
    }
  }

  /** `CRC7_one` is the textbook CRC7 of the byte, left-aligned in the result. */
  lemma {:induction false} Crc7AgreesWithReference(r: bv8, data: bv8)
    requires r < 0x80
    ensures Crc7Of(r << 1, data) == Crc7Reference(r, data) << 1
  {
    Crc7RoundsFeedByte(r, data);
  }

  lemma {:induction false} Crc7RoundsFeedByte(r: bv8, data: bv8)
    requires r < 0x80
    ensures Crc7Rounds((r << 1) ^ data, 8) == Crc7Feed(r, data, 8) << 1
  {
    Crc7RoundsFeedTop(r, data);
  }

  lemma {:induction false} Crc7RoundsFeedTop(r: bv8, data: bv8)
    requires r < 0x80
    ensures Crc7Rounds((r << 1) ^ data, 8) == (Crc7Feed(r, data, 8) << 1) ^ ShiftedOut(data, 8)
    ensures ShiftedOut(data, 8) == 0
  {
    Crc7RoundsFeed(r, data, 8);
    ShiftedOutByte(data);
  }

  /** Eight shifts move every bit out of a byte. */
  lemma {:induction false} ShiftedOutByte(e: bv8)
    ensures ShiftedOut(e, 8) == 0
  {
    var e1 := e << 1;
    var e2 := e1 << 1;
    var e3 := e2 << 1;
    var e4 := e3 << 1;
    var e5 := e4 << 1;
    var e6 := e5 << 1;
    var e7 := e6 << 1;
    assert ShiftedOut(e, 8) == ShiftedOut(e7, 1);
  }

  lemma XorZero(a: bv8, z: bv8)
    requires z == 0
    ensures a ^ z == a
  {}

  /**
   * n rounds of `CRC7_one` on a left-aligned register r with the message
   * bits e XORed in follow n steps of the textbook register.
   */
  lemma {:induction false} Crc7RoundsFeed(r: bv8, e: bv8, n: nat)
    requires r < 0x80
    ensures Crc7Rounds((r << 1) ^ e, n) == (Crc7Feed(r, e, n) << 1) ^ ShiftedOut(e, n)
    decreases n
  {
    if n > 0 {
      var r1, e1 := Crc7BitStep(r, e), e << 1;
      Crc7RoundAgrees(r, e);
      assert Crc7Rounds((r << 1) ^ e, n) == Crc7Rounds((r1 << 1) ^ e1, n - 1);
      Crc7RoundsFeed(r1, e1, n - 1);
      assert Crc7Feed(r, e, n) == Crc7Feed(r1, e1, n - 1);
      assert ShiftedOut(e, n) == ShiftedOut(e1, n - 1);
    }
  }

  lemma Crc7RoundAgrees(r: bv8, e: bv8)
    requires r < 0x80
    ensures Crc7BitStep(r, e) < 0x80
    ensures Crc7Round((r << 1) ^ e) == (Crc7BitStep(r, e) << 1) ^ (e << 1)
  {
    if (r & 0x40 != 0) != (e & 0x80 != 0) {
      assert ((r << 1) ^ e) & 0x80 != 0;
    } else {
      assert ((r << 1) ^ e) & 0x80 == 0;
    }
  }

  /** The CRC of a buffer: the one-byte step folded over it from the left. */
  function Crc7Fold(crc: bv8, buf: seq<bv8>): bv8
    decreases |buf|
  {
    if |buf| == 0 then crc else Crc7Fold(Crc7Of(crc, buf[0]), buf[1..])
  }

  /** `CRC7_buf` starts from 0. */
  function Crc7OfBuffer(buf: seq<bv8>): bv8 {
    Crc7Fold(0, buf)
  }

  lemma {:induction false} Crc7FoldAppend(crc: bv8, buf: seq<bv8>, x: bv8)
    ensures Crc7Fold(crc, buf + [x]) == Crc7Of(Crc7Fold(crc, buf), x)
    decreases |buf|
  {
    if |buf| == 0 {
      assert (buf + [x])[1..] == [];
    } else {
      assert (buf + [x])[1..] == buf[1..] + [x];
      Crc7FoldAppend(Crc7Of(crc, buf[0]), buf[1..], x);
    }
  }

  /** An empty buffer has CRC 0; a non-empty one a CRC with bit 0 clear. */
  lemma Crc7OfBufferLowBit(buf: seq<bv8>)
    ensures |buf| == 0 ==> Crc7OfBuffer(buf) == 0
    ensures |buf| > 0 ==> Crc7OfBuffer(buf) & 1 == 0
  {
    if |buf| > 0 {
      var init := buf[..|buf| - 1];
      assert buf == init + [buf[|buf| - 1]];
      Crc7FoldAppend(0, init, buf[|buf| - 1]);
      Crc7LowBitClear(Crc7Fold(0, init), buf[|buf| - 1]);
    }
  }

  /**
   * The frames of CMD0 and CMD8 as `init` sends them: their CRC7 with the
   * end bit set is the CRC byte `init` hard-codes.
   */
  lemma InitCommandCrcs()
    ensures (Crc7OfBuffer([0x40, 0, 0, 0, 0]) | 1) as int == CMD0_CRC
    ensures (Crc7OfBuffer([0x48, 0, 0, 0x01, 0xAA]) | 1) as int == CMD8_CRC
  {
    Cmd0Crc();
    Cmd8Crc();
  }

  lemma Cmd0Crc()
    ensures Crc7Fold(0, [0x40, 0, 0, 0, 0]) == 0x94
  {
    Crc7Cmd0Bytes();
    Crc7FoldFive(0, 0x40, 0, 0, 0, 0);
  }

  lemma Cmd8Crc()
    ensures Crc7Fold(0, [0x48, 0, 0, 0x01, 0xAA]) == 0x86
  {
    Crc7Cmd8Bytes();
    Crc7FoldFive(0, 0x48, 0, 0, 0x01, 0xAA);
  }

  /** The one-byte steps of the two frames. */
  lemma Crc7Cmd0Bytes()
    ensures Crc7Of(0, 0x40) == 0xC8 && Crc7Of(0xC8, 0) == 0xDA && Crc7Of(0xDA, 0) == 0xCC
    ensures Crc7Of(0xCC, 0) == 0x92 && Crc7Of(0x92, 0) == 0x94
  {}

  lemma Crc7Cmd8Bytes()
    ensures Crc7Of(0, 0x48) == 0x58 && Crc7Of(0x58, 0) == 0x6A && Crc7Of(0x6A, 0) == 0x18
    ensures Crc7Of(0x18, 0x01) == 0xB0 && Crc7Of(0xB0, 0xAA) == 0x86
  {}

  lemma Crc7FoldFive(crc: bv8, a: bv8, b: bv8, c: bv8, d: bv8, e: bv8)
    ensures Crc7Fold(crc, [a, b, c, d, e]) ==
      Crc7Of(Crc7Of(Crc7Of(Crc7Of(Crc7Of(crc, a), b), c), d), e)
  {
    var c1 := Crc7Of(crc, a);
    var c2 := Crc7Of(c1, b);
    var c3 := Crc7Of(c2, c);
    var c4 := Crc7Of(c3, d);
    assert [e][1..] == [];
    assert Crc7Fold(c4, [e]) == Crc7Of(c4, e);
    assert [d, e][1..] == [e];
    assert Crc7Fold(c3, [d, e]) == Crc7Fold(c4, [e]);
    assert [c, d, e][1..] == [d, e];
    assert Crc7Fold(c2, [c, d, e]) == Crc7Fold(c3, [d, e]);
    assert [b, c, d, e][1..] == [c, d, e];
    assert Crc7Fold(c1, [b, c, d, e]) == Crc7Fold(c2, [c, d, e]);
    assert [a, b, c, d, e][1..] == [b, c, d, e];
  }

  /** Loop form of `CRC7_one`. */
  method Crc7One(crcIn: bv8, data: bv8) returns (crc: bv8)
    ensures crc == Crc7Of(crcIn, data)
  {
    crc := crcIn ^ data;
    var i := 0;
    while i < 8
      invariant 0 <= i <= 8
      invariant Crc7Rounds(crc, 8 - i) == Crc7Of(crcIn, data)
    {
      if crc & 0x80 != 0 {
        crc := crc ^ CRC7_POLY;
      }
      crc := crc << 1;
      i := i + 1;
    }
  }

  /** Loop form of `CRC7_buf`; the length is an `uint8_t`. */
  method Crc7Buf(buf: seq<bv8>) returns (crc: bv8)
    requires |buf| < 0x100
    ensures crc == Crc7OfBuffer(buf)
  {
    crc := 0;
    var i := 0;
    while i < |buf|
      invariant 0 <= i <= |buf|
      invariant crc == Crc7Fold(0, buf[..i])
    {
      assert buf[..i + 1] == buf[..i] + [buf[i]];
      Crc7FoldAppend(0, buf[..i], buf[i]);
      crc := Crc7One(crc, buf[i]);
      i := i + 1;
    }
    assert buf[..i] == buf;
  }

  // ---------------------------------------------------------------------
  // CRC16: polynomial x^16 + x^12 + x^5 + 1
  // ---------------------------------------------------------------------

  /**
   * `CRC16_one`: the byte-at-a-time form. The 16-bit `int` promotions of
   * the source lose the bits shifted out, as `bv16` shifts do.
   */
  function Crc16Of(crcIn: bv16, data: bv8): bv16 {
    var c1 := ((crcIn >> 8) & 0xFF) | (crcIn << 8);
    var c2 := c1 ^ (data as bv16);
    var c3 := c2 ^ ((c2 & 0xFF) >> 4);
    var c4 := c3 ^ ((c3 << 8) << 4);
    c4 ^ (((c4 & 0xFF) << 4) << 1)
  }

  /**
   * The bitwise definition: one shift of the 16-bit register, reduced by
   * the polynomial x^16 + x^12 + x^5 + 1 (0x1021 without its x^16 term) when the bit shifted out was set (written without a
   * branch: `0 - (c >> 15)` is all ones exactly when bit 15 is set).
   */
  function Crc16BitStep(c: bv16): bv16 {
    (c << 1) ^ (0x1021 & (0 - (c >> 15)))
  }

  lemma Crc16BitStepCases(c: bv16)
    ensures Crc16BitStep(c) == if c & 0x8000 != 0 then (c << 1) ^ 0x1021 else c << 1
  {
    if c & 0x8000 != 0 {
      assert c >> 15 == 1;
    } else {
      assert c >> 15 == 0;
    }
  }

  /** n bitwise steps. */
  function Crc16Rounds(c: bv16, n: nat): bv16
    decreases n
  {
    if n == 0 then c else Crc16BitStep(Crc16Rounds(c, n - 1))
  }

  /** The textbook CRC16-CCITT update: the byte enters the top of the register, then eight steps. */
  function Crc16Reference(crcIn: bv16, data: bv8): bv16 {
    Crc16Rounds(crcIn ^ ((data as bv16) << 8), 8)
  }

  /** `CRC16_one` computes exactly eight bitwise steps of the CRC16 with polynomial 0x1021. */
  lemma Crc16AgreesWithReference(crcIn: bv16, data: bv8)
    ensures Crc16Of(crcIn, data) == Crc16Reference(crcIn, data)
  {
    Crc16OfClosedX(crcIn, data);
    Crc16RoundsX(crcIn ^ ((data as bv16) << 8));
  }

  function Crc16Steps(c: bv16): bv16 {
    Crc16BitStep(Crc16BitStep(Crc16BitStep(Crc16BitStep(
      Crc16BitStep(Crc16BitStep(Crc16BitStep(Crc16BitStep(c))))))))
  }

  /** A value below bit 15 passes through a step unreduced. */
  lemma Crc16StepLow(a: bv16, b: bv16)
    requires b & 0x8000 == 0
    ensures Crc16BitStep(a ^ b) == Crc16BitStep(a) ^ (b << 1)
  {}

  /** The low byte of the register is only shifted up by the eight steps. */
  lemma Crc16StepsLowByte(t: bv16, l: bv16)
    requires t < 0x100 && l < 0x100
    ensures Crc16Steps((t << 8) ^ l) == Crc16Steps(t << 8) ^ (l << 8)
  {
    var a0 := t << 8;
    var a1 := Crc16BitStep(a0);
    var a2 := Crc16BitStep(a1);
    var a3 := Crc16BitStep(a2);
    var a4 := Crc16BitStep(a3);
    var a5 := Crc16BitStep(a4);
    var a6 := Crc16BitStep(a5);
    var a7 := Crc16BitStep(a6);
    Crc16StepLow(a0, l);
    Crc16StepLow(a1, l << 1);
    Crc16StepLow(a2, (l << 1) << 1);
    Crc16StepLow(a3, ((l << 1) << 1) << 1);
    Crc16StepLow(a4, (((l << 1) << 1) << 1) << 1);
    Crc16StepLow(a5, ((((l << 1) << 1) << 1) << 1) << 1);
    Crc16StepLow(a6, (((((l << 1) << 1) << 1) << 1) << 1) << 1);
    Crc16StepLow(a7, ((((((l << 1) << 1) << 1) << 1) << 1) << 1) << 1);
  }

  /** The effect of the eight steps on the high byte t, as `CRC16_one` computes it. */
  function Crc16Mix(t: bv16): bv16 {
    var u := t ^ (t >> 4);
    (u ^ (u << 12)) ^ (u << 5)
  }

  lemma Crc16StepsHighByte(t: bv16)
    requires t < 0x100
    ensures Crc16Steps(t << 8) == Crc16Mix(t)
  {}

  lemma XorCommutes(x: bv16, y: bv16)
    ensures x ^ y == y ^ x
  {}

  lemma Crc16StepsSplit(t: bv16, l: bv16)
    requires t < 0x100 && l < 0x100
    ensures Crc16Steps((t << 8) ^ l) == (l << 8) ^ Crc16Mix(t)
  {
    Crc16StepsLowByte(t, l);
    Crc16StepsHighByte(t);
    XorCommutes(l << 8, Crc16Mix(t));
  }

  lemma Crc16RoundsUnroll(c: bv16)
    ensures Crc16Rounds(c, 8) == Crc16Steps(c)
  {
    assert Crc16Rounds(c, 1) == Crc16BitStep(c);
    assert Crc16Rounds(c, 2) == Crc16BitStep(Crc16BitStep(c));
    assert Crc16Rounds(c, 3) == Crc16BitStep(Crc16BitStep(Crc16BitStep(c)));
    assert Crc16Rounds(c, 4) == Crc16BitStep(Crc16BitStep(Crc16BitStep(Crc16BitStep(c))));
    assert Crc16Rounds(c, 5) == Crc16BitStep(Crc16BitStep(Crc16BitStep(Crc16BitStep(Crc16BitStep(c)))));
    assert Crc16Rounds(c, 6) ==
      Crc16BitStep(Crc16BitStep(Crc16BitStep(Crc16BitStep(Crc16BitStep(Crc16BitStep(c))))));
    assert Crc16Rounds(c, 7) ==
      Crc16BitStep(Crc16BitStep(Crc16BitStep(Crc16BitStep(Crc16BitStep(Crc16BitStep(Crc16BitStep(c)))))));
  }

  /** The closed form of eight steps on a register with high byte t and low byte l. */
  function Crc16Closed(t: bv16, l: bv16): bv16 {
    var u := t ^ (t >> 4);
    (l << 8) ^ ((u ^ (u << 12)) ^ (u << 5))
  }

  function Crc16ClosedX(x: bv16): bv16 {
    Crc16Closed(x >> 8, x & 0xFF)
  }

  lemma Crc16RoundsHighLow(t: bv16, l: bv16)
    requires t < 0x100 && l < 0x100
    ensures Crc16Rounds((t << 8) ^ l, 8) == Crc16Closed(t, l)
  {
    Crc16RoundsUnroll((t << 8) ^ l);
    Crc16StepsSplit(t, l);
  }

  lemma Crc16RoundsCongruent(x: bv16, y: bv16)
    requires x == y
    ensures Crc16Rounds(x, 8) == Crc16Rounds(y, 8)
  {}

  lemma HighLowBytes(x: bv16, t: bv16, l: bv16)
    requires t == x >> 8 && l == x & 0xFF
    ensures x == (t << 8) ^ l && t < 0x100 && l < 0x100
  {}

  lemma Crc16RoundsBytes(x: bv16, t: bv16, l: bv16)
    requires t == x >> 8 && l == x & 0xFF
    ensures Crc16Rounds(x, 8) == Crc16Closed(t, l)
  {
    HighLowBytes(x, t, l);
    Crc16RoundsCongruent(x, (t << 8) ^ l);
    Crc16RoundsHighLow(t, l);
  }

  lemma Crc16RoundsX(x: bv16)
    ensures Crc16Rounds(x, 8) == Crc16ClosedX(x)
  {
    Crc16RoundsBytes(x, x >> 8, x & 0xFF);
  }

  lemma Crc16OfClosed(c: bv16, d: bv8)
    ensures Crc16Of(c, d) == Crc16Closed((c >> 8) ^ (d as bv16), c & 0xFF)
  {}

  lemma DataEntersHighByte(c: bv16, d: bv8)
    ensures (c ^ ((d as bv16) << 8)) >> 8 == (c >> 8) ^ (d as bv16)
    ensures (c ^ ((d as bv16) << 8)) & 0xFF == c & 0xFF
  {}

  lemma Crc16OfClosedX(c: bv16, d: bv8)
    ensures Crc16Of(c, d) == Crc16ClosedX(c ^ ((d as bv16) << 8))
  {
    Crc16OfClosed(c, d);
    DataEntersHighByte(c, d);
  }

  function Crc16Fold(crc: bv16, buf: seq<bv8>): bv16
    decreases |buf|
  {
    if |buf| == 0 then crc else Crc16Fold(Crc16Of(crc, buf[0]), buf[1..])
  }

  /** `CRC16_buf` starts from 0. */
  function Crc16OfBuffer(buf: seq<bv8>): bv16 {
    Crc16Fold(0, buf)
  }

  lemma {:induction false} Crc16FoldAppend(crc: bv16, buf: seq<bv8>, x: bv8)
    ensures Crc16Fold(crc, buf + [x]) == Crc16Of(Crc16Fold(crc, buf), x)
    decreases |buf|
  {
    if |buf| == 0 {
      assert (buf + [x])[1..] == [];
    } else {
      assert (buf + [x])[1..] == buf[1..] + [x];
      Crc16FoldAppend(Crc16Of(crc, buf[0]), buf[1..], x);
    }
  }

  /** An empty buffer has CRC 0, and "123456789" has the catalogued check value 0x31C3. */
  lemma Crc16CheckValue()
    ensures Crc16OfBuffer([]) == 0
    ensures Crc16OfBuffer([0x31, 0x32, 0x33, 0x34, 0x35, 0x36, 0x37, 0x38, 0x39]) == 0x31C3
  {}

  /** Loop form of `CRC16_buf`; the length is an `uint16_t`. */
  method Crc16Buf(buf: seq<bv8>) returns (crc: bv16)
    requires |buf| < 0x1_0000
    ensures crc == Crc16OfBuffer(buf)
  {
    crc := 0;
    var i := 0;
    while i < |buf|
      invariant 0 <= i <= |buf|
      invariant crc == Crc16Fold(0, buf[..i])
    {
      assert buf[..i + 1] == buf[..i] + [buf[i]];
      Crc16FoldAppend(0, buf[..i], buf[i]);
      crc := Crc16Of(crc, buf[i]);
      i := i + 1;
    }
    assert buf[..i] == buf;
  }

  // ---------------------------------------------------------------------
  // Command frames and responses
  // ---------------------------------------------------------------------

  /** Command bytes: the start and transmission bits 01 followed by the command index. */
  const COMMANDS_BASE: uint8 := 0x40
  const GO_IDLE_STATE: uint8 := COMMANDS_BASE + 0
  const SEND_IF_COND: uint8 := COMMANDS_BASE + 8
  const SEND_CID: uint8 := COMMANDS_BASE + 10
  const READ_SINGLE_BLOCK: uint8 := COMMANDS_BASE + 17
  const WRITE_SINGLE_BLOCK: uint8 := COMMANDS_BASE + 24
  const SD_SEND_OP_COND: uint8 := COMMANDS_BASE + 41
  const APP_CMD: uint8 := COMMANDS_BASE + 55
  const READ_OCR: uint8 := COMMANDS_BASE + 58
  const START_TOKEN_SINGLE: uint8 := 0xFE
  const BLOCK_SIZE := 512

  /** The CRC bytes `init` uses for CMD0 and CMD8. */
  const CMD0_CRC: uint8 := 0x95
  const CMD8_CRC: uint8 := 0x87

  datatype CardStatus = Ok | Error | NoCard
  datatype CardType = NotSupported | Mmc | SdcV1 | SdcV2 | Sdhc
  datatype ResponseType = R1 | R2 | R3 | R7

  predicate IsCommandByte(cmd: uint8) {
    cmd in {GO_IDLE_STATE, SEND_IF_COND, SEND_CID, READ_SINGLE_BLOCK,
            WRITE_SINGLE_BLOCK, SD_SEND_OP_COND, APP_CMD, READ_OCR}
  }

  /** Every command byte starts with the bits 0 then 1, and its low six bits are the index. */
  lemma CommandByteStartBits(cmd: uint8)
    requires IsCommandByte(cmd)
    ensures cmd / 0x40 == 1
    ensures cmd % 0x40 in {0, 8, 10, 17, 24, 41, 55, 58}
  {}

  /**
   * What `sendCommand` puts on the bus: a 0xFF filler, the command byte,
   * the 32-bit argument most significant byte first, and the CRC byte.
   */
  function CommandFrame(cmd: uint8, param: uint32, crc: uint8): (r: seq<uint8>)
    ensures |r| == 7
  {
    [0xFF, cmd, param / 0x100_0000, (param / 0x1_0000) % 0x100, (param / 0x100) % 0x100, param % 0x100, crc]
  }

  /** The argument read back from the frame, big-endian. */
  function FrameParam(frame: seq<uint8>): int
    requires |frame| == 7
  {
    ((frame[2] as int * 0x100 + frame[3]) * 0x100 + frame[4]) * 0x100 + frame[5]
  }

  /** The frame carries the command, the whole argument and the CRC, each recoverable. */
  lemma CommandFrameRoundTrip(cmd: uint8, param: uint32, crc: uint8)
    ensures var f := CommandFrame(cmd, param, crc);
      f[0] == 0xFF && f[1] == cmd && FrameParam(f) == param && f[6] == crc
  {
    var b3, b2, b1, b0 := param / 0x100_0000, (param / 0x1_0000) % 0x100, (param / 0x100) % 0x100, param % 0x100;
    assert param / 0x1_0000 == b3 * 0x100 + b2;
    assert param / 0x100 == (b3 * 0x100 + b2) * 0x100 + b1;
  }

  /** Two different commands, arguments or CRCs never give the same frame. */
  lemma CommandFrameInjective(c1: uint8, p1: uint32, k1: uint8, c2: uint8, p2: uint32, k2: uint8)
    requires CommandFrame(c1, p1, k1) == CommandFrame(c2, p2, k2)
    ensures c1 == c2 && p1 == p2 && k1 == k2
  {
    CommandFrameRoundTrip(c1, p1, k1);
    CommandFrameRoundTrip(c2, p2, k2);
  }

  /**
   * The number of bytes the R1 polling loop of `sendCommand` reads, starting
   * at byte p of the answer with the counter at `tries`: it stops at
   * the first byte with bit 7 clear, or when the counter was 0 at the test.
   */
  function PollCount(miso: seq<uint8>, p: nat, tries: nat): nat
    decreases tries
  {
    if tries == 0 || MisoByte(miso, p) < 0x80 then 1 else 1 + PollCount(miso, p + 1, tries - 1)
  }

  /**
   * The poll reads between 1 and tries + 1 bytes; every byte before the
   * last has bit 7 set; the last has bit 7 clear unless all tries + 1 bytes
   * were read.
   */
  lemma {:induction false} PollCountSpec(miso: seq<uint8>, p: nat, tries: nat)
    ensures var n := PollCount(miso, p, tries);
      && 1 <= n <= tries + 1
      && (forall i :: p <= i < p + n - 1 ==> MisoByte(miso, i) >= 0x80)
      && (MisoByte(miso, p + n - 1) < 0x80 || n == tries + 1)
    decreases tries
  {
    if tries > 0 && MisoByte(miso, p) >= 0x80 {
      PollCountSpec(miso, p + 1, tries - 1);
    }
  }

  /** With the counter of `sendCommand`, at most 256 bytes are read. */
  lemma PollCountBound(miso: seq<uint8>, p: nat)
    ensures 1 <= PollCount(miso, p, 0xFF) <= 256
  {
    PollCountSpec(miso, p, 0xFF);
  }

  /** The bytes after the R1 byte that `sendCommand` reads for each response type. */
  function ExtraBytes(t: ResponseType): nat {
    match t
    case R1 => 0
    case R2 => 1
    case R3 => 4
    case R7 => 4
  }

  /**
   * `responceData[1..4]` after the response: R2 stores its second byte in
   * entry 1; R3 and R7 store the four payload bytes backwards, the first
   * received in entry 4 and the last in entry 1, so that the little-endian
   * `unsigned long` over those entries is the payload read big-endian.
   */
  function ResponseTail(miso: seq<uint8>, p: nat, t: ResponseType, tail: seq<uint8>): seq<uint8>
    requires |tail| == 4
  {
    match t
    case R1 => tail
    case R2 => [MisoByte(miso, p)] + tail[1..]
    case R3 => [MisoByte(miso, p + 3), MisoByte(miso, p + 2), MisoByte(miso, p + 1), MisoByte(miso, p)]
    case R7 => [MisoByte(miso, p + 3), MisoByte(miso, p + 2), MisoByte(miso, p + 1), MisoByte(miso, p)]
  }

  /** Little-endian value of four bytes, as the bit fields of the R3/R7 payload see them. */
  function LittleEndian32(s: seq<uint8>): int
    requires |s| == 4
  {
    ((s[3] as int * 0x100 + s[2]) * 0x100 + s[1]) * 0x100 + s[0]
  }

  /** The R3/R7 payload over entries 1..4 is the four received bytes, first byte most significant. */
  lemma ResponsePayloadBigEndian(miso: seq<uint8>, p: nat, t: ResponseType, tail: seq<uint8>)
    requires |tail| == 4 && (t == R3 || t == R7)
    ensures LittleEndian32(ResponseTail(miso, p, t, tail)) ==
      ((MisoByte(miso, p) * 0x100 + MisoByte(miso, p + 1)) * 0x100 + MisoByte(miso, p + 2)) * 0x100 + MisoByte(miso, p + 3)
  {}

  /** The bytes p, p + 1, ..., p + n - 1 of the answer. */
  function CardBytes(miso: seq<uint8>, p: nat, n: nat): (r: seq<uint8>)
    ensures |r| == n && forall i :: 0 <= i < n ==> r[i] == MisoByte(miso, p + i)
  {
    seq<uint8>(n, i requires 0 <= i < n => MisoByte(miso, p + i))
  }

  /**
   * `waitDataToken`: (whether the start token came, the bytes read). It reads
   * until the token, at most `left` bytes; `left` is 255 in the source.
   */
  function TokenScan(miso: seq<uint8>, p: nat, left: nat): (bool, nat)
    decreases left
  {
    if left == 0 then (false, 0)
    else if MisoByte(miso, p) == START_TOKEN_SINGLE then (true, 1)
    else var r := TokenScan(miso, p + 1, left - 1); (r.0, r.1 + 1)
  }

  /**
   * The scan finds the token exactly when one of the first `left` bytes is
   * the token; it then stops right after the first one, and otherwise it
   * has read all `left` bytes.
   */
  lemma {:induction false} TokenScanSpec(miso: seq<uint8>, p: nat, left: nat)
    ensures var (found, n) := TokenScan(miso, p, left);
      && n <= left
      && (forall i :: p <= i < p + n - 1 ==> MisoByte(miso, i) != START_TOKEN_SINGLE)
      && (found <==> exists i :: p <= i < p + left && MisoByte(miso, i) == START_TOKEN_SINGLE)
      && (found ==> n >= 1 && MisoByte(miso, p + n - 1) == START_TOKEN_SINGLE)
      && (!found ==> n == left)
    decreases left
  {
    if left > 0 && MisoByte(miso, p) != START_TOKEN_SINGLE {
      TokenScanSpec(miso, p + 1, left - 1);
      var r := TokenScan(miso, p + 1, left - 1);
      if r.0 {
        var i :| p + 1 <= i < p + 1 + (left - 1) && MisoByte(miso, i) == START_TOKEN_SINGLE;
        assert p <= i < p + left;
      }
      if exists i :: p <= i < p + left && MisoByte(miso, i) == START_TOKEN_SINGLE {
        var i :| p <= i < p + left && MisoByte(miso, i) == START_TOKEN_SINGLE;
        assert p + 1 <= i < p + 1 + (left - 1);
      }
    } else if left > 0 {
      assert p <= p < p + left && MisoByte(miso, p) == START_TOKEN_SINGLE;
    }
  }

  /** The CRC16 of a block of `uint8_t` bytes, as `CRC16_buf` returns it. */
  function BlockCrc(block: seq<uint8>): uint16 {
    Crc16OfBuffer(ToBv8(block)) as int
  }

  function ToBv8(s: seq<uint8>): seq<bv8> {
    seq(|s|, i requires 0 <= i < |s| => s[i] as bv8)
  }

  /**
   * What `readBlock` makes of the bytes after an R1 of 0 that ended at
   * byte p: after the token scan come the block and its CRC16, high byte
   * first; with `checkSum` the CRC must match the block's, without it the
   * received CRC is compared with itself.
   */
  function BlockAccepted(miso: seq<uint8>, p: nat, checkSum: bool): bool {
    var q := BlockStart(miso, p);
    !checkSum || MisoByte(miso, q + BLOCK_SIZE) * 0x100 + MisoByte(miso, q + BLOCK_SIZE + 1) ==
                 BlockCrc(CardBytes(miso, q, BLOCK_SIZE))
  }

  /** Where the block starts in the answer: right after the bytes the token wait read. */
  function BlockStart(miso: seq<uint8>, p: nat): nat {
    p + TokenScan(miso, p, 0xFF).1
  }

  /** The value `readBlock` returns for a card in status OK whose answer starts at byte p. */
  function ReadBlockResult(miso: seq<uint8>, p: nat, checkSum: bool): bool {
    var p1 := p + PollCount(miso, p, 0xFF);
    MisoByte(miso, p1 - 1) == 0 && BlockAccepted(miso, p1, checkSum)
  }

  /**
   * Without a checksum, `readBlock` succeeds exactly when the card accepts
   * the command, whether or not the start token arrived; with it, the CRC
   * must match as well.
   */
  lemma ReadBlockResultCases(miso: seq<uint8>, p: nat)
    ensures var r1 := MisoByte(miso, p + PollCount(miso, p, 0xFF) - 1);
      && (ReadBlockResult(miso, p, false) <==> r1 == 0)
      && (ReadBlockResult(miso, p, true) ==> r1 == 0)
  {}

  /** The data packet `writeBlock` sends: two filler bytes, the start token, the block, two CRC filler bytes. */
  function DataPacket(block: seq<uint8>): seq<SpiEvent> {
    Bytes(IntBytes(0xFFFF)) + [Byte(START_TOKEN_SINGLE)] + Bytes(block) + Bytes(IntBytes(0xFFFF))
  }

  /** The token comes third, the block follows it byte for byte, and 0xFF surrounds them. */
  lemma DataPacketLayout(block: seq<uint8>)
    ensures var d := DataPacket(block);
      && |d| == |block| + 5
      && d[0] == d[1] == Byte(0xFF) && d[2] == Byte(START_TOKEN_SINGLE)
      && (forall i :: 0 <= i < |block| ==> d[3 + i] == Byte(block[i]))
      && d[|block| + 3] == d[|block| + 4] == Byte(0xFF)
  {
    assert IntBytes(0xFFFF) == [0xFF, 0xFF];
  }

  /**
   * The SPI driver of the SD card. `responseData` is the five-byte array
   * `responceData` that responses are stored in.
   */
  class SdhcSpi {
    const spi: SpiDevice
    const responseData: array<uint8>
    var cardStatus: CardStatus
    var cardType: CardType
    var crcValue: uint8

    predicate Valid()
      reads this
    {
      responseData.Length == 5
    }

    /** No card and no supported type until `init`; `crcValue` is zero in static storage. */
    constructor (miso: seq<uint8>)
      ensures Valid() && fresh(spi) && fresh(responseData)
      ensures spi.trace == [] && spi.miso == miso && spi.received == 0
      ensures cardStatus == NoCard && cardType == NotSupported && crcValue == 0
    {
      spi := new SpiDevice.Answering(miso);
      responseData := new uint8[5](_ => 0);
      cardStatus := NoCard;
      cardType := NotSupported;
      crcValue := 0;
    }

    /**
     * `sendCommand`: the frame goes out, bytes are polled until the R1 byte
     * arrives or 256 bytes were read, then the rest of the response is stored.
     */
    method SendCommand(cmd: uint8, param: uint32, respType: ResponseType)
      requires Valid()
      modifies spi, responseData
      ensures spi.trace == old(spi.trace) + Bytes(CommandFrame(cmd, param, crcValue))
      ensures var p := old(spi.received) + PollCount(spi.miso, old(spi.received), 0xFF);
        && responseData[0] == MisoByte(spi.miso, p - 1)
        && responseData[1..] == ResponseTail(spi.miso, p, respType, old(responseData[1..]))
        && spi.received == p + ExtraBytes(respType)
    {
      SendFrame(cmd, param);
      PollR1();
      ReadResponseTail(respType);
    }

    method SendFrame(cmd: uint8, param: uint32)
      modifies spi
      ensures spi.trace == old(spi.trace) + Bytes(CommandFrame(cmd, param, crcValue))
      ensures spi.received == old(spi.received)
    {
      spi.PutChar(0xFF);
      spi.PutChar(cmd);
      spi.PutChar(param / 0x100_0000);
      spi.PutChar((param / 0x1_0000) % 0x100);
      spi.PutChar((param / 0x100) % 0x100);
      spi.PutChar(param % 0x100);
      spi.PutChar(crcValue);
      assert Bytes(CommandFrame(cmd, param, crcValue)) ==
        [Byte(0xFF), Byte(cmd), Byte(param / 0x100_0000), Byte((param / 0x1_0000) % 0x100),
         Byte((param / 0x100) % 0x100), Byte(param % 0x100), Byte(crcValue)];
    }

    /**
     * The polling loop of `sendCommand`: the counter starts at 0xFF and is
     * tested, then decremented, after each byte; bit 7 of the unsigned
     * byte is tested as `>= 0x80`.
     */
    method PollR1()
      requires Valid()
      modifies spi, responseData
      ensures spi.received == old(spi.received) + PollCount(spi.miso, old(spi.received), 0xFF)
      ensures responseData[0] == MisoByte(spi.miso, spi.received - 1)
      ensures responseData[1..] == old(responseData[1..]) && spi.trace == old(spi.trace)
    {
      var maxErrors: uint8 := 0xFF;
      var again := true;
      while again
        invariant spi.received >= old(spi.received)
        invariant again ==> (PollCount(spi.miso, old(spi.received), 0xFF) ==
          (spi.received - old(spi.received)) + PollCount(spi.miso, spi.received, maxErrors))
        invariant !again ==> spi.received == old(spi.received) + PollCount(spi.miso, old(spi.received), 0xFF)
        invariant !again ==> responseData[0] == MisoByte(spi.miso, spi.received - 1)
        invariant responseData[1..] == old(responseData[1..]) && spi.trace == old(spi.trace)
        decreases if again then maxErrors + 1 else 0
      {
        var b := spi.ReadChar();
        responseData[0] := b;
        again := maxErrors != 0 && b >= 0x80;
        maxErrors := Wrap8(maxErrors - 1);
      }
    }

    /** The `switch` of `sendCommand` on the response type. */
    method ReadResponseTail(respType: ResponseType)
      requires Valid()
      modifies spi, responseData
      ensures responseData[0] == old(responseData[0])
      ensures responseData[1..] == ResponseTail(spi.miso, old(spi.received), respType, old(responseData[1..]))
      ensures spi.received == old(spi.received) + ExtraBytes(respType) && spi.trace == old(spi.trace)
    {
      match respType {
        case R1 =>
        case R2 =>
          var b := spi.ReadChar();
          responseData[1] := b;
        case _ =>
          var b := spi.ReadChar();
          responseData[4] := b;
          b := spi.ReadChar();
          responseData[3] := b;
          b := spi.ReadChar();
          responseData[2] := b;
          b := spi.ReadChar();
          responseData[1] := b;
      }
    }

    /** `finishOperation`: a 0xFF filler byte, then the card is deselected. */
    method FinishOperation()
      modifies spi
      ensures spi.trace == old(spi.trace) + [Byte(0xFF), Deselect] && spi.received == old(spi.received)
    {
      spi.PutChar(0xFF);
      spi.FinishTransfer();
    }

    /** `waitDataToken`: up to 255 bytes are read looking for the start token. */
    method WaitDataToken() returns (found: bool)
      modifies spi
      ensures (found, spi.received - old(spi.received)) == TokenScan(spi.miso, old(spi.received), 0xFF)
      ensures spi.received >= old(spi.received) && spi.trace == old(spi.trace)
    {
      var trial: uint8 := 0;
      while true
        invariant trial < 0xFF && spi.received == old(spi.received) + trial && spi.trace == old(spi.trace)
        invariant TokenScan(spi.miso, old(spi.received), 0xFF) ==
          var r := TokenScan(spi.miso, spi.received, 0xFF - trial); (r.0, r.1 + trial)
        decreases 0xFF - trial
      {
        var b := spi.ReadChar();
        if b == START_TOKEN_SINGLE {
          return true;
        }
        trial := trial + 1;
        if trial >= 0xFF {
          return false;
        }
      }
    }

    /** `readBuffer`: the next n bytes of the answer into the first n entries of `buf`. */
    method ReadBuffer(buf: array<uint8>, n: nat)
      requires n <= buf.Length
      modifies spi, buf
      ensures buf[..n] == CardBytes(spi.miso, old(spi.received), n) && buf[n..] == old(buf[n..])
      ensures spi.received == old(spi.received) + n && spi.trace == old(spi.trace)
    {
      var i := 0;
      while i < n
        invariant 0 <= i <= n && spi.received == old(spi.received) + i && spi.trace == old(spi.trace)
        invariant buf[..i] == CardBytes(spi.miso, old(spi.received), i) && buf[n..] == old(buf[n..])
      {
        var b := spi.ReadChar();
        buf[i] := b;
        i := i + 1;
      }
    }

    /** `writeBuffer`: the first n bytes of `buf` go out in order. */
    method WriteBuffer(buf: array<uint8>, n: nat)
      requires n <= buf.Length
      modifies spi
      ensures spi.trace == old(spi.trace) + Bytes(buf[..n]) && spi.received == old(spi.received)
    {
      var i := 0;
      while i < n
        invariant 0 <= i <= n && spi.received == old(spi.received)
        invariant spi.trace == old(spi.trace) + Bytes(buf[..i])
      {
        spi.PutChar(buf[i]);
        BytesAppend(buf[..i], [buf[i]]);
        assert buf[..i + 1] == buf[..i] + [buf[i]];
        i := i + 1;
      }
    }

    /**
     * `readBlock`: refused unless the card status is OK; otherwise CMD17
     * with the address, and once R1 is 0 the token, the block and its
     * CRC16 are read; the result is `ReadBlockResult`.
     */
    method ReadBlock(address: uint32, buffer: array<uint8>, checkSum: bool) returns (ok: bool)
      requires Valid() && buffer.Length >= BLOCK_SIZE && buffer != responseData
      modifies spi, responseData, buffer
      ensures old(cardStatus) != Ok ==>
        && !ok && spi.received == old(spi.received) && spi.trace == old(spi.trace)
        && responseData[..] == old(responseData[..]) && buffer[..] == old(buffer[..])
      ensures old(cardStatus) == Ok ==>
        && ok == ReadBlockResult(spi.miso, old(spi.received), checkSum)
        && spi.trace == old(spi.trace) + [Select] + Bytes(CommandFrame(READ_SINGLE_BLOCK, address, crcValue)) +
             [Byte(0xFF), Deselect]
        && responseData[0] == MisoByte(spi.miso, old(spi.received) + PollCount(spi.miso, old(spi.received), 0xFF) - 1)
        && responseData[1..] == old(responseData[1..])
        && (responseData[0] == 0 ==>
              buffer[..BLOCK_SIZE] == CardBytes(spi.miso, BlockStart(spi.miso, old(spi.received) + PollCount(spi.miso, old(spi.received), 0xFF)), BLOCK_SIZE))
        && buffer[BLOCK_SIZE..] == old(buffer[BLOCK_SIZE..]) && (responseData[0] != 0 ==> buffer[..] == old(buffer[..]))
    {
      if cardStatus != Ok {
        return false;
      }
      ok := ReadSelectedBlock(address, buffer, checkSum);
    }

    /** `readBlock` past its status guard. */
    method ReadSelectedBlock(address: uint32, buffer: array<uint8>, checkSum: bool) returns (ok: bool)
      requires Valid() && buffer.Length >= BLOCK_SIZE && buffer != responseData
      modifies spi, responseData, buffer
      ensures ok == ReadBlockResult(spi.miso, old(spi.received), checkSum)
      ensures spi.trace == old(spi.trace) + [Select] + Bytes(CommandFrame(READ_SINGLE_BLOCK, address, crcValue)) +
        [Byte(0xFF), Deselect]
      ensures responseData[0] == MisoByte(spi.miso, old(spi.received) + PollCount(spi.miso, old(spi.received), 0xFF) - 1)
      ensures responseData[1..] == old(responseData[1..])
      ensures responseData[0] == 0 ==>
        buffer[..BLOCK_SIZE] == CardBytes(spi.miso, BlockStart(spi.miso, old(spi.received) + PollCount(spi.miso, old(spi.received), 0xFF)), BLOCK_SIZE)
      ensures buffer[BLOCK_SIZE..] == old(buffer[BLOCK_SIZE..]) && (responseData[0] != 0 ==> buffer[..] == old(buffer[..]))
    {
      ok := false;
      ghost var p0 := spi.received;
      ghost var b0 := buffer[..];
      spi.StartTransfer();
      SendCommand(READ_SINGLE_BLOCK, address, R1);
      ghost var p1 := spi.received;
      ghost var r1 := responseData[0];
      assert p1 == p0 + PollCount(spi.miso, p0, 0xFF) && r1 == MisoByte(spi.miso, p1 - 1);
      assert buffer[..] == b0;
      if responseData[0] == 0 {
        ok := ReceiveBlock(buffer, checkSum);
        assert ok == BlockAccepted(spi.miso, p1, checkSum);
        assert buffer[..BLOCK_SIZE] == CardBytes(spi.miso, BlockStart(spi.miso, p1), BLOCK_SIZE);
      }
      assert ok == ReadBlockResult(spi.miso, p0, checkSum);
      FinishOperation();
    }

    /** The branch of `readBlock` taken when R1 is 0. */
    method ReceiveBlock(buffer: array<uint8>, checkSum: bool) returns (ok: bool)
      requires buffer.Length >= BLOCK_SIZE
      modifies spi, buffer
      ensures ok == BlockAccepted(spi.miso, old(spi.received), checkSum)
      ensures buffer[..BLOCK_SIZE] == CardBytes(spi.miso, BlockStart(spi.miso, old(spi.received)), BLOCK_SIZE)
      ensures buffer[BLOCK_SIZE..] == old(buffer[BLOCK_SIZE..])
      ensures spi.trace == old(spi.trace)
    {
      var tokenValid := WaitDataToken();
      ghost var q := spi.received;
      ReadBuffer(buffer, BLOCK_SIZE);
      var hi := spi.ReadChar();
      var lo := spi.ReadChar();
      // `readChar() << 8` and `|= readChar()` put the two bytes side by side.
      var crc1 := hi as int * 0x100 + lo;
      var crc2 := crc1;
      if checkSum {
        var c := Crc16Buf(ToBv8(buffer[..BLOCK_SIZE]));
        crc2 := c as int;
      }
      ok := crc1 == crc2;
    }

    /**
     * `writeBlock`: refused unless the card status is OK; otherwise CMD24
     * with the address, then the data packet once R1 is 0, while any other
     * R1 sets the status to ERROR.
     */
    method WriteBlock(address: uint32, buffer: array<uint8>)
      requires Valid() && buffer.Length >= BLOCK_SIZE
      modifies this, spi, responseData
      ensures old(cardStatus) != Ok ==>
        && spi.received == old(spi.received) && spi.trace == old(spi.trace) && cardStatus == old(cardStatus)
        && responseData[..] == old(responseData[..])
      ensures old(cardStatus) == Ok ==>
        var r1 := MisoByte(spi.miso, old(spi.received) + PollCount(spi.miso, old(spi.received), 0xFF) - 1);
        && responseData[0] == r1
        && responseData[1..] == old(responseData[1..])
        && spi.trace == old(spi.trace) + [Select] + Bytes(CommandFrame(WRITE_SINGLE_BLOCK, address, crcValue)) +
             (if r1 == 0 then DataPacket(old(buffer[..BLOCK_SIZE])) else []) + [Byte(0xFF), Deselect]
        && cardStatus == (if r1 == 0 then Ok else Error)
      ensures cardType == old(cardType) && crcValue == old(crcValue)
    {
      if cardStatus != Ok {
        return;
      }
      spi.StartTransfer();
      SendCommand(WRITE_SINGLE_BLOCK, address, R1);
      if responseData[0] == 0 {
        SendDataPacket(buffer);
      } else {
        cardStatus := Error;
      }
      FinishOperation();
    }

    /** The branch of `writeBlock` taken when R1 is 0, up to the busy wait. */
    method SendDataPacket(buffer: array<uint8>)
      requires buffer.Length >= BLOCK_SIZE
      modifies spi
      ensures spi.trace == old(spi.trace) + DataPacket(buffer[..BLOCK_SIZE])
    {
      spi.PutInt(0xFFFF);
      spi.PutChar(START_TOKEN_SINGLE);
      WriteBuffer(buffer, BLOCK_SIZE);
      spi.PutInt(0xFFFF);
    }
  }
}
