/*
 * The MCP4901 8-bit DAC on the SPI bus: a percentage becomes a 16-bit
 * write command whose bits 11..4 hold the voltage code, bit 12 selects
 * active mode and bit 13 the gain; 0 % sends the all-zero word, which
 * shuts the output down.
 */
module DacMcp4901 {
  import opened FixedWidth
  import opened AvrPlusPlus

  /**
   * `volt_digits`: 255 * percent / 100 in 16-bit `int` arithmetic, stored
   * in an `unsigned char`. The product fits the `int` only up to 128 %.
   */
  function VoltDigits(percent: uint8): uint8
    requires percent <= 128
  {
    Wrap8((0xFF * percent) / 100)
  }

  /**
   * The command word of `putValue`, an `unsigned int`. The code shifted
   * left by 4, the active bit 12 and the gain bit 13 do not overlap, so
   * each `|` of the source adds its field.
   */
  function Packet(percent: uint8, outputGain: bool): uint16
    requires percent <= 128
  {
    if percent == 0 then 0
    else VoltDigits(percent) * 0x10 + 1 * 0x1000 + (if outputGain then 0 else 1) * 0x2000
  }

  /** Bit k of a 16-bit word. */
  function BitOf(p: uint16, k: nat): int {
    (p / Pow2(k)) % 2
  }

  function Pow2(k: nat): (r: nat)
    ensures r >= 1
  {
    if k == 0 then 1 else 2 * Pow2(k - 1)
  }

  /** 0 % is the shutdown word. */
  lemma PacketShutdown(outputGain: bool)
    ensures Packet(0, outputGain) == 0
  {}

  /**
   * For 1 to 100 % the voltage code is 255 * percent / 100 without
   * truncation and sits in bits 11..4, bit 12 is set, bit 13 is the
   * inverted gain flag and bits 15, 14 and 3..0 are clear.
   */
  lemma PacketFields(percent: uint8, outputGain: bool)
    requires 1 <= percent <= 100
    ensures VoltDigits(percent) == (255 * percent) / 100
    ensures var p := Packet(percent, outputGain);
      && (p / 0x10) % 0x100 == VoltDigits(percent)
      && BitOf(p, 12) == 1
      && (BitOf(p, 13) == 1 <==> !outputGain)
      && BitOf(p, 14) == 0 && BitOf(p, 15) == 0 && p % 0x10 == 0
  {
    DivMonotone(255 * percent, 255 * 100, 100);
    var v, g := VoltDigits(percent), if outputGain then 0 else 1;
    assert Pow2(12) == 0x1000 && Pow2(13) == 0x2000 && Pow2(14) == 0x4000 && Pow2(15) == 0x8000;
    PacketFieldsOf(v, g);
  }

  lemma PacketFieldsOf(v: uint8, g: int)
    requires g == 0 || g == 1
    ensures var p := v * 0x10 + 0x1000 + g * 0x2000;
      && (p / 0x10) % 0x100 == v && (p / 0x1000) % 2 == 1 && (p / 0x2000) % 2 == g
      && (p / 0x4000) % 2 == 0 && (p / 0x8000) % 2 == 0 && p % 0x10 == 0
  {}

  /** Full scale at 100 %, and a larger percentage never gives a lower voltage code. */
  lemma VoltDigitsMonotone(p: uint8, q: uint8)
    requires p <= q <= 100
    ensures VoltDigits(100) == 255
    ensures VoltDigits(p) <= VoltDigits(q)
  {
    assert 255 * p <= 255 * q;
    DivMonotone(255 * p, 255 * q, 100);
  }

  lemma DivMonotone(a: nat, b: nat, d: nat)
    requires a <= b && d > 0
    ensures a / d <= b / d
  {
    var qa, qb := a / d, b / d;
    if qa > qb {
      assert qa >= qb + 1;
      MulLeft(qb + 1, qa, d);
      assert false;
    }
  }

  /** Above 100 % the code is truncated to 8 bits: 128 % gives 70, far below full scale. */
  lemma VoltDigitsBeyondFullScale()
    ensures VoltDigits(101) == 1 && VoltDigits(128) == 70
  {}

  /**
   * The two bytes `putInt` sends for a 1 to 100 % word: first the active
   * flag, the inverted gain and the upper half of the code, then the lower
   * half of the code in the upper nibble.
   */
  lemma PacketBytes(percent: uint8, outputGain: bool)
    requires 1 <= percent <= 100
    ensures var v := VoltDigits(percent);
      IntBytes(Packet(percent, outputGain)) ==
        [0x10 + (if outputGain then 0 else 0x20) + v / 16, (v % 16) * 16]
  {
    var v, g := VoltDigits(percent), if outputGain then 0 else 1;
    PacketBytesOf(v, g);
  }

  lemma PacketBytesOf(v: uint8, g: int)
    requires g == 0 || g == 1
    ensures var p := v * 0x10 + 0x1000 + g * 0x2000;
      Wrap16(p) == p && p / 256 == 0x10 + g * 0x20 + v / 16 && p % 256 == (v % 16) * 16
  {
    var p := v * 0x10 + 0x1000 + g * 0x2000;
    var q, r := 0x10 + g * 0x20 + v / 16, (v % 16) * 16;
    assert p == q * 256 + r;
    DivModUnique(p, q, r, 256);
  }

  /** `Dac_MCP4901`: an SPI device with an output gain flag, false after construction. */
  class Dac {
    const spi: SpiDevice
    var outputGain: bool

    constructor ()
      ensures !outputGain && fresh(spi) && spi.trace == []
    {
      spi := new SpiDevice();
      outputGain := false;
    }

    method SetOutputGain(flag: bool)
      modifies this
      ensures outputGain == flag
    {
      outputGain := flag;
    }

    /** One transfer holding the command word, high byte first. */
    method PutValue(percent: uint8)
      requires percent <= 128
      modifies spi
      ensures spi.trace == old(spi.trace) + [Select] + Bytes(IntBytes(Packet(percent, outputGain))) + [Deselect]
      ensures spi.received == old(spi.received)
    {
      var packet: uint16 := 0;
      if percent != 0 {
        var voltDigits := VoltDigits(percent);
        packet := voltDigits as int * 0x10;
        packet := packet + 1 * 0x1000;
        packet := packet + (if outputGain then 0 else 1) * 0x2000;
      }
      spi.StartTransfer();
      spi.PutInt(packet);
      spi.FinishTransfer();
    }
  }
}
