/*
 * C integer widths of the avr-gcc target and the conversions C performs
 * between them. On this target `int` and `unsigned int` are 16 bits wide,
 * `long` is 32 bits, `time_t` is `uint32_t` and `time_ms` is `uint64_t`.
 */
module FixedWidth {

  type uint8 = x: int | 0 <= x < 0x100
  type uint16 = x: int | 0 <= x < 0x1_0000
  type uint32 = x: int | 0 <= x < 0x1_0000_0000
  type uint64 = x: int | 0 <= x < 0x1_0000_0000_0000_0000
  type int8 = x: int | -0x80 <= x < 0x80
  type int16 = x: int | -0x8000 <= x < 0x8000
  type int32 = x: int | -0x8000_0000 <= x < 0x8000_0000

  const UINT32_MAX: uint32 := 0xFFFF_FFFF
  const UINT64_MAX: uint64 := 0xFFFF_FFFF_FFFF_FFFF

  /** Conversion of any integer to an unsigned type of the given width (modular). */
  function Wrap8(x: int): uint8 { x % 0x100 }
  function Wrap16(x: int): uint16 { x % 0x1_0000 }
  function Wrap32(x: int): uint32 { x % 0x1_0000_0000 }
  function Wrap64(x: int): uint64 { x % 0x1_0000_0000_0000_0000 }

  /** Two's-complement conversion of any integer to a signed type of the given width. */
  function Signed8(x: int): int8 {
    var w := x % 0x100;
    if w < 0x80 then w else w - 0x100
  }
  function Signed16(x: int): int16 {
    var w := x % 0x1_0000;
    if w < 0x8000 then w else w - 0x1_0000
  }
  function Signed32(x: int): int32 {
    var w := x % 0x1_0000_0000;
    if w < 0x8000_0000 then w else w - 0x1_0000_0000
  }

  /** C division and remainder, which truncate toward zero (Dafny's `/` and `%` are Euclidean). */
  function TruncDiv(a: int, b: int): int
    requires b > 0
  {
    if a >= 0 then a / b else -((-a) / b)
  }
  function TruncMod(a: int, b: int): int
    requires b > 0
  {
    if a >= 0 then a % b else -((-a) % b)
  }

  /** The unsigned sum of C: it wraps around at 2^64. */
  function AddU64(a: uint64, b: uint64): uint64 { Wrap64(a + b) }

  /** Quotient and remainder are the only ones: p = q * d + r with 0 <= r < d. */
  lemma DivModUnique(p: int, q: int, r: int, d: int)
    requires d > 0 && p == q * d + r && 0 <= r < d
    ensures p / d == q && p % d == r
  {
    var q', r' := p / d, p % d;
    assert q' * d + r' == q * d + r;
    if q' > q {
      MulLeft(q + 1, q', d);
      assert false;
    } else if q' < q {
      MulLeft(q' + 1, q, d);
      assert false;
    }
  }

  lemma MulLeft(x: int, y: int, d: nat)
    requires x <= y
    ensures x * d <= y * d
  {}

  /** Values already in range are unchanged by the conversion. */
  lemma Wrap32Id(x: int)
    requires 0 <= x < 0x1_0000_0000
    ensures Wrap32(x) == x
  {}

  lemma Signed8Id(x: int)
    requires -0x80 <= x < 0x80
    ensures Signed8(x) == x
  {}

  lemma Signed16Id(x: int)
    requires -0x8000 <= x < 0x8000
    ensures Signed16(x) == x
  {}
}
