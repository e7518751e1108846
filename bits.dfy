/**
 * Field extraction and sign extension on 32-bit instruction words.
 *
 * bit_sub is a template over the field position and width, so every use in
 * a decoder is an instance with constant arguments; the decoders name their
 * instances (a field function with its shift and mask written out) and each
 * target proves its fields equal to the generic BitSub. Sign extension is
 * handled the same way, one instance per immediate width.
 */
module Bits {

  /** bit_sub<b, w>(v) = (v >> b) & ((1 << w) - 1): the w-bit field of v starting at bit b. */
  function BitSub(v: bv32, b: bv32, w: bv32): (r: bv32)
    requires b < 32 && 0 < w < 32
    ensures r < (1 as bv32) << w
    ensures r <= v >> b
  {
    (v >> b) & (((1 as bv32) << w) - 1)
  }

  /**
   * SExt of a `width`-bit constant to 32 bits: a clear sign bit leaves the
   * value alone, a set one fills the upper bits with ones.
   */
  function SignExtend(v: bv32, width: bv32): (r: bv32)
    requires 0 < width < 32
    requires v < (1 as bv32) << width
    ensures v >> (width - 1) == 0 ==> r == v
    ensures v >> (width - 1) != 0 ==> r >= 0x8000_0000
  {
    if v >> (width - 1) == 0 then v
    else v | !(((1 as bv32) << width) - 1)
  }

  /** Sign extension of a 12-bit immediate. */
  function Sext12(v: bv32): (r: bv32)
    requires v < 0x1000
    ensures r == SignExtend(v, 12)
    ensures r & 0xFFF == v
  {
    if v < 0x800 then v else v | 0xFFFF_F000
  }

  /** Sign extension of a 13-bit immediate. */
  function Sext13(v: bv32): (r: bv32)
    requires v < 0x2000
    ensures r == SignExtend(v, 13)
    ensures r & 0x1FFF == v
  {
    if v < 0x1000 then v else v | 0xFFFF_E000
  }

  /** Sign extension of a 16-bit immediate. */
  function Sext16(v: bv32): (r: bv32)
    requires v < 0x1_0000
    ensures r == SignExtend(v, 16)
    ensures r & 0xFFFF == v
  {
    if v < 0x8000 then v else v | 0xFFFF_0000
  }

  /** Sign extension of a 21-bit immediate. */
  function Sext21(v: bv32): (r: bv32)
    requires v < 0x20_0000
    ensures r == SignExtend(v, 21)
    ensures r & 0x1F_FFFF == v
  {
    if v < 0x10_0000 then v else v | 0xFFE0_0000
  }

  /** Sign extension of a 24-bit immediate. */
  function Sext24(v: bv32): (r: bv32)
    requires v < 0x100_0000
    ensures r == SignExtend(v, 24)
    ensures r & 0xFF_FFFF == v
  {
    if v < 0x80_0000 then v else v | 0xFF00_0000
  }

  /** Sign extension of a 26-bit immediate. */
  function Sext26(v: bv32): (r: bv32)
    requires v < 0x400_0000
    ensures r == SignExtend(v, 26)
    ensures r & 0x3FF_FFFF == v
  {
    if v < 0x200_0000 then v else v | 0xFC00_0000
  }
}
