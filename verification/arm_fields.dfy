/** Bit fields of an instruction word, as the handlers of TP1-ARM/src/sim.c
    slice them, and the sign extensions they apply to immediates. */
module ArmFields {
  import opened Options

  /** Bits [4:0]: rd, or rt for loads, stores and compare-and-branch. */
  function Rd(w: bv32): (r: bv32)
    ensures r < 32
  {
    (w >> 0) & 0x1F
  }

  /** Bits [9:5]: rn. */
  function Rn(w: bv32): (r: bv32)
    ensures r < 32
  {
    (w >> 5) & 0x1F
  }

  /** Bits [20:16]: rm. */
  function Rm(w: bv32): (r: bv32)
    ensures r < 32
  {
    (w >> 16) & 0x1F
  }

  /** Each field is exactly the bits it is cut from: putting it back into the
      word with those bits cleared gives the word again. */
  lemma RdDecomposes(w: bv32)
    ensures (w & 0xFFFF_FFE0) | Rd(w) == w
  {
  }

  lemma RnDecomposes(w: bv32)
    ensures (w & 0xFFFF_FC1F) | (Rn(w) << 5) == w
  {
  }

  lemma RmDecomposes(w: bv32)
    ensures (w & 0xFFE0_FFFF) | (Rm(w) << 16) == w
  {
  }

  lemma Imm19Decomposes(w: bv32)
    ensures (w & 0xFF00_001F) | (Imm19(w) << 5) == w
  {
  }

  /** r is the two's-complement sign extension of its own low n bits: every bit
      from n - 1 upwards is equal. */
  predicate SignExtended(r: bv32, n: nat)
    requires 0 < n < 32
  {
    r >> (n - 1) == 0 || r >> (n - 1) == 0xFFFF_FFFF >> (n - 1)
  }

  /** The true sign extension of a 26-bit field to 32 bits. */
  function SignExtend26(x: bv32): (r: bv32)
    requires x < 0x400_0000
    ensures SignExtended(r, 26) && r & 0x3FF_FFFF == x
  {
    if x & 0x200_0000 != 0 then x | 0xFC00_0000 else x
  }

  /** The true sign extension of a 19-bit field to 32 bits. */
  function SignExtend19(x: bv32): (r: bv32)
    requires x < 0x8_0000
    ensures SignExtended(r, 19) && r & 0x7_FFFF == x
  {
    if x & 0x4_0000 != 0 then x | 0xFFF8_0000 else x
  }

  /** The D-format displacement: bits [20:12] sign-extended from bit 8
      (get_operands_D). */
  function Imm9(w: bv32): (r: bv32)
    ensures SignExtended(r, 9)
    ensures r & 0x1FF == (w >> 12) & 0x1FF
  {
    var imm9 := (w >> 12) & 0x1FF;
    if imm9 & 0x100 != 0 then imm9 | 0xFFFF_FF00 else imm9
  }

  /** The CB-format immediate: bits [23:5], not extended (get_operands_CB). */
  function Imm19(w: bv32): (r: bv32)
    ensures r < 0x8_0000
  {
    (w >> 5) & 0x7_FFFF
  }

  /** The extension decode_branch applies to bits [25:0]: it tests bit 24 and
      then sets bits 6 to 31. */
  function BranchImm26(w: bv32): bv32
  {
    var imm26 := w & 0x3FF_FFFF;
    if imm26 & 0x100_0000 != 0 then imm26 | 0xFFFF_FFC0 else imm26
  }

  /** The extension decode_branch_conditional applies to a 19-bit immediate: it
      tests bit 18 and then sets bits 11 to 31. */
  function CondImm19(imm19: bv32): bv32
  {
    if imm19 & 0x4_0000 != 0 then imm19 | 0xFFFF_F800 else imm19
  }

  /** decode_branch agrees with true 26-bit sign extension exactly when bits 24
      and 25 are both clear, or bits 6 to 25 are all set. */
  lemma BranchImm26ExtensionIff(w: bv32)
    ensures BranchImm26(w) == SignExtend26(w & 0x3FF_FFFF)
        <==> (w & 0x3FF_FFFF < 0x100_0000 || w & 0x3FF_FFFF >= 0x3FF_FFC0)
  {
  }

  /** decode_branch_conditional agrees with true 19-bit sign extension exactly
      when bit 18 is clear or bits 11 to 18 are all set. */
  lemma CondImm19ExtensionIff(imm19: bv32)
    requires imm19 < 0x8_0000
    ensures CondImm19(imm19) == SignExtend19(imm19)
        <==> (imm19 < 0x4_0000 || imm19 & 0x7_F800 == 0x7_F800)
  {
  }

  /** A backwards branch of 256 words: decode_branch keeps only bits 0 to 5 of
      the immediate and yields -64 words instead of -256. */
  lemma BranchImm26Counterexample()
    ensures SignExtend26(0x3FF_FF00) == 0xFFFF_FF00
    ensures BranchImm26(0x3FF_FF00) == 0xFFFF_FFC0
  {
  }

  /** A word offset of +2^24 has bit 24 set, so decode_branch turns it into a
      negative offset. */
  lemma BranchImm26PositiveCounterexample()
    ensures SignExtend26(0x100_0000) == 0x100_0000
    ensures BranchImm26(0x100_0000) == 0xFFFF_FFC0
  {
  }

  /** The most negative conditional offset, -2^18 words, becomes -2048 words. */
  lemma CondImm19Counterexample()
    ensures SignExtend19(0x4_0000) == 0xFFFC_0000
    ensures CondImm19(0x4_0000) == 0xFFFF_F800
  {
  }

  /** Shift field [23:22] of ADD/ADDS/SUBS immediate: 0 keeps imm12 [21:10],
      1 shifts it left by 12, any other value is rejected. */
  function ShiftedImm12(w: bv32): (r: Option<bv64>)
    ensures r.None? <==> (w >> 22) & 3 >= 2
    ensures (w >> 22) & 3 == 0 ==> r == Some(((w >> 10) & 0xFFF) as bv64)
    ensures (w >> 22) & 3 == 1 ==> r == Some((((w >> 10) & 0xFFF) as bv64) << 12)
  {
    var imm12 := (w >> 10) & 0xFFF;
    var shift := (w >> 22) & 3;
    if shift == 1 then Some((imm12 << 12) as bv64)
    else if shift != 0 then None
    else Some(imm12 as bv64)
  }
}
