/** What one cycle of the simulator in TP1-ARM/src/sim.c does, as functions of
    the machine: the dispatch table, the effect of every handler, and the step
    that fetches, dispatches and executes. The imperative simulator in ArmSim is
    proved to do exactly this. */
module ArmExec {
  import opened Options
  import opened ArmMachine
  import opened ArmFields

  /** One constructor per handler of INSTRUCTION_SET. */
  datatype Handler =
    | AddsExtended | AddsImmediate | SubsExtended | SubsImmediate | Halt
    | Ands | Eor | Orr | Branch | BranchToRegister | Bcond | Ls
    | Stur | Sturb | Sturh | Ldur | Ldurh | Ldurb | Movz
    | AddExtended | AddImmediate | Mul | Cbz | Cbnz

  /** A table entry carries an opcode value and a handler, but no width. */
  datatype Entry = Entry(opcode: bv32, handler: Handler)

  /** INSTRUCTION_SET, in source order (the binary literals written in hex). */
  const InstructionSet: seq<Entry> := [
    Entry(0x558, AddsExtended),      // 0b10101011000
    Entry(0xB1, AddsImmediate),      // 0b10110001
    Entry(0x758, SubsExtended),      // 0b11101011000
    Entry(0xF1, SubsImmediate),      // 0b11110001
    Entry(0x6A2, Halt),              // 0b11010100010
    Entry(0x750, Ands),              // 0b11101010000
    Entry(0x650, Eor),               // 0b11001010000
    Entry(0x550, Orr),               // 0b10101010000
    Entry(0x5, Branch),              // 0b000101
    Entry(0x6B0, BranchToRegister),  // 0b11010110000
    Entry(0x54, Bcond),              // 0b01010100
    Entry(0x34D, Ls),                // 0b1101001101
    Entry(0x7C0, Stur),              // 0b11111000000
    Entry(0x1C0, Sturb),             // 0b00111000000
    Entry(0x3C0, Sturh),             // 0b01111000000
    Entry(0x7C2, Ldur),              // 0b11111000010
    Entry(0x3C2, Ldurh),             // 0b01111000010
    Entry(0x1C2, Ldurb),             // 0b00111000010
    Entry(0x694, Movz),              // 0b11010010100
    Entry(0x458, AddExtended),       // 0b10001011000
    Entry(0x91, AddImmediate),       // 0b10010001
    Entry(0x4D8, Mul),               // 0b10011011000
    Entry(0xB4, Cbz),                // 0b10110100
    Entry(0xB5, Cbnz)                // 0b10110101
  ]

  /** The four opcode candidates: bits [31:21], [31:22], [31:24] and [31:26]. */
  function Opcode11(w: bv32): bv32 { (w >> 21) & 0x7FF }
  function Opcode10(w: bv32): bv32 { (w >> 22) & 0x3FF }
  function Opcode8(w: bv32): bv32 { (w >> 24) & 0xFF }
  function Opcode6(w: bv32): bv32 { (w >> 26) & 0x3F }

  /** An entry matches when its opcode equals any of the four candidates. */
  predicate Matches(e: Entry, w: bv32)
  {
    e.opcode == Opcode11(w) || e.opcode == Opcode10(w)
    || e.opcode == Opcode8(w) || e.opcode == Opcode6(w)
  }

  /** The first entry at index i or later that matches w. */
  function MatchFrom(w: bv32, i: nat): (r: Option<nat>)
    requires i <= |InstructionSet|
    decreases |InstructionSet| - i
    ensures r.Some? ==> i <= r.value < |InstructionSet| && Matches(InstructionSet[r.value], w)
    ensures r.Some? ==> forall j :: i <= j < r.value ==> !Matches(InstructionSet[j], w)
    ensures r.None? ==> forall j :: i <= j < |InstructionSet| ==> !Matches(InstructionSet[j], w)
  {
    if i == |InstructionSet| then None
    else if Matches(InstructionSet[i], w) then Some(i)
    else MatchFrom(w, i + 1)
  }

  /** The handler process_instruction runs for w, if any. */
  function Dispatch(w: bv32): Option<Handler>
  {
    match MatchFrom(w, 0)
    case None => None
    case Some(i) => Some(InstructionSet[i].handler)
  }

  // ---------------------------------------------------------------------------
  // Helpers shared by several handlers

  /** The operations the handlers apply to two 64-bit register values. */
  datatype AluOp = Plus | Minus | BitAnd | BitXor | BitOr | Times

  /** Arithmetic on the 64-bit registers wraps modulo 2^64. The product is
      the low 64 bits of the mathematical product of the unsigned values,
      which is also what a 64-bit signed multiplication leaves in a register. */
  function Alu(op: AluOp, x: bv64, y: bv64): bv64
  {
    match op
    case Plus => x + y
    case Minus => x - y
    case BitAnd => x & y
    case BitXor => x ^ y
    case BitOr => x | y
    case Times => ((x as int * y as int) % 0x1_0000_0000_0000_0000) as bv64
  }

  /** A base address plus a signed 32-bit displacement (int64_t + int32_t). */
  function Offset(base: bv64, disp: bv32): bv64
  {
    base + SignExtend64(disp)
  }

  /** The D-format address: rn plus the sign-extended imm9. */
  function Address(w: bv32, cur: State): bv64
    requires WellFormed(cur)
  {
    Offset(cur.regs[Rn(w)], Imm9(w))
  }

  /** The condition decode_bcond evaluates for a 4-bit condition code, or None
      for a code it does not handle. */
  function CondHolds(cond: bv32, n: bool, z: bool): Option<bool>
  {
    if cond == 0x0 then Some(z)                // EQ
    else if cond == 0x1 then Some(!z)          // NE
    else if cond == 0xC then Some(!n && !z)    // GT
    else if cond == 0xB then Some(n)           // LT
    else if cond == 0xA then Some(!n)          // GE
    else if cond == 0xD then Some(n || z)      // LE
    else None
  }

  /** decode_lsl's shift: left by (64 - immr) % 64. */
  function Lsl(x: bv64, immr: bv32): bv64
    requires immr < 64
  {
    x << ((64 - immr) % 64)
  }

  /** An arithmetic shift right: int64_t >> n in the simulator's C. */
  function Asr(x: bv64, n: bv32): bv64
    requires n < 64
  {
    if x >> 63 == 1 then !((!x) >> n) else x >> n
  }

  /** The word-aligned address at or below a (address & ~3). */
  function Aligned(a: bv64): bv64 { a & 0xFFFF_FFFF_FFFF_FFFC }

  /** The byte lane of a within its word (address & 3). */
  function ByteLane(a: bv64): (k: bv32)
    ensures k < 4
  {
    (a & 3) as bv32
  }

  /** The halfword lane decode_sturh uses: bit 1 of a ((address & 2) >> 1). */
  function HalfLane(a: bv64): (k: bv32)
    ensures k < 2
  {
    ((a & 2) >> 1) as bv32
  }

  /** The low byte and the low halfword of a register (value & 0xFF, & 0xFFFF). */
  function LowByte(v: bv64): bv8 { (v & 0xFF) as bv8 }
  function LowHalf(v: bv64): bv16 { (v & 0xFFFF) as bv16 }

  /** The word decode_stur writes at the address: the low 31 bits of v (the
      mask 0x7FFFFFFF drops bit 31). */
  function StoredLow(v: bv64): bv32 { (v & 0x7FFF_FFFF) as bv32 }

  /** The word decode_stur writes at the address plus 4: bits 32 to 63 of v. */
  function StoredHigh(v: bv64): bv32 { (v >> 32) as bv32 }

  /** decode_stur's two word writes. */
  function StoreDouble(mem: Memory, a: bv64, v: bv64): Memory
  {
    WriteWord(WriteWord(mem, a, StoredLow(v)), a + 4, StoredHigh(v))
  }

  /** decode_ldur's (high << 32) | low. */
  function Combine(high: bv32, low: bv32): bv64
  {
    ((high as bv64) << 32) | (low as bv64)
  }

  function LoadDouble(mem: Memory, a: bv64): bv64
  {
    Combine(ReadWord(mem, a + 4), ReadWord(mem, a))
  }

  /** Byte lane k of a word replaced by b (decode_sturb's clear and or). */
  function InsertByte(word: bv32, k: bv32, b: bv8): bv32
    requires k < 4
  {
    (word & !(0xFF << (k * 8))) | ((b as bv32) << (k * 8))
  }

  /** Halfword lane k of a word replaced by h (decode_sturh's clear and or). */
  function InsertHalf(word: bv32, k: bv32, h: bv16): bv32
    requires k < 2
  {
    (word & !(0xFFFF << (k * 16))) | ((h as bv32) << (k * 16))
  }

  /** decode_sturb's read-modify-write of the aligned word holding a: the low
      byte of v replaces byte a & 3 of that word. */
  function StoreByte(mem: Memory, a: bv64, v: bv64): Memory
  {
    WriteWord(mem, Aligned(a), InsertByte(ReadWord(mem, Aligned(a)), ByteLane(a), LowByte(v)))
  }

  /** decode_sturh's read-modify-write: the low halfword of v replaces
      halfword (a & 2) >> 1 of the aligned word; bit 0 of a is ignored. */
  function StoreHalf(mem: Memory, a: bv64, v: bv64): Memory
  {
    WriteWord(mem, Aligned(a), InsertHalf(ReadWord(mem, Aligned(a)), HalfLane(a), LowHalf(v)))
  }

  /** decode_ldurb and decode_ldurh read the word at the unaligned address and
      keep its low 8 or 16 bits. */
  function LoadByte(mem: Memory, a: bv64): bv64 { (ReadWord(mem, a) & 0xFF) as bv64 }
  function LoadHalf(mem: Memory, a: bv64): bv64 { (ReadWord(mem, a) & 0xFFFF) as bv64 }

  // ---------------------------------------------------------------------------
  // The handlers. Each gives the next snapshot (or the memory) as a function of
  // the current snapshot, the next snapshot so far and the instruction word.

  /** The common tail of the register-writing handlers: rd := v, PC + 4. */
  function WriteAndAdvance(nxt: State, cur: State, rd: bv32, v: bv64): (t: State)
    requires WellFormed(nxt) && rd < 32
    ensures WellFormed(t)
  {
    Advanced(WriteReg(nxt, rd, v), cur, 4)
  }

  /** ADDS and ANDS: the result sets the flags and is written to rd. */
  function NextFlagSetting(op: AluOp, x: bv64, y: bv64, rd: bv32, cur: State, nxt: State): (t: State)
    requires WellFormed(nxt) && rd < 32
    ensures WellFormed(t)
  {
    var result := Alu(op, x, y);
    WriteAndAdvance(Flagged(nxt, result), cur, rd, result)
  }

  /** SUBS (CMP when rd is 31): the flags are set, rd is written unless it is 31. */
  function NextSubs(x: bv64, y: bv64, rd: bv32, cur: State, nxt: State): (t: State)
    requires WellFormed(nxt) && rd < 32
    ensures WellFormed(t)
  {
    var result := Alu(Minus, x, y);
    if rd != 31 then WriteAndAdvance(Flagged(nxt, result), cur, rd, result)
    else Advanced(Flagged(nxt, result), cur, 4)
  }

  function NextAddsExtended(w: bv32, cur: State, nxt: State): (t: State)
    requires WellFormed(cur) && WellFormed(nxt)
    ensures WellFormed(t)
  {
    NextFlagSetting(Plus, cur.regs[Rn(w)], cur.regs[Rm(w)], Rd(w), cur, nxt)
  }

  /** An invalid shift field leaves the machine as it was. */
  function NextAddsImmediate(w: bv32, cur: State, nxt: State): (t: State)
    requires WellFormed(cur) && WellFormed(nxt)
    ensures WellFormed(t)
  {
    match ShiftedImm12(w)
    case None => nxt
    case Some(imm) => NextFlagSetting(Plus, cur.regs[Rn(w)], imm, Rd(w), cur, nxt)
  }

  function NextSubsExtended(w: bv32, cur: State, nxt: State): (t: State)
    requires WellFormed(cur) && WellFormed(nxt)
    ensures WellFormed(t)
  {
    NextSubs(cur.regs[Rn(w)], cur.regs[Rm(w)], Rd(w), cur, nxt)
  }

  function NextSubsImmediate(w: bv32, cur: State, nxt: State): (t: State)
    requires WellFormed(cur) && WellFormed(nxt)
    ensures WellFormed(t)
  {
    match ShiftedImm12(w)
    case None => nxt
    case Some(imm) => NextSubs(cur.regs[Rn(w)], imm, Rd(w), cur, nxt)
  }

  function NextAnds(w: bv32, cur: State, nxt: State): (t: State)
    requires WellFormed(cur) && WellFormed(nxt)
    ensures WellFormed(t)
  {
    NextFlagSetting(BitAnd, cur.regs[Rn(w)], cur.regs[Rm(w)], Rd(w), cur, nxt)
  }

  /** EOR, ORR, ADD (extended register), MUL: rd := rn op rm, flags untouched. */
  function NextRegister(op: AluOp, w: bv32, cur: State, nxt: State): (t: State)
    requires WellFormed(cur) && WellFormed(nxt)
    ensures WellFormed(t)
  {
    WriteAndAdvance(nxt, cur, Rd(w), Alu(op, cur.regs[Rn(w)], cur.regs[Rm(w)]))
  }

  /** ADD (immediate): like ADDS (immediate) without the flags. */
  function NextAddImmediate(w: bv32, cur: State, nxt: State): (t: State)
    requires WellFormed(cur) && WellFormed(nxt)
    ensures WellFormed(t)
  {
    match ShiftedImm12(w)
    case None => nxt
    case Some(imm) => WriteAndAdvance(nxt, cur, Rd(w), Alu(Plus, cur.regs[Rn(w)], imm))
  }

  /** B: PC + 4 times the (as-written) extended imm26. */
  function NextBranch(w: bv32, cur: State, nxt: State): (t: State)
  {
    Advanced(nxt, cur, BranchImm26(w) * 4)
  }

  /** BR: PC := rn. */
  function NextBranchToRegister(w: bv32, cur: State, nxt: State): (t: State)
    requires WellFormed(cur)
  {
    State(nxt.regs, nxt.flagN, nxt.flagZ, cur.regs[Rn(w)])
  }

  /** decode_branch_conditional: 4 times the (as-written) extended imm19 when
      taken, 4 otherwise. */
  function BranchConditional(imm19: bv32, taken: bool, cur: State, nxt: State): (t: State)
  {
    if taken then Advanced(nxt, cur, CondImm19(imm19) * 4)
    else Advanced(nxt, cur, 4)
  }

  /** B.cond: the condition code is bits [3:0]; an unhandled code changes
      nothing. */
  function NextBcond(w: bv32, cur: State, nxt: State): (t: State)
  {
    match CondHolds(w & 0xF, cur.flagN, cur.flagZ)
    case None => nxt
    case Some(taken) => BranchConditional(Imm19(w), taken, cur, nxt)
  }

  /** LSL (decode_lsl), immr = bits [21:16]. */
  function NextLsl(w: bv32, cur: State, nxt: State): (t: State)
    requires WellFormed(cur) && WellFormed(nxt)
    ensures WellFormed(t)
  {
    WriteAndAdvance(nxt, cur, Rd(w), Lsl(cur.regs[Rn(w)], (w >> 16) & 0x3F))
  }

  /** LSR (decode_lsr): an arithmetic shift by immr = bits [21:16]. */
  function NextLsr(w: bv32, cur: State, nxt: State): (t: State)
    requires WellFormed(cur) && WellFormed(nxt)
    ensures WellFormed(t)
  {
    WriteAndAdvance(nxt, cur, Rd(w), Asr(cur.regs[Rn(w)], (w >> 16) & 0x3F))
  }

  /** decode_ls: imms [15:10] = 63 selects LSR, anything else LSL. */
  function NextLs(w: bv32, cur: State, nxt: State): (t: State)
    requires WellFormed(cur) && WellFormed(nxt)
    ensures WellFormed(t)
  {
    if (w >> 10) & 0x3F == 0x3F then NextLsr(w, cur, nxt) else NextLsl(w, cur, nxt)
  }

  /** STUR: the memory after the two word writes at rn + imm9. */
  function MemStur(w: bv32, cur: State, mem: Memory): Memory
    requires WellFormed(cur)
  {
    StoreDouble(mem, Address(w, cur), cur.regs[Rd(w)])
  }

  function MemSturb(w: bv32, cur: State, mem: Memory): Memory
    requires WellFormed(cur)
  {
    StoreByte(mem, Address(w, cur), cur.regs[Rd(w)])
  }

  function MemSturh(w: bv32, cur: State, mem: Memory): Memory
    requires WellFormed(cur)
  {
    StoreHalf(mem, Address(w, cur), cur.regs[Rd(w)])
  }

  function NextLdur(w: bv32, cur: State, nxt: State, mem: Memory): (t: State)
    requires WellFormed(cur) && WellFormed(nxt)
    ensures WellFormed(t)
  {
    WriteAndAdvance(nxt, cur, Rd(w), LoadDouble(mem, Address(w, cur)))
  }

  function NextLdurh(w: bv32, cur: State, nxt: State, mem: Memory): (t: State)
    requires WellFormed(cur) && WellFormed(nxt)
    ensures WellFormed(t)
  {
    WriteAndAdvance(nxt, cur, Rd(w), LoadHalf(mem, Address(w, cur)))
  }

  function NextLdurb(w: bv32, cur: State, nxt: State, mem: Memory): (t: State)
    requires WellFormed(cur) && WellFormed(nxt)
    ensures WellFormed(t)
  {
    WriteAndAdvance(nxt, cur, Rd(w), LoadByte(mem, Address(w, cur)))
  }

  /** MOVZ: rd := imm16 = bits [20:5], not shifted. */
  function NextMovz(w: bv32, cur: State, nxt: State): (t: State)
    requires WellFormed(nxt)
    ensures WellFormed(t)
  {
    WriteAndAdvance(nxt, cur, Rd(w), ((w >> 5) & 0xFFFF) as bv64)
  }

  function NextCbz(w: bv32, cur: State, nxt: State): (t: State)
    requires WellFormed(cur)
  {
    BranchConditional(Imm19(w), cur.regs[Rd(w)] == 0, cur, nxt)
  }

  function NextCbnz(w: bv32, cur: State, nxt: State): (t: State)
    requires WellFormed(cur)
  {
    BranchConditional(Imm19(w), cur.regs[Rd(w)] != 0, cur, nxt)
  }

  /** The handlers that write the flags (update_flags). */
  predicate SetsFlags(h: Handler)
  {
    h == AddsExtended || h == AddsImmediate || h == SubsExtended || h == SubsImmediate || h == Ands
  }

  /** The handlers that write memory. */
  predicate IsStore(h: Handler) { h == Stur || h == Sturb || h == Sturh }

  /** The next snapshot after handler h runs on instruction word w. HLT and
      the stores only advance the PC. */
  function NextOf(h: Handler, w: bv32, cur: State, nxt: State, mem: Memory): (t: State)
    requires WellFormed(cur) && WellFormed(nxt)
    ensures WellFormed(t)
  {
    match h
    case AddsExtended => NextAddsExtended(w, cur, nxt)
    case AddsImmediate => NextAddsImmediate(w, cur, nxt)
    case SubsExtended => NextSubsExtended(w, cur, nxt)
    case SubsImmediate => NextSubsImmediate(w, cur, nxt)
    case Halt => Advanced(nxt, cur, 4)
    case Ands => NextAnds(w, cur, nxt)
    case Eor => NextRegister(BitXor, w, cur, nxt)
    case Orr => NextRegister(BitOr, w, cur, nxt)
    case Branch => NextBranch(w, cur, nxt)
    case BranchToRegister => NextBranchToRegister(w, cur, nxt)
    case Bcond => NextBcond(w, cur, nxt)
    case Ls => NextLs(w, cur, nxt)
    case Stur => Advanced(nxt, cur, 4)
    case Sturb => Advanced(nxt, cur, 4)
    case Sturh => Advanced(nxt, cur, 4)
    case Ldur => NextLdur(w, cur, nxt, mem)
    case Ldurh => NextLdurh(w, cur, nxt, mem)
    case Ldurb => NextLdurb(w, cur, nxt, mem)
    case Movz => NextMovz(w, cur, nxt)
    case AddExtended => NextRegister(Plus, w, cur, nxt)
    case AddImmediate => NextAddImmediate(w, cur, nxt)
    case Mul => NextRegister(Times, w, cur, nxt)
    case Cbz => NextCbz(w, cur, nxt)
    case Cbnz => NextCbnz(w, cur, nxt)
  }

  /** The memory after handler h runs on instruction word w. */
  function MemoryOf(h: Handler, w: bv32, cur: State, mem: Memory): (r: Memory)
    requires WellFormed(cur)
    ensures !IsStore(h) ==> r == mem
  {
    match h
    case Stur => MemStur(w, cur, mem)
    case Sturb => MemSturb(w, cur, mem)
    case Sturh => MemSturh(w, cur, mem)
    case _ => mem
  }

  /** The machine after handler h runs on instruction word w: the current
      snapshot is read-only, only the stores write memory and only HLT clears
      the run latch. */
  function Exec(h: Handler, w: bv32, m: Machine): (r: Machine)
    requires MachineOk(m)
    ensures MachineOk(r) && r.current == m.current
    ensures !IsStore(h) ==> r.mem == m.mem
    ensures r.run <==> m.run && h != Halt
  {
    Machine(m.current, NextOf(h, w, m.current, m.next, m.mem), MemoryOf(h, w, m.current, m.mem),
            m.run && h != Halt)
  }

  /** process_instruction: fetch the word at PC, run the first matching
      handler, or clear the run latch when nothing matches. */
  function Step(m: Machine): (r: Machine)
    requires MachineOk(m)
    ensures MachineOk(r) && r.current == m.current
    ensures r.run ==> m.run
  {
    var w := ReadWord(m.mem, m.current.pc);
    match Dispatch(w)
    case None => Machine(m.current, m.next, m.mem, false)
    case Some(h) => Exec(h, w, m)
  }
}
