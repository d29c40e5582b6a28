/** The simulator of TP1-ARM/src/sim.c as an object: CURRENT_STATE, NEXT_STATE,
    RUN_BIT and memory are its fields, and each decode_* handler is a method
    that reads the current snapshot and writes the next one, memory or the run
    latch. Every method is proved to do what the corresponding function of
    ArmExec says. */
module ArmSim {
  import opened Options
  import opened ArmMachine
  import opened ArmFields
  import opened ArmExec

  class Sim {
    var current: State
    var next: State
    var run: bool
    var mem: Memory

    ghost predicate Valid()
      reads this
    {
      WellFormed(current) && WellFormed(next)
    }

    function Snapshot(): Machine
      reads this
    {
      Machine(current, next, mem, run)
    }

    /** A simulator about to execute from pc, with both snapshots equal. */
    constructor (regs: seq<bv64>, pc: bv64, memory: Memory)
      requires |regs| == 32
      ensures Valid() && run && mem == memory
      ensures current == next == State(regs, false, false, pc)
    {
      current := State(regs, false, false, pc);
      next := State(regs, false, false, pc);
      run := true;
      mem := memory;
    }

    method UpdateFlags(result: bv64)
      modifies this
      ensures next == Flagged(old(next), result)
      ensures current == old(current) && mem == old(mem) && run == old(run)
    {
      next := next.(flagN := (result >> 63) & 1 == 1, flagZ := result == 0);
    }

    method UpdateProgramCounter(offset: bv32)
      modifies this
      ensures next == Advanced(old(next), old(current), offset)
      ensures current == old(current) && mem == old(mem) && run == old(run)
    {
      next := next.(pc := Target(current.pc, offset));
    }

    method DecodeAddsExtended(instruction: bv32)
      requires Valid()
      modifies this
      ensures Valid() && next == NextAddsExtended(instruction, old(current), old(next))
      ensures current == old(current) && mem == old(mem) && run == old(run)
    {
      var rd, rn, rm := Rd(instruction), Rn(instruction), Rm(instruction);
      var result := Alu(Plus, current.regs[rn], current.regs[rm]);
      UpdateFlags(result);
      next := WriteReg(next, rd, result);
      UpdateProgramCounter(4);
    }

    method DecodeSubsExtended(instruction: bv32)
      requires Valid()
      modifies this
      ensures Valid() && next == NextSubsExtended(instruction, old(current), old(next))
      ensures current == old(current) && mem == old(mem) && run == old(run)
    {
      var rd, rn, rm := Rd(instruction), Rn(instruction), Rm(instruction);
      var result := Alu(Minus, current.regs[rn], current.regs[rm]);
      UpdateFlags(result);
      if rd != 31 {
        next := WriteReg(next, rd, result);
      }
      UpdateProgramCounter(4);
    }

    method DecodeAddsImmediate(instruction: bv32)
      requires Valid()
      modifies this
      ensures Valid() && next == NextAddsImmediate(instruction, old(current), old(next))
      ensures current == old(current) && mem == old(mem) && run == old(run)
    {
      var rd, rn := Rd(instruction), Rn(instruction);
      var shiftedImm12 := ShiftedImm12(instruction);
      if shiftedImm12.None? {
        return;
      }
      var result := Alu(Plus, current.regs[rn], shiftedImm12.value);
      UpdateFlags(result);
      next := WriteReg(next, rd, result);
      UpdateProgramCounter(4);
    }

    method DecodeSubsImmediate(instruction: bv32)
      requires Valid()
      modifies this
      ensures Valid() && next == NextSubsImmediate(instruction, old(current), old(next))
      ensures current == old(current) && mem == old(mem) && run == old(run)
    {
      var rd, rn := Rd(instruction), Rn(instruction);
      var shiftedImm12 := ShiftedImm12(instruction);
      if shiftedImm12.None? {
        return;
      }
      var result := Alu(Minus, current.regs[rn], shiftedImm12.value);
      UpdateFlags(result);
      if rd != 31 {
        next := WriteReg(next, rd, result);
      }
      UpdateProgramCounter(4);
    }

    method DecodeHalt(instruction: bv32)
      requires Valid()
      modifies this
      ensures Valid() && !run && next == Advanced(old(next), old(current), 4)
      ensures current == old(current) && mem == old(mem)
    {
      run := false;
      UpdateProgramCounter(4);
    }

    method DecodeAnds(instruction: bv32)
      requires Valid()
      modifies this
      ensures Valid() && next == NextAnds(instruction, old(current), old(next))
      ensures current == old(current) && mem == old(mem) && run == old(run)
    {
      var rd, rn, rm := Rd(instruction), Rn(instruction), Rm(instruction);
      var result := Alu(BitAnd, current.regs[rn], current.regs[rm]);
      UpdateFlags(result);
      next := WriteReg(next, rd, result);
      UpdateProgramCounter(4);
    }

    method DecodeEor(instruction: bv32)
      requires Valid()
      modifies this
      ensures Valid() && next == NextRegister(BitXor, instruction, old(current), old(next))
      ensures current == old(current) && mem == old(mem) && run == old(run)
    {
      var rd, rn, rm := Rd(instruction), Rn(instruction), Rm(instruction);
      var result := Alu(BitXor, current.regs[rn], current.regs[rm]);
      next := WriteReg(next, rd, result);
      UpdateProgramCounter(4);
    }

    method DecodeOrr(instruction: bv32)
      requires Valid()
      modifies this
      ensures Valid() && next == NextRegister(BitOr, instruction, old(current), old(next))
      ensures current == old(current) && mem == old(mem) && run == old(run)
    {
      var rd, rn, rm := Rd(instruction), Rn(instruction), Rm(instruction);
      var result := Alu(BitOr, current.regs[rn], current.regs[rm]);
      next := WriteReg(next, rd, result);
      UpdateProgramCounter(4);
    }

    method DecodeBranch(instruction: bv32)
      requires Valid()
      modifies this
      ensures Valid() && next == NextBranch(instruction, old(current), old(next))
      ensures current == old(current) && mem == old(mem) && run == old(run)
    {
      var imm26 := instruction & 0x3FF_FFFF;
      if imm26 & 0x100_0000 != 0 {
        imm26 := imm26 | 0xFFFF_FFC0;
      }
      var offset := imm26 * 4;
      UpdateProgramCounter(offset);
    }

    method DecodeBranchToRegister(instruction: bv32)
      requires Valid()
      modifies this
      ensures Valid() && next == NextBranchToRegister(instruction, old(current), old(next))
      ensures current == old(current) && mem == old(mem) && run == old(run)
    {
      var rn := (instruction >> 5) & 0x1F;
      var target := current.regs[rn];
      next := next.(pc := target);
    }

    method DecodeBcond(instruction: bv32)
      requires Valid()
      modifies this
      ensures Valid() && next == NextBcond(instruction, old(current), old(next))
      ensures current == old(current) && mem == old(mem) && run == old(run)
    {
      var cond := (instruction >> 0) & 0xF;
      var imm19 := (instruction >> 5) & 0x7_FFFF;
      if cond == 0x0 {
        DecodeBranchConditional(imm19, current.flagZ);
      } else if cond == 0x1 {
        DecodeBranchConditional(imm19, !current.flagZ);
      } else if cond == 0xC {
        DecodeBranchConditional(imm19, !current.flagN && !current.flagZ);
      } else if cond == 0xB {
        DecodeBranchConditional(imm19, current.flagN);
      } else if cond == 0xA {
        DecodeBranchConditional(imm19, !current.flagN);
      } else if cond == 0xD {
        DecodeBranchConditional(imm19, current.flagN || current.flagZ);
      }
    }

    method DecodeBranchConditional(imm19: bv32, condition: bool)
      modifies this
      ensures next == BranchConditional(imm19, condition, old(current), old(next))
      ensures current == old(current) && mem == old(mem) && run == old(run)
    {
      if condition {
        var imm := imm19;
        if imm & 0x4_0000 != 0 {
          imm := imm | 0xFFFF_F800;
        }
        var offset := imm * 4;
        UpdateProgramCounter(offset);
      } else {
        UpdateProgramCounter(4);
      }
    }

    method DecodeLs(instruction: bv32)
      requires Valid()
      modifies this
      ensures Valid() && next == NextLs(instruction, old(current), old(next))
      ensures current == old(current) && mem == old(mem) && run == old(run)
    {
      var imms := (instruction >> 10) & 0x3F;
      if imms == 0x3F {
        DecodeLsr(instruction);
      } else {
        DecodeLsl(instruction);
      }
    }

    method DecodeLsl(instruction: bv32)
      requires Valid()
      modifies this
      ensures Valid() && next == NextLsl(instruction, old(current), old(next))
      ensures current == old(current) && mem == old(mem) && run == old(run)
    {
      var rd, rn := Rd(instruction), Rn(instruction);
      var immr := (instruction >> 16) & 0x3F;
      var result := Lsl(current.regs[rn], immr);
      next := WriteReg(next, rd, result);
      UpdateProgramCounter(4);
    }

    method DecodeLsr(instruction: bv32)
      requires Valid()
      modifies this
      ensures Valid() && next == NextLsr(instruction, old(current), old(next))
      ensures current == old(current) && mem == old(mem) && run == old(run)
    {
      var rd, rn := Rd(instruction), Rn(instruction);
      var immr := (instruction >> 16) & 0x3F;
      var shiftAmount := immr;
      var result := Asr(current.regs[rn], shiftAmount);
      next := WriteReg(next, rd, result);
      UpdateProgramCounter(4);
    }

    method DecodeStur(instruction: bv32)
      requires Valid()
      modifies this
      ensures Valid() && mem == MemStur(instruction, old(current), old(mem))
      ensures next == Advanced(old(next), old(current), 4)
      ensures current == old(current) && run == old(run)
    {
      var rt, rn, imm9 := Rd(instruction), Rn(instruction), Imm9(instruction);
      var rtValue := current.regs[rt];
      var address := Offset(current.regs[rn], imm9);
      var low := WriteWord(mem, address, StoredLow(rtValue));
      mem := WriteWord(low, address + 4, StoredHigh(rtValue));
      UpdateProgramCounter(4);
    }

    method DecodeSturb(instruction: bv32)
      requires Valid()
      modifies this
      ensures Valid() && mem == MemSturb(instruction, old(current), old(mem))
      ensures next == Advanced(old(next), old(current), 4)
      ensures current == old(current) && run == old(run)
    {
      var rt, rn, imm9 := Rd(instruction), Rn(instruction), Imm9(instruction);
      var byteValue := LowByte(current.regs[rt]);
      var address := Offset(current.regs[rn], imm9);
      var alignedAddress := Aligned(address);
      var word := ReadWord(mem, alignedAddress);
      var byteOffset := ByteLane(address);
      word := InsertByte(word, byteOffset, byteValue);
      mem := WriteWord(mem, alignedAddress, word);
      UpdateProgramCounter(4);
    }

    method DecodeSturh(instruction: bv32)
      requires Valid()
      modifies this
      ensures Valid() && mem == MemSturh(instruction, old(current), old(mem))
      ensures next == Advanced(old(next), old(current), 4)
      ensures current == old(current) && run == old(run)
    {
      var rt, rn, imm9 := Rd(instruction), Rn(instruction), Imm9(instruction);
      var halfValue := LowHalf(current.regs[rt]);
      var address := Offset(current.regs[rn], imm9);
      var alignedAddress := Aligned(address);
      var word := ReadWord(mem, alignedAddress);
      var halfOffset := HalfLane(address);
      word := InsertHalf(word, halfOffset, halfValue);
      mem := WriteWord(mem, alignedAddress, word);
      UpdateProgramCounter(4);
    }

    method DecodeLdur(instruction: bv32)
      requires Valid()
      modifies this
      ensures Valid() && next == NextLdur(instruction, old(current), old(next), old(mem))
      ensures current == old(current) && mem == old(mem) && run == old(run)
    {
      var rt, rn, imm9 := Rd(instruction), Rn(instruction), Imm9(instruction);
      var address := Offset(current.regs[rn], imm9);
      var valueLow := ReadWord(mem, address);
      var valueHigh := ReadWord(mem, address + 4);
      var fullValue := Combine(valueHigh, valueLow);
      next := WriteReg(next, rt, fullValue);
      UpdateProgramCounter(4);
    }

    method DecodeLdurb(instruction: bv32)
      requires Valid()
      modifies this
      ensures Valid() && next == NextLdurb(instruction, old(current), old(next), old(mem))
      ensures current == old(current) && mem == old(mem) && run == old(run)
    {
      var rt, rn, imm9 := Rd(instruction), Rn(instruction), Imm9(instruction);
      var address := Offset(current.regs[rn], imm9);
      var value := ReadWord(mem, address);
      value := value & 0xFF;
      next := WriteReg(next, rt, value as bv64);
      UpdateProgramCounter(4);
    }

    method DecodeLdurh(instruction: bv32)
      requires Valid()
      modifies this
      ensures Valid() && next == NextLdurh(instruction, old(current), old(next), old(mem))
      ensures current == old(current) && mem == old(mem) && run == old(run)
    {
      var rt, rn, imm9 := Rd(instruction), Rn(instruction), Imm9(instruction);
      var address := Offset(current.regs[rn], imm9);
      var value := ReadWord(mem, address);
      value := value & 0xFFFF;
      next := WriteReg(next, rt, value as bv64);
      UpdateProgramCounter(4);
    }

    method DecodeMovz(instruction: bv32)
      requires Valid()
      modifies this
      ensures Valid() && next == NextMovz(instruction, old(current), old(next))
      ensures current == old(current) && mem == old(mem) && run == old(run)
    {
      var rd := (instruction >> 0) & 0x1F;
      var imm16 := (instruction >> 5) & 0xFFFF;
      next := WriteReg(next, rd, imm16 as bv64);
      UpdateProgramCounter(4);
    }

    method DecodeAddExtended(instruction: bv32)
      requires Valid()
      modifies this
      ensures Valid() && next == NextRegister(Plus, instruction, old(current), old(next))
      ensures current == old(current) && mem == old(mem) && run == old(run)
    {
      var rd, rn, rm := Rd(instruction), Rn(instruction), Rm(instruction);
      var result := Alu(Plus, current.regs[rn], current.regs[rm]);
      next := WriteReg(next, rd, result);
      UpdateProgramCounter(4);
    }

    method DecodeAddImmediate(instruction: bv32)
      requires Valid()
      modifies this
      ensures Valid() && next == NextAddImmediate(instruction, old(current), old(next))
      ensures current == old(current) && mem == old(mem) && run == old(run)
    {
      var rd, rn := Rd(instruction), Rn(instruction);
      var shiftedImm12 := ShiftedImm12(instruction);
      if shiftedImm12.None? {
        return;
      }
      var result := Alu(Plus, current.regs[rn], shiftedImm12.value);
      next := WriteReg(next, rd, result);
      next := next.(pc := current.pc + 4);
    }

    method DecodeMul(instruction: bv32)
      requires Valid()
      modifies this
      ensures Valid() && next == NextRegister(Times, instruction, old(current), old(next))
      ensures current == old(current) && mem == old(mem) && run == old(run)
    {
      var rd, rn, rm := Rd(instruction), Rn(instruction), Rm(instruction);
      var result := Alu(Times, current.regs[rn], current.regs[rm]);
      next := WriteReg(next, rd, result);
      UpdateProgramCounter(4);
    }

    method DecodeCbz(instruction: bv32)
      requires Valid()
      modifies this
      ensures Valid() && next == NextCbz(instruction, old(current), old(next))
      ensures current == old(current) && mem == old(mem) && run == old(run)
    {
      var rt, imm19 := Rd(instruction), Imm19(instruction);
      DecodeBranchConditional(imm19, current.regs[rt] == 0);
    }

    method DecodeCbnz(instruction: bv32)
      requires Valid()
      modifies this
      ensures Valid() && next == NextCbnz(instruction, old(current), old(next))
      ensures current == old(current) && mem == old(mem) && run == old(run)
    {
      var rt, imm19 := Rd(instruction), Imm19(instruction);
      DecodeBranchConditional(imm19, current.regs[rt] != 0);
    }

    /** The call through the function pointer of a table entry. */
    method RunHandler(h: Handler, instruction: bv32)
      requires Valid()
      modifies this
      ensures Valid() && Snapshot() == Exec(h, instruction, old(Snapshot()))
    {
      match h
      case AddsExtended => DecodeAddsExtended(instruction);
      case AddsImmediate => DecodeAddsImmediate(instruction);
      case SubsExtended => DecodeSubsExtended(instruction);
      case SubsImmediate => DecodeSubsImmediate(instruction);
      case Halt => DecodeHalt(instruction);
      case Ands => DecodeAnds(instruction);
      case Eor => DecodeEor(instruction);
      case Orr => DecodeOrr(instruction);
      case Branch => DecodeBranch(instruction);
      case BranchToRegister => DecodeBranchToRegister(instruction);
      case Bcond => DecodeBcond(instruction);
      case Ls => DecodeLs(instruction);
      case Stur => DecodeStur(instruction);
      case Sturb => DecodeSturb(instruction);
      case Sturh => DecodeSturh(instruction);
      case Ldur => DecodeLdur(instruction);
      case Ldurh => DecodeLdurh(instruction);
      case Ldurb => DecodeLdurb(instruction);
      case Movz => DecodeMovz(instruction);
      case AddExtended => DecodeAddExtended(instruction);
      case AddImmediate => DecodeAddImmediate(instruction);
      case Mul => DecodeMul(instruction);
      case Cbz => DecodeCbz(instruction);
      case Cbnz => DecodeCbnz(instruction);
    }

    /** process_instruction: fetch the word at PC, run the first entry of
        INSTRUCTION_SET that matches it, or clear the run latch. */
    method ProcessInstruction()
      requires Valid()
      modifies this
      ensures Valid() && Snapshot() == Step(old(Snapshot()))
    {
      var instruction := ReadWord(mem, current.pc);
      var found := ScanInstructionSet(instruction);
      if found.Some? {
        RunHandler(InstructionSet[found.value].handler, instruction);
      } else {
        run := false;
      }
    }

    /** The loop of process_instruction: scan INSTRUCTION_SET in order,
        trying the 11-, 10-, 8- and 6-bit candidates against each entry, and
        stop at the first that matches. */
    method ScanInstructionSet(instruction: bv32) returns (found: Option<nat>)
      ensures found == MatchFrom(instruction, 0)
    {
      var opcode11 := Opcode11(instruction);
      var opcode10 := Opcode10(instruction);
      var opcode8 := Opcode8(instruction);
      var opcode6 := Opcode6(instruction);
      var i := 0;
      while i < |InstructionSet|
        invariant 0 <= i <= |InstructionSet|
        invariant MatchFrom(instruction, 0) == MatchFrom(instruction, i)
      {
        var entry := InstructionSet[i];
        if entry.opcode == opcode11 || entry.opcode == opcode10
           || entry.opcode == opcode8 || entry.opcode == opcode6 {
          return Some(i);
        }
        i := i + 1;
      }
      return None;
    }
  }
}
