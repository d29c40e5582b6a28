/** Properties of one simulator cycle (ArmExec): what dispatch selects, which
    handlers touch the flags, the program counter, the run latch and memory, and
    how stores and loads round-trip. */
module ArmProps {
  import opened Options
  import opened ArmMachine
  import opened ArmFields
  import opened ArmExec

  // ---------------------------------------------------------------------------
  // Dispatch

  /** A word no entry matches stops the simulator and changes nothing else. */
  lemma UnknownInstructionStops(m: Machine)
    requires MachineOk(m)
    requires forall e :: e in InstructionSet ==> !Matches(e, ReadWord(m.mem, m.current.pc))
    ensures Step(m) == Machine(m.current, m.next, m.mem, false)
  {
  }

  /** Where a handler's entry sits in INSTRUCTION_SET. */
  function TableIndex(h: Handler): nat
  {
    match h
    case AddsExtended => 0 case AddsImmediate => 1 case SubsExtended => 2
    case SubsImmediate => 3 case Halt => 4 case Ands => 5 case Eor => 6
    case Orr => 7 case Branch => 8 case BranchToRegister => 9 case Bcond => 10
    case Ls => 11 case Stur => 12 case Sturb => 13 case Sturh => 14
    case Ldur => 15 case Ldurh => 16 case Ldurb => 17 case Movz => 18
    case AddExtended => 19 case AddImmediate => 20 case Mul => 21
    case Cbz => 22 case Cbnz => 23
  }

  /** INSTRUCTION_SET has 24 entries and lists every handler, the entry at
      TableIndex(h) being h's; as there are 24 handlers, each has exactly one
      entry. */
  lemma EveryHandlerListed(h: Handler)
    ensures |InstructionSet| == 24
    ensures TableIndex(h) < 24 && InstructionSet[TableIndex(h)].handler == h
  {
  }

  /** Dispatch picks a handler exactly when some entry matches, and then the
      handler of the first entry that does. */
  lemma DispatchFirstMatch(w: bv32)
    ensures Dispatch(w).None? <==> forall i :: 0 <= i < |InstructionSet| ==> !Matches(InstructionSet[i], w)
    ensures Dispatch(w).Some? ==>
      exists i :: 0 <= i < |InstructionSet| && Matches(InstructionSet[i], w)
        && Dispatch(w).value == InstructionSet[i].handler
        && forall j :: 0 <= j < i ==> !Matches(InstructionSet[j], w)
  {
    var r := MatchFrom(w, 0);
    if r.Some? {
      assert Matches(InstructionSet[r.value], w);
    }
  }

  /** An entry that matches, with no match before it, decides the handler. */
  lemma FirstMatchDecides(w: bv32, k: nat)
    requires k < |InstructionSet| && Matches(InstructionSet[k], w)
    requires forall j :: 0 <= j < k ==> !Matches(InstructionSet[j], w)
    ensures Dispatch(w) == Some(InstructionSet[k].handler)
  {
    MatchFromReaches(w, 0, k);
  }

  /** Scanning from i reaches k when k matches and nothing between does. */
  lemma {:induction false} MatchFromReaches(w: bv32, i: nat, k: nat)
    requires i <= k < |InstructionSet| && Matches(InstructionSet[k], w)
    requires forall j :: i <= j < k ==> !Matches(InstructionSet[j], w)
    ensures MatchFrom(w, i) == Some(k)
    decreases k - i
  {
    if i < k {
      MatchFromReaches(w, i + 1, k);
    }
  }

  /** HLT #0 reaches decode_halt. */
  lemma DispatchHalt()
    ensures Dispatch(0xD440_0000) == Some(Halt)
  {
    FirstMatchDecides(0xD440_0000, 4);
  }

  /** MOVZ X1, #5 reaches decode_movz. */
  lemma DispatchMovz()
    ensures Dispatch(0xD280_00A1) == Some(Movz)
  {
    FirstMatchDecides(0xD280_00A1, 18);
  }

  /** ADD X0, X1, #1 reaches decode_add_imm. */
  lemma DispatchAddImmediate()
    ensures Dispatch(0x9100_0420) == Some(AddImmediate)
  {
    FirstMatchDecides(0x9100_0420, 20);
  }

  /** The table carries no opcode widths, so an entry can match the wrong
      candidate: the word 0x16200000 has B's 6-bit opcode 000101, but its 11-bit
      candidate equals ADDS (immediate)'s 8-bit opcode 0xB1, which comes first. */
  lemma BranchShadowedByAddsImmediate()
    ensures Opcode6(0x1620_0000) == 0x5
    ensures Dispatch(0x1620_0000) == Some(AddsImmediate)
  {
  }

  // ---------------------------------------------------------------------------
  // Frames: what each kind of handler leaves alone

  predicate IsBranch(h: Handler)
  {
    h == Branch || h == BranchToRegister || h == Bcond || h == Cbz || h == Cbnz
  }

  predicate IsMemoryAccess(h: Handler)
  {
    h == Stur || h == Sturb || h == Sturh || h == Ldur || h == Ldurh || h == Ldurb
  }

  /** The next snapshot of a cycle is the one the handler's state function
      computes from the current snapshot, the next one and memory. */
  lemma ExecNext(h: Handler, w: bv32, m: Machine)
    requires MachineOk(m)
    ensures Exec(h, w, m).next == NextOf(h, w, m.current, m.next, m.mem)
  {
  }

  /** Only ADDS, SUBS and ANDS write the flags. */
  lemma FlagsFrame(h: Handler, w: bv32, m: Machine)
    requires MachineOk(m) && !SetsFlags(h)
    ensures Exec(h, w, m).next.flagN == m.next.flagN && Exec(h, w, m).next.flagZ == m.next.flagZ
  {
    ExecNext(h, w, m);
    NextKeepsFlags(h, w, m.current, m.next, m.mem);
  }

  lemma NextKeepsFlags(h: Handler, w: bv32, cur: State, nxt: State, mem: Memory)
    requires WellFormed(cur) && WellFormed(nxt) && !SetsFlags(h)
    ensures NextOf(h, w, cur, nxt, mem).flagN == nxt.flagN && NextOf(h, w, cur, nxt, mem).flagZ == nxt.flagZ
  {
    if IsBranch(h) {
      BranchesKeepFlags(h, w, cur, nxt, mem);
    } else if IsMemoryAccess(h) || h == Halt {
      MemoryAccessKeepsFlags(h, w, cur, nxt, mem);
    } else {
      RegisterOpsKeepFlags(h, w, cur, nxt, mem);
    }
  }

  lemma BranchesKeepFlags(h: Handler, w: bv32, cur: State, nxt: State, mem: Memory)
    requires WellFormed(cur) && WellFormed(nxt) && IsBranch(h)
    ensures NextOf(h, w, cur, nxt, mem).flagN == nxt.flagN && NextOf(h, w, cur, nxt, mem).flagZ == nxt.flagZ
  {
    match h
    case Branch =>
    case BranchToRegister =>
    case Bcond =>
    case Cbz =>
    case Cbnz =>
  }

  lemma BranchesKeepRegisterFile(h: Handler, w: bv32, cur: State, nxt: State, mem: Memory)
    requires WellFormed(cur) && WellFormed(nxt) && IsBranch(h)
    ensures NextOf(h, w, cur, nxt, mem).regs == nxt.regs
  {
    match h
    case Branch =>
    case BranchToRegister =>
    case Bcond =>
    case Cbz =>
    case Cbnz =>
  }


  lemma MemoryAccessKeepsFlags(h: Handler, w: bv32, cur: State, nxt: State, mem: Memory)
    requires WellFormed(cur) && WellFormed(nxt) && (IsMemoryAccess(h) || h == Halt)
    ensures NextOf(h, w, cur, nxt, mem).flagN == nxt.flagN && NextOf(h, w, cur, nxt, mem).flagZ == nxt.flagZ
  {
    if IsStore(h) || h == Halt {
      StoresAdvance(h, w, cur, nxt, mem);
    } else {
      LoadsKeepFlags(h, w, cur, nxt, mem);
    }
  }

  /** HLT and the stores only advance the PC of the next snapshot. */
  lemma StoresAdvance(h: Handler, w: bv32, cur: State, nxt: State, mem: Memory)
    requires WellFormed(cur) && WellFormed(nxt) && (IsStore(h) || h == Halt)
    ensures NextOf(h, w, cur, nxt, mem) == Advanced(nxt, cur, 4)
  {
    if h == Stur {
    } else if h == Sturb {
    } else if h == Sturh {
    } else {
    }
  }

  lemma LoadsKeepFlags(h: Handler, w: bv32, cur: State, nxt: State, mem: Memory)
    requires WellFormed(cur) && WellFormed(nxt) && (h == Ldur || h == Ldurh || h == Ldurb)
    ensures NextOf(h, w, cur, nxt, mem).flagN == nxt.flagN && NextOf(h, w, cur, nxt, mem).flagZ == nxt.flagZ
    ensures NextOf(h, w, cur, nxt, mem).pc == Target(cur.pc, 4)
  {
    if h == Ldur {
    } else if h == Ldurh {
    } else {
    }
  }

  lemma RegisterOpsKeepFlags(h: Handler, w: bv32, cur: State, nxt: State, mem: Memory)
    requires WellFormed(cur) && WellFormed(nxt)
    requires h == Eor || h == Orr || h == Ls || h == Movz || h == AddExtended || h == AddImmediate || h == Mul
    ensures NextOf(h, w, cur, nxt, mem).flagN == nxt.flagN && NextOf(h, w, cur, nxt, mem).flagZ == nxt.flagZ
  {
    if h == Eor {
    } else if h == Orr {
    } else if h == Ls {
    } else if h == Movz {
    } else if h == AddExtended {
    } else if h == AddImmediate {
    } else {
    }
  }

  /** Branches write no register. */
  lemma BranchesKeepRegisters(h: Handler, w: bv32, m: Machine)
    requires MachineOk(m) && IsBranch(h)
    ensures Exec(h, w, m).next.regs == m.next.regs
  {
    ExecNext(h, w, m);
    BranchesKeepRegisterFile(h, w, m.current, m.next, m.mem);
  }

  // ---------------------------------------------------------------------------
  // The program counter

  /** Every handler that is not a branch moves to the next instruction, except
      an ADD, ADDS or SUBS immediate with a shift field of 2 or 3. */
  lemma SequentialPc(h: Handler, w: bv32, m: Machine)
    requires MachineOk(m) && !IsBranch(h)
    requires h == AddsImmediate || h == SubsImmediate || h == AddImmediate ==> ShiftedImm12(w).Some?
    ensures Exec(h, w, m).next.pc == Target(m.current.pc, 4)
  {
    ExecNext(h, w, m);
    var cur, nxt, mem := m.current, m.next, m.mem;
    if h == AddsImmediate || h == SubsImmediate || h == AddImmediate {
      ImmediatesAdvance(h, w, cur, nxt, mem);
    } else if IsMemoryAccess(h) || h == Halt {
      MemoryAccessAdvances(h, w, cur, nxt, mem);
    } else {
      RegisterOpsAdvance(h, w, cur, nxt, mem);
    }
  }

  lemma ImmediatesAdvance(h: Handler, w: bv32, cur: State, nxt: State, mem: Memory)
    requires WellFormed(cur) && WellFormed(nxt) && (h == AddsImmediate || h == SubsImmediate || h == AddImmediate)
    requires ShiftedImm12(w).Some?
    ensures NextOf(h, w, cur, nxt, mem).pc == Target(cur.pc, 4)
  {
    if h == AddsImmediate {
    } else if h == SubsImmediate {
    } else {
    }
  }

  lemma MemoryAccessAdvances(h: Handler, w: bv32, cur: State, nxt: State, mem: Memory)
    requires WellFormed(cur) && WellFormed(nxt) && (IsMemoryAccess(h) || h == Halt)
    ensures NextOf(h, w, cur, nxt, mem).pc == Target(cur.pc, 4)
  {
    if IsStore(h) || h == Halt {
      StoresAdvance(h, w, cur, nxt, mem);
    } else {
      LoadsKeepFlags(h, w, cur, nxt, mem);
    }
  }

  lemma RegisterOpsAdvance(h: Handler, w: bv32, cur: State, nxt: State, mem: Memory)
    requires WellFormed(cur) && WellFormed(nxt) && !IsBranch(h) && !IsMemoryAccess(h) && h != Halt
    requires h != AddsImmediate && h != SubsImmediate && h != AddImmediate
    ensures NextOf(h, w, cur, nxt, mem).pc == Target(cur.pc, 4)
  {
    if h == AddsExtended {
    } else if h == SubsExtended {
    } else if h == Ands {
    } else if h == Eor {
    } else if h == Orr {
    } else if h == Ls {
    } else if h == Movz {
    } else if h == AddExtended {
    } else {
    }
  }

  /** A shift field of 2 or 3 makes ADD, ADDS and SUBS (immediate) return
      before writing anything: the PC does not advance either. */
  lemma InvalidShiftChangesNothing(h: Handler, w: bv32, m: Machine)
    requires MachineOk(m) && (h == AddsImmediate || h == SubsImmediate || h == AddImmediate)
    requires (w >> 22) & 3 >= 2
    ensures Exec(h, w, m) == m
  {
  }

  /** B adds four times its extended imm26 to the PC. */
  lemma BranchTarget(w: bv32, m: Machine)
    requires MachineOk(m)
    ensures Exec(Branch, w, m).next.pc == Target(m.current.pc, BranchImm26(w) * 4)
  {
  }

  /** BR jumps to the address held in rn. */
  lemma BranchToRegisterTarget(w: bv32, m: Machine)
    requires MachineOk(m)
    ensures Exec(BranchToRegister, w, m).next.pc == m.current.regs[Rn(w)]
  {
  }

  /** B.cond branches exactly when its condition holds on the current flags, and
      an unhandled condition code leaves the next snapshot as it was. */
  lemma BcondTarget(w: bv32, m: Machine)
    requires MachineOk(m)
    ensures var t := Exec(Bcond, w, m).next;
      match CondHolds(w & 0xF, m.current.flagN, m.current.flagZ)
      case None => t == m.next
      case Some(taken) =>
        t.pc == Target(m.current.pc, if taken then CondImm19(Imm19(w)) * 4 else 4)
  {
  }

  /** CBZ branches exactly when rt is zero. */
  lemma CbzTarget(w: bv32, m: Machine)
    requires MachineOk(m)
    ensures var zero := m.current.regs[Rd(w)] == 0;
      Exec(Cbz, w, m).next.pc == Target(m.current.pc, if zero then CondImm19(Imm19(w)) * 4 else 4)
  {
  }

  /** CBNZ branches exactly when rt is not zero. */
  lemma CbnzTarget(w: bv32, m: Machine)
    requires MachineOk(m)
    ensures var zero := m.current.regs[Rd(w)] == 0;
      Exec(Cbnz, w, m).next.pc == Target(m.current.pc, if zero then 4 else CondImm19(Imm19(w)) * 4)
  {
  }

  // ---------------------------------------------------------------------------
  // Registers and flags

  lemma SubtractionZero(x: bv64, y: bv64)
    ensures Alu(Minus, x, y) == 0 <==> x == y
  {
    DifferenceZero(x, y);
    assert Alu(Minus, x, y) == x - y;
  }

  lemma DifferenceZero(x: bv64, y: bv64)
    ensures x - y == 0 <==> x == y
  {
  }

  /** SUBS sets Z exactly when its operands are equal. */
  lemma SubsZero(x: bv64, y: bv64, rd: bv32, cur: State, nxt: State)
    requires WellFormed(cur) && WellFormed(nxt) && rd < 32
    ensures NextSubs(x, y, rd, cur, nxt).flagZ <==> x == y
  {
    assert NextSubs(x, y, rd, cur, nxt).flagZ <==> Alu(Minus, x, y) == 0;
    SubtractionZero(x, y);
  }

  /** SUBS sets N to bit 63 of the difference. */
  lemma SubsNegative(x: bv64, y: bv64, rd: bv32, cur: State, nxt: State)
    requires WellFormed(cur) && WellFormed(nxt) && rd < 32
    ensures NextSubs(x, y, rd, cur, nxt).flagN <==> x - y >= 0x8000_0000_0000_0000
  {
  }

  /** SUBS writes the difference to rd unless rd is 31, in which case it is
      CMP and no register changes. */
  lemma SubsDestination(x: bv64, y: bv64, rd: bv32, cur: State, nxt: State)
    requires WellFormed(cur) && WellFormed(nxt) && rd < 32
    ensures rd == 31 ==> NextSubs(x, y, rd, cur, nxt).regs == nxt.regs
    ensures rd != 31 ==> NextSubs(x, y, rd, cur, nxt).regs == nxt.regs[rd := x - y]
  {
  }

  /** SUBS (extended register) sets Z exactly when rn equals rm. */
  lemma SubsExtendedCompares(w: bv32, m: Machine)
    requires MachineOk(m)
    ensures Exec(SubsExtended, w, m).next.flagZ <==> m.current.regs[Rn(w)] == m.current.regs[Rm(w)]
  {
    var x, y := m.current.regs[Rn(w)], m.current.regs[Rm(w)];
    assert Exec(SubsExtended, w, m).next == NextSubs(x, y, Rd(w), m.current, m.next);
    SubsZero(x, y, Rd(w), m.current, m.next);
  }

  /** SUBS (extended register) with rd = 31 is CMP: no register changes. */
  lemma SubsExtendedToSlot31(w: bv32, m: Machine)
    requires MachineOk(m) && Rd(w) == 31
    ensures Exec(SubsExtended, w, m).next.regs == m.next.regs
  {
  }

  /** ADDS (extended register) has no such guard: with rd = 31 it writes the
      sum into slot 31. */
  lemma AddsWritesSlot31(w: bv32, m: Machine)
    requires MachineOk(m) && Rd(w) == 31
    ensures var x, y := m.current.regs[Rn(w)], m.current.regs[Rm(w)];
      Exec(AddsExtended, w, m).next.regs[31] == x + y
  {
  }

  /** ADDS sets N to bit 63 of the sum and Z exactly when the sum is 0, and
      writes the sum to rd. */
  lemma AddsFlags(x: bv64, y: bv64, rd: bv32, cur: State, nxt: State)
    requires WellFormed(nxt) && rd < 32
    ensures var t := NextFlagSetting(Plus, x, y, rd, cur, nxt);
      (t.flagN <==> x + y >= 0x8000_0000_0000_0000) && (t.flagZ <==> x + y == 0)
      && t.regs == nxt.regs[rd := x + y]
  {
  }

  /** ADDS (extended register) sets its flags from REGS[rn] + REGS[rm]. */
  lemma AddsExtendedFlags(w: bv32, cur: State, nxt: State)
    requires WellFormed(cur) && WellFormed(nxt)
    ensures NextAddsExtended(w, cur, nxt).flagN <==> cur.regs[Rn(w)] + cur.regs[Rm(w)] >= 0x8000_0000_0000_0000
  {
    var x, y := cur.regs[Rn(w)], cur.regs[Rm(w)];
    AddsFlags(x, y, Rd(w), cur, nxt);
  }

  lemma AddsExtendedZero(w: bv32, cur: State, nxt: State)
    requires WellFormed(cur) && WellFormed(nxt)
    ensures NextAddsExtended(w, cur, nxt).flagZ <==> cur.regs[Rn(w)] + cur.regs[Rm(w)] == 0
  {
    var x, y := cur.regs[Rn(w)], cur.regs[Rm(w)];
    assert NextAddsExtended(w, cur, nxt) == NextFlagSetting(Plus, x, y, Rd(w), cur, nxt);
    AddsFlags(x, y, Rd(w), cur, nxt);
  }

  lemma AddsImmediateFlags(w: bv32, m: Machine)
    requires MachineOk(m) && ShiftedImm12(w).Some?
    ensures var sum := m.current.regs[Rn(w)] + ShiftedImm12(w).value;
      var t := Exec(AddsImmediate, w, m).next;
      (t.flagN <==> sum >= 0x8000_0000_0000_0000) && (t.flagZ <==> sum == 0)
  {
    var x, y := m.current.regs[Rn(w)], ShiftedImm12(w).value;
    ExecNext(AddsImmediate, w, m);
    assert NextAddsImmediate(w, m.current, m.next) == NextFlagSetting(Plus, x, y, Rd(w), m.current, m.next);
    AddsFlags(x, y, Rd(w), m.current, m.next);
  }

  lemma ConjunctionZero(x: bv64, y: bv64)
    ensures Alu(BitAnd, x, y) == 0 <==> x & y == 0
  {
  }

  /** A flag-setting conjunction sets Z exactly when its operands share no set
      bit. */
  lemma ConjunctionFlagZero(x: bv64, y: bv64, rd: bv32, cur: State, nxt: State)
    requires WellFormed(nxt) && rd < 32
    ensures NextFlagSetting(BitAnd, x, y, rd, cur, nxt).flagZ <==> x & y == 0
  {
    assert NextFlagSetting(BitAnd, x, y, rd, cur, nxt).flagZ <==> Alu(BitAnd, x, y) == 0;
    ConjunctionZero(x, y);
  }

  /** ANDS writes the conjunction of rn and rm to rd, even when rd is 31. */
  lemma AndsDestination(w: bv32, m: Machine)
    requires MachineOk(m)
    ensures Exec(Ands, w, m).next.regs == m.next.regs[Rd(w) := m.current.regs[Rn(w)] & m.current.regs[Rm(w)]]
  {
  }

  /** Subtracting 3 from 10 gives 7 with both flags clear; subtracting 10 from 3
      sets N. */
  lemma SubsScenario(cur: State, nxt: State)
    requires WellFormed(cur) && WellFormed(nxt)
    ensures var t := NextSubs(10, 3, 2, cur, nxt); t.regs[2] == 7 && !t.flagN && !t.flagZ
    ensures var t := NextSubs(3, 10, 2, cur, nxt); t.flagN && !t.flagZ
  {
  }

  /** The signed conditions read only N and Z, so after CMP they are signed
      comparisons only while the subtraction does not overflow: the most
      negative value compares as not less than 1. */
  lemma LessThanIgnoresOverflow(cur: State, nxt: State)
    requires WellFormed(cur) && WellFormed(nxt)
    ensures var t := NextSubs(0x8000_0000_0000_0000, 1, 31, cur, nxt);
      CondHolds(0xB, t.flagN, t.flagZ) == Some(false)
  {
  }

  /** After CMP x, y the EQ and NE conditions hold exactly when x equals,
      respectively differs from, y. */
  lemma CompareEquality(x: bv64, y: bv64, cur: State, nxt: State)
    requires WellFormed(cur) && WellFormed(nxt)
    ensures var t := NextSubs(x, y, 31, cur, nxt);
      CondHolds(0x0, t.flagN, t.flagZ) == Some(x == y)
      && CondHolds(0x1, t.flagN, t.flagZ) == Some(x != y)
  {
    SubsZero(x, y, 31, cur, nxt);
  }

  // ---------------------------------------------------------------------------
  // Shifts

  /** decode_lsl undoes the encoding of LSL #s as UBFM with immr = (64 - s) % 64:
      the register is shifted left by s. */
  lemma LslEncodingRoundTrip(x: bv64, s: bv32)
    requires s < 64
    ensures Lsl(x, (64 - s) % 64) == x << s
  {
  }

  /** decode_lsr shifts arithmetically: on a value with bit 63 clear it is the
      logical shift, and on a value with bit 63 set the n vacated high bits
      are ones and the rest is the logical shift. */
  lemma LsrIsArithmetic(x: bv64, n: bv32)
    requires n < 64
    ensures x < 0x8000_0000_0000_0000 ==> Asr(x, n) == x >> n
    ensures x >= 0x8000_0000_0000_0000 ==> Asr(x, n) == (x >> n) | !(0xFFFF_FFFF_FFFF_FFFF >> n)
    ensures Asr(0x8000_0000_0000_0000, 63) == 0xFFFF_FFFF_FFFF_FFFF
  {
    if x >= 0x8000_0000_0000_0000 {
      if n < 8 {
        OnesFill0(x, n);
      } else if n < 16 {
        OnesFill8(x, n);
      } else if n < 32 {
        OnesFill16(x, n);
      } else {
        OnesFill32(x, n);
      }
    }
  }

  // The ones-fill for a negative value, by ranges of the shift amount: Z3
  // decides it for a symbolic amount only when the range is small.

  lemma OnesFill0(x: bv64, n: bv32)
    requires 0 <= n < 8 && x >= 0x8000_0000_0000_0000
    ensures Asr(x, n) == (x >> n) | !(0xFFFF_FFFF_FFFF_FFFF >> n)
  {
  }

  lemma OnesFill8(x: bv64, n: bv32)
    requires 8 <= n < 16 && x >= 0x8000_0000_0000_0000
    ensures Asr(x, n) == (x >> n) | !(0xFFFF_FFFF_FFFF_FFFF >> n)
  {
  }

  lemma OnesFill16(x: bv64, n: bv32)
    requires 16 <= n < 32 && x >= 0x8000_0000_0000_0000
    ensures Asr(x, n) == (x >> n) | !(0xFFFF_FFFF_FFFF_FFFF >> n)
  {
  }

  lemma OnesFill32(x: bv64, n: bv32)
    requires 32 <= n < 64 && x >= 0x8000_0000_0000_0000
    ensures Asr(x, n) == (x >> n) | !(0xFFFF_FFFF_FFFF_FFFF >> n)
  {
  }
}
