/** Architectural state, memory and instruction-word fields of the A64-subset
    simulator in TP1-ARM/src/sim.c.

    Registers are 64-bit words; the flags are booleans (the simulator only ever
    stores 0 or 1 in them); memory is byte addressed and is reached only
    through little-endian 32-bit word reads and writes, at any address. */
module ArmMachine {

  /** One snapshot of the architecture: 32 register slots (slot 31 is stored and
      read like any other), the N and Z flags and the program counter. */
  datatype State = State(regs: seq<bv64>, flagN: bool, flagZ: bool, pc: bv64)

  predicate WellFormed(s: State) { |s.regs| == 32 }

  /** A byte address. (Keys of a map are wrapped: the verifier reasons poorly
      about maps keyed directly by bit-vectors.) */
  datatype Addr = Addr(bits: bv64)

  /** Bytes that were never written read as zero. */
  type Memory = map<Addr, bv8>

  /** Everything one cycle reads or writes: the read-only current snapshot, the
      next snapshot the handlers write, memory and the run latch. */
  datatype Machine = Machine(current: State, next: State, mem: Memory, run: bool)

  predicate MachineOk(m: Machine) { WellFormed(m.current) && WellFormed(m.next) }

  // ---------------------------------------------------------------------------
  // Memory: the word primitives the simulator assumes (mem_read_32, mem_write_32)

  function ByteAt(mem: Memory, a: bv64): bv8 { if Addr(a) in mem then mem[Addr(a)] else 0 }

  /** Byte k (0 = least significant) of a word. */
  function ByteOf(w: bv32, k: bv32): bv8
    requires k < 4
  {
    ((w >> (8 * k)) & 0xFF) as bv8
  }

  /** Address x lies in the four bytes starting at a (wrapping at 2^64). */
  predicate InWord(a: bv64, x: bv64) { x - a < 4 }

  /** The little-endian word made of the four bytes starting at a. */
  function ReadWord(mem: Memory, a: bv64): (w: bv32)
    ensures ByteOf(w, 0) == ByteAt(mem, a) && ByteOf(w, 1) == ByteAt(mem, a + 1)
    ensures ByteOf(w, 2) == ByteAt(mem, a + 2) && ByteOf(w, 3) == ByteAt(mem, a + 3)
  {
    (ByteAt(mem, a) as bv32)
    | ((ByteAt(mem, a + 1) as bv32) << 8)
    | ((ByteAt(mem, a + 2) as bv32) << 16)
    | ((ByteAt(mem, a + 3) as bv32) << 24)
  }

  /** Stores the four bytes of w, least significant first, starting at a. */
  function WriteWord(mem: Memory, a: bv64, w: bv32): (r: Memory)
    ensures ByteAt(r, a) == ByteOf(w, 0) && ByteAt(r, a + 1) == ByteOf(w, 1)
    ensures ByteAt(r, a + 2) == ByteOf(w, 2) && ByteAt(r, a + 3) == ByteOf(w, 3)
    ensures forall x :: !InWord(a, x) ==> ByteAt(r, x) == ByteAt(mem, x)
  {
    mem[Addr(a) := ByteOf(w, 0)][Addr(a + 1) := ByteOf(w, 1)]
       [Addr(a + 2) := ByteOf(w, 2)][Addr(a + 3) := ByteOf(w, 3)]
  }

  /** A word reads back as it was written. */
  lemma WordRoundTrip(mem: Memory, a: bv64, w: bv32)
    ensures ReadWord(WriteWord(mem, a, w), a) == w
  {
    ByteDecomposition(w);
  }

  /** A word is the little-endian combination of its four bytes. */
  lemma ByteDecomposition(w: bv32)
    ensures w == (ByteOf(w, 0) as bv32) | ((ByteOf(w, 1) as bv32) << 8)
               | ((ByteOf(w, 2) as bv32) << 16) | ((ByteOf(w, 3) as bv32) << 24)
  {
  }

  // ---------------------------------------------------------------------------
  // Register file and program counter

  /** Writes one slot of a snapshot's register file; index 31 included. */
  function WriteReg(s: State, r: bv32, v: bv64): (t: State)
    requires WellFormed(s) && r < 32
    ensures WellFormed(t) && t.regs[r] == v
    ensures forall i :: 0 <= i < 32 && i != r as int ==> t.regs[i] == s.regs[i]
    ensures t.flagN == s.flagN && t.flagZ == s.flagZ && t.pc == s.pc
  {
    s.(regs := s.regs[r := v])
  }

  /** A 32-bit two's-complement value widened to 64 bits (int32_t to int64_t). */
  function SignExtend64(x: bv32): bv64
  {
    if x & 0x8000_0000 != 0 then (x as bv64) | 0xFFFF_FFFF_0000_0000 else x as bv64
  }

  /** Widening keeps the low 32 bits and copies bit 31 into bits 32 to 63. */
  lemma SignExtension(x: bv32)
    ensures SignExtend64(x) & 0xFFFF_FFFF == x as bv64
    ensures SignExtend64(x) >> 31 == (if x & 0x8000_0000 != 0 then 0x1_FFFF_FFFF else 0)
  {
    if x & 0x8000_0000 != 0 {
      assert ((x as bv64) | 0xFFFF_FFFF_0000_0000) & 0xFFFF_FFFF == x as bv64;
      assert (x as bv64) >> 31 == 1;
    } else {
      assert (x as bv64) >> 31 == 0;
    }
  }

  /** N is bit 63 of the result and Z says whether it is zero (update_flags). */
  function Flagged(s: State, result: bv64): (t: State)
    ensures t.flagN <==> result >= 0x8000_0000_0000_0000
    ensures t.flagZ <==> result == 0
    ensures t.regs == s.regs && t.pc == s.pc
  {
    s.(flagN := (result >> 63) & 1 == 1, flagZ := result == 0)
  }

  /** A PC plus a signed 32-bit byte offset (uint64_t + int32_t). */
  function Target(pc: bv64, offset: bv32): bv64
  {
    pc + SignExtend64(offset)
  }

  /** The next PC is the current PC plus a signed 32-bit byte offset
      (update_program_counter). */
  function Advanced(s: State, cur: State, offset: bv32): (t: State)
    ensures t.pc == Target(cur.pc, offset)
    ensures t.regs == s.regs && t.flagN == s.flagN && t.flagZ == s.flagZ
  {
    State(s.regs, s.flagN, s.flagZ, Target(cur.pc, offset))
  }
}
