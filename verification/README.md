# A verified model of the TP_ACSO systems exercises

This project is a Dafny model of the cores of four C exercises of the
TP_ACSO repository, with proofs of what they do:

- **TP1-ARM**: `sim.c` is a simulator for a subset of the A64 instruction
  set. Each cycle, `process_instruction` fetches the word at the PC and
  slices four opcode candidates from it (bits [31:21], [31:22], [31:24] and
  [31:26]). It runs the handler of the first `INSTRUCTION_SET` entry whose
  opcode equals any of them. If none matches, it clears `RUN_BIT`. Each
  `decode_*` handler reads `CURRENT_STATE` and writes `NEXT_STATE`
  (registers, N and Z flags, PC), memory or `RUN_BIT`.
  - `ArmMachine`: the architectural state, the memory and the word
    primitives.
  - `ArmFields`: the field extractors.
  - `ArmExec`: the table and every handler, as functions of the machine.
  - `ArmSim`: the simulator as a class `Sim`, whose fields are the two
    snapshots, the run latch and memory. Each handler method is proved to do
    exactly what `ArmExec` says.
  - `ArmMemory` and `ArmProps`: what the handlers guarantee.
- **TP4-Shell**: the line-checking helpers of `shell.c`.
  - `ShellScan`: the open-quote check and the pipe-syntax check.
  - `ShellSplit`: `dividir_por_pipes`, which cuts the line buffer in place
    at unquoted `|`.
  - `ShellArgs`: `parsear_args`, which splits a stage into argument strings,
    handling quotes and escapes.
- **TP2-x86_64**: `ej1.c` is a doubly linked list of (type, hash) nodes and
  the concatenation of the hashes of one type (`StringProcList`).
- **TP3-FileSystem**: a reader for Version 6 Unix disk images.
  - `V6Layout`: the on-disk layout.
  - `V6Inode`: `inode.c` (fetching an inode, block mapping, file size).
  - `V6File`: `file.c` (`file_getblock`).
  - `V6Directory`: `directory.c` (`directory_findname`).
  - `V6Pathname`: `pathname.c` (`pathname_lookup`).
  - The disk is an oracle from sector numbers to 512-byte sectors. A sector
    it does not hold is a failed read.

Code that works by changing things step by step is imperative Dafny:
- the simulator's handlers;
- the scanning loops of the shell helpers;
- the list's relinking and concatenation loop;
- the block and entry loops of `directory_findname`;
- the token loop of `pathname_lookup`.

Each method is proved against a function that states what it computes. The
pure parts are functions, with lemmas relating them to independent
definitions: block mapping, byte counts, field decoding and the shell's
quoting rules.

Where the code and its own comments or driver disagree, the model follows
the code:
- `directory_findname` returns -1 for a missing name. Its doc comment
  (TP3-FileSystem/directory.c:20-21) promises 1.
- `dividir_por_pipes` stores an empty string for a blank stage between two
  pipes. The stage is cut at the pipe, whose `'\0'` makes the stored string
  empty. Only a blank last stage is dropped.
- The concatenation puts the prefix hash first. The debugging driver's
  example therefore yields `"ZZZAAACCC"`.
- Several bit literals of `sim.c` are modelled as written:
  - the sign test at line 309 looks at bit 24;
  - the masks at lines 310 and 368 set bits 6 to 31 and bits 11 to 31;
  - the STUR mask at line 449 is 31 ones.

  Lemmas state exactly where these differ from true sign extension and
  from a lossless store.

## Model

| member | source | states |
|---|---|---|
| ArmFields.Rd | TP1-ARM/src/sim.c:77 | rd/rt is a register index below 32 |
| ArmFields.Rn | TP1-ARM/src/sim.c:78 | rn is a register index below 32 |
| ArmFields.Rm | TP1-ARM/src/sim.c:79 | rm is a register index below 32 |
| ArmFields.RdDecomposes | TP1-ARM/src/sim.c:77 | rd is exactly bits [4:0]: put back into the word with those bits cleared, it gives the word again |
| ArmFields.RnDecomposes | TP1-ARM/src/sim.c:78 | rn is exactly bits [9:5] |
| ArmFields.RmDecomposes | TP1-ARM/src/sim.c:79 | rm is exactly bits [20:16] |
| ArmFields.Imm19Decomposes | TP1-ARM/src/sim.c:103 | the CB-format imm19 is exactly bits [23:5] |
| ArmFields.Imm9 | TP1-ARM/src/sim.c:88-96 | the D-format displacement keeps bits [20:12] as its low 9 bits and is a correct two's-complement sign extension from bit 8 |
| ArmFields.Imm19 | TP1-ARM/src/sim.c:98-104 | imm19 is below 2^19: it is not sign-extended by the extractor |
| ArmFields.SignExtend26 | TP1-ARM/src/sim.c:306-311 | reference definition of the 26-bit sign extension decode_branch intends: low 26 bits kept, bits 25 to 31 equal |
| ArmFields.SignExtend19 | TP1-ARM/src/sim.c:366-369 | reference definition of the 19-bit sign extension decode_branch_conditional intends |
| ArmFields.BranchImm26ExtensionIff | TP1-ARM/src/sim.c:306-311 | decode_branch's extension (test bit 24, set bits 6 to 31) equals true sign extension exactly when bits 24 and 25 are clear or bits 6 to 25 are all set |
| ArmFields.CondImm19ExtensionIff | TP1-ARM/src/sim.c:366-369 | decode_branch_conditional's extension (set bits 11 to 31) equals true sign extension exactly when bit 18 is clear or bits 11 to 18 are all set |
| ArmFields.BranchImm26Counterexample | TP1-ARM/src/sim.c:309-310 | a backwards branch of 256 words is taken as -64 words |
| ArmFields.BranchImm26PositiveCounterexample | TP1-ARM/src/sim.c:309-310 | a forward offset of 2^24 words becomes negative |
| ArmFields.CondImm19Counterexample | TP1-ARM/src/sim.c:367-368 | the most negative conditional offset, -2^18 words, becomes -2048 words |
| ArmFields.ShiftedImm12 | TP1-ARM/src/sim.c:174-187 | shift field [23:22] = 0 gives imm12, = 1 gives imm12 << 12, and 2 or 3 is rejected (no operand) |
| ArmMachine.ReadWord | TP1-ARM/src/sim.c:688 | the fetched word's byte k is the memory byte at address + k (little-endian) |
| ArmMachine.WriteWord | TP1-ARM/src/sim.c:449-452 | a word write puts the word's bytes at address .. address + 3, least significant first, and leaves every other byte |
| ArmMachine.WordRoundTrip | TP1-ARM/src/sim.c:449 | a word reads back as it was written |
| ArmMachine.WriteReg | TP1-ARM/src/sim.c:135 | NEXT_STATE.REGS[r] = v writes slot r (31 included) and leaves the other slots, the flags and the PC |
| ArmMachine.SignExtension | TP1-ARM/src/sim.c:112-115 | widening an int32_t offset to 64 bits keeps its low 32 bits and copies bit 31 into bits 32 to 63 |
| ArmMachine.Flagged | TP1-ARM/src/sim.c:106-110 | update_flags: N is set exactly when bit 63 of the result is, Z exactly when the result is 0; registers and PC untouched |
| ArmMachine.Advanced | TP1-ARM/src/sim.c:112-115 | update_program_counter: NEXT_STATE.PC is CURRENT_STATE.PC plus the signed offset; registers and flags untouched |
| ArmExec.MatchFrom | TP1-ARM/src/sim.c:697-722 | the result is the lowest table index from i on whose opcode equals one of the four candidates, or none exists |
| ArmExec.Dispatch | TP1-ARM/src/sim.c:691-725 | the handler process_instruction runs for a word: that of the first INSTRUCTION_SET entry whose opcode equals one of the four candidates, or none (proved in ArmProps.DispatchFirstMatch) |
| ArmExec.Alu | TP1-ARM/src/sim.c:129-657 | the six operations the handlers apply to two register values: sum and difference modulo 2^64, the three bitwise operations, and the low 64 bits of the product |
| ArmExec.NextFlagSetting | TP1-ARM/src/sim.c:129-138 | the common part of ADDS and ANDS: the result sets N and Z, is written to rd (slot 31 included) and the PC advances by 4 |
| ArmExec.NextSubs | TP1-ARM/src/sim.c:153-165 | the common part of SUBS: the flags from the difference, rd written unless it is 31, PC + 4 |
| ArmExec.NextAddsExtended | TP1-ARM/src/sim.c:117-139 | decode_adds_extended on NEXT_STATE: rd := rn + rm with flags, PC + 4 |
| ArmExec.NextAddsImmediate | TP1-ARM/src/sim.c:168-200 | decode_adds_immediate: rd := rn + the shifted imm12 with flags, PC + 4; a shift field of 2 or 3 changes nothing |
| ArmExec.NextSubsExtended | TP1-ARM/src/sim.c:141-166 | decode_subs_extended: flags from rn - rm, rd written unless it is 31, PC + 4 |
| ArmExec.NextSubsImmediate | TP1-ARM/src/sim.c:202-237 | decode_subs_immediate: as SUBS with the shifted imm12; a shift field of 2 or 3 changes nothing |
| ArmExec.NextAnds | TP1-ARM/src/sim.c:247-266 | decode_ands: rd := rn & rm with flags, PC + 4 |
| ArmExec.NextRegister | TP1-ARM/src/sim.c:268-302 | decode_eor and decode_orr, and likewise decode_add_extended and decode_mul: rd := rn op rm with the flags left alone, PC + 4 |
| ArmExec.NextAddImmediate | TP1-ARM/src/sim.c:618-647 | decode_add_immediate: rd := rn + the shifted imm12 without flags, PC + 4; a shift field of 2 or 3 changes nothing |
| ArmExec.NextBranch | TP1-ARM/src/sim.c:304-318 | decode_branch: PC + 4 times the as-written extension of imm26 |
| ArmExec.NextBranchToRegister | TP1-ARM/src/sim.c:320-329 | decode_branch_to_register: PC := REGS[rn] |
| ArmExec.BranchConditional | TP1-ARM/src/sim.c:363-380 | decode_branch_conditional: PC + 4 times the as-written extension of imm19 when taken, PC + 4 otherwise |
| ArmExec.NextBcond | TP1-ARM/src/sim.c:331-361 | decode_bcond: EQ, NE, GT, LT, GE and LE on CURRENT_STATE's flags decide the branch; any other code changes nothing |
| ArmExec.NextLs | TP1-ARM/src/sim.c:382-392 | decode_ls: imms = 63 selects LSR, anything else LSL |
| ArmExec.NextLsl | TP1-ARM/src/sim.c:394-413 | decode_lsl: rd := rn << ((64 - immr) % 64), PC + 4 |
| ArmExec.NextLsr | TP1-ARM/src/sim.c:415-434 | decode_lsr: rd := the int64_t rn shifted right by immr, PC + 4 |
| ArmExec.MemStur | TP1-ARM/src/sim.c:436-456 | decode_stur: the two word writes at rn + imm9 and rn + imm9 + 4 |
| ArmExec.MemSturb | TP1-ARM/src/sim.c:458-485 | decode_sturb: the aligned word with byte lane address & 3 replaced |
| ArmExec.MemSturh | TP1-ARM/src/sim.c:487-514 | decode_sturh: the aligned word with halfword lane (address & 2) >> 1 replaced |
| ArmExec.NextLdur | TP1-ARM/src/sim.c:516-537 | decode_ldur: rt := the two words at the address recombined, PC + 4 |
| ArmExec.NextLdurb | TP1-ARM/src/sim.c:539-559 | decode_ldurb: rt := the word at the address & 0xFF, PC + 4 |
| ArmExec.NextLdurh | TP1-ARM/src/sim.c:561-581 | decode_ldurh: rt := the word at the address & 0xFFFF, PC + 4 |
| ArmExec.NextMovz | TP1-ARM/src/sim.c:583-595 | decode_movz: rd := imm16 unshifted, PC + 4 |
| ArmExec.NextCbz | TP1-ARM/src/sim.c:664-671 | decode_cbz: branch when REGS[rt] is 0 |
| ArmExec.NextCbnz | TP1-ARM/src/sim.c:673-680 | decode_cbnz: branch when REGS[rt] is not 0 |
| ArmExec.NextOf | TP1-ARM/src/sim.c:117-680 | NEXT_STATE after the handler of each INSTRUCTION_SET entry; HLT and the stores only advance the PC |
| ArmExec.ByteLane | TP1-ARM/src/sim.c:474 | the byte position address & 3 is a lane 0..3 |
| ArmExec.HalfLane | TP1-ARM/src/sim.c:503 | the halfword position (address & 2) >> 1 is a lane 0..1 |
| ArmExec.MemoryOf | TP1-ARM/src/sim.c:436-514 | only STUR, STURB and STURH change memory |
| ArmExec.Exec | TP1-ARM/src/sim.c:117-680 | a handler keeps CURRENT_STATE, writes memory only if it is a store, and leaves RUN_BIT set exactly when it was set and the handler is not HLT |
| ArmExec.Step | TP1-ARM/src/sim.c:682-726 | one cycle keeps CURRENT_STATE and can only clear RUN_BIT |
| ArmSim.Sim.constructor | TP1-ARM/src/sim.c:682-688 | a simulator ready to fetch at pc, with equal snapshots, running |
| ArmSim.Sim.UpdateFlags | TP1-ARM/src/sim.c:106-110 | NEXT_STATE becomes Flagged(old NEXT_STATE, result); nothing else changes |
| ArmSim.Sim.UpdateProgramCounter | TP1-ARM/src/sim.c:112-115 | NEXT_STATE.PC becomes CURRENT_STATE.PC + offset; nothing else changes |
| ArmSim.Sim.DecodeAddsExtended | TP1-ARM/src/sim.c:117-139 | NEXT_STATE becomes NextAddsExtended: rd := rn + rm, flags from the sum, PC + 4; CURRENT_STATE, memory and RUN_BIT unchanged |
| ArmSim.Sim.DecodeSubsExtended | TP1-ARM/src/sim.c:141-166 | NEXT_STATE becomes NextSubsExtended: flags from rn - rm, rd written unless it is 31, PC + 4 |
| ArmSim.Sim.DecodeAddsImmediate | TP1-ARM/src/sim.c:168-200 | NEXT_STATE becomes NextAddsImmediate: with a valid shift, rd := rn + shifted imm12 with flags and PC + 4; with an invalid shift, unchanged |
| ArmSim.Sim.DecodeSubsImmediate | TP1-ARM/src/sim.c:202-237 | NEXT_STATE becomes NextSubsImmediate: as SUBS with the shifted immediate, or unchanged for an invalid shift |
| ArmSim.Sim.DecodeHalt | TP1-ARM/src/sim.c:239-245 | RUN_BIT is cleared and NEXT_STATE.PC advances by 4; registers, flags and memory unchanged |
| ArmSim.Sim.DecodeAnds | TP1-ARM/src/sim.c:247-266 | NEXT_STATE becomes NextAnds: rd := rn & rm with flags, PC + 4 |
| ArmSim.Sim.DecodeEor | TP1-ARM/src/sim.c:268-284 | NEXT_STATE: rd := rn ^ rm, flags untouched, PC + 4 |
| ArmSim.Sim.DecodeOrr | TP1-ARM/src/sim.c:286-302 | NEXT_STATE: rd := rn \| rm, flags untouched, PC + 4 |
| ArmSim.Sim.DecodeBranch | TP1-ARM/src/sim.c:304-318 | NEXT_STATE.PC becomes PC + 4 times the as-written extension of imm26; nothing else changes |
| ArmSim.Sim.DecodeBranchToRegister | TP1-ARM/src/sim.c:320-329 | NEXT_STATE.PC becomes REGS[rn]; nothing else changes |
| ArmSim.Sim.DecodeBcond | TP1-ARM/src/sim.c:331-361 | NEXT_STATE becomes NextBcond: EQ, NE, GT, LT, GE and LE decide the branch from CURRENT_STATE's flags; any other code leaves NEXT_STATE as it was |
| ArmSim.Sim.DecodeBranchConditional | TP1-ARM/src/sim.c:363-380 | taken: PC + 4 times the as-written extension of imm19; not taken: PC + 4 |
| ArmSim.Sim.DecodeLs | TP1-ARM/src/sim.c:382-392 | imms = 63 runs LSR, anything else LSL |
| ArmSim.Sim.DecodeLsl | TP1-ARM/src/sim.c:394-413 | rd := rn << ((64 - immr) % 64), PC + 4 |
| ArmSim.Sim.DecodeLsr | TP1-ARM/src/sim.c:415-434 | rd := rn shifted right arithmetically by immr, PC + 4 |
| ArmSim.Sim.DecodeStur | TP1-ARM/src/sim.c:436-456 | memory becomes MemStur: low word (mask 0x7FFFFFFF) at rn + imm9, high word at rn + imm9 + 4; PC + 4 |
| ArmSim.Sim.DecodeSturb | TP1-ARM/src/sim.c:458-485 | memory becomes MemSturb: the aligned word is read, byte lane address & 3 replaced by the low byte of rt, and written back; PC + 4 |
| ArmSim.Sim.DecodeSturh | TP1-ARM/src/sim.c:487-514 | memory becomes MemSturh: halfword lane (address & 2) >> 1 of the aligned word replaced by the low halfword of rt; PC + 4 |
| ArmSim.Sim.DecodeLdur | TP1-ARM/src/sim.c:516-537 | rt := (word at address + 4) << 32 \| (word at address), PC + 4; memory unchanged |
| ArmSim.Sim.DecodeLdurb | TP1-ARM/src/sim.c:539-559 | rt := the word at the unaligned address & 0xFF, PC + 4 |
| ArmSim.Sim.DecodeLdurh | TP1-ARM/src/sim.c:561-581 | rt := the word at the unaligned address & 0xFFFF, PC + 4 |
| ArmSim.Sim.DecodeMovz | TP1-ARM/src/sim.c:583-595 | rd := imm16 (bits [20:5], unshifted), PC + 4 |
| ArmSim.Sim.DecodeAddExtended | TP1-ARM/src/sim.c:597-616 | rd := rn + rm, flags untouched, PC + 4 |
| ArmSim.Sim.DecodeAddImmediate | TP1-ARM/src/sim.c:618-647 | rd := rn + shifted imm12, PC := CURRENT_STATE.PC + 4; unchanged for an invalid shift |
| ArmSim.Sim.DecodeMul | TP1-ARM/src/sim.c:649-662 | rd := the low 64 bits of rn * rm, flags untouched, PC + 4 |
| ArmSim.Sim.DecodeCbz | TP1-ARM/src/sim.c:664-671 | branches when REGS[rt] == 0 |
| ArmSim.Sim.DecodeCbnz | TP1-ARM/src/sim.c:673-680 | branches when REGS[rt] != 0 |
| ArmSim.Sim.RunHandler | TP1-ARM/src/sim.c:700-701 | the call through a table entry's function pointer does exactly Exec of that handler to the whole machine |
| ArmSim.Sim.ScanInstructionSet | TP1-ARM/src/sim.c:691-722 | the loop returns the index MatchFrom(w, 0) selects, or none |
| ArmSim.Sim.ProcessInstruction | TP1-ARM/src/sim.c:682-726 | one call turns the machine into Step(old machine): fetch, dispatch to the first match, or clear RUN_BIT |
| ArmMemory.SameBytesSameWord | TP1-ARM/src/sim.c:526-527 | two word reads agree when their four bytes agree |
| ArmMemory.WriteAboveKeepsWord | TP1-ARM/src/sim.c:449-452 | the second STUR write (at address + 4) does not disturb the first word |
| ArmMemory.DoubleWordsRoundTrip | TP1-ARM/src/sim.c:436-456 | LDUR recombines exactly the two halves STUR wrote |
| ArmMemory.CombineStoredHalves | TP1-ARM/src/sim.c:449-452 | recombining the two stored halves gives the value with bit 31 cleared |
| ArmMemory.SturLdurRoundTrip | TP1-ARM/src/sim.c:436-537 | LDUR after STUR at the same address returns v & 0xFFFFFFFF7FFFFFFF: the value itself whenever bit 31 is clear |
| ArmMemory.SturDropsBit31 | TP1-ARM/src/sim.c:449 | storing 0x80000000 and loading it back gives 0 |
| ArmMemory.InsertByteLanes | TP1-ARM/src/sim.c:477-478 | the clear-and-or replaces byte lane k of the word and no other |
| ArmMemory.WrittenWordBytes | TP1-ARM/src/sim.c:481 | after a word write, memory holds the word's four bytes |
| ArmMemory.ReadWordBytes | TP1-ARM/src/sim.c:471 | the word read holds memory's four bytes |
| ArmMemory.LanesChain | TP1-ARM/src/sim.c:471-481 | writing back a word that differs in lane k only changes byte k of memory |
| ArmMemory.SturbLanes | TP1-ARM/src/sim.c:458-485 | after STURB, the lane of the address holds the low byte of rt and the other three bytes of the aligned word are kept |
| ArmMemory.AlignedPlusLane | TP1-ARM/src/sim.c:471-474 | an address is its aligned word plus its byte lane |
| ArmMemory.ReplacedLane | TP1-ARM/src/sim.c:477-481 | the byte at lane k holds the replacing byte |
| ArmMemory.ReplacedOthersKept | TP1-ARM/src/sim.c:477-481 | the other bytes of the aligned word are kept |
| ArmMemory.WriteOutsideKept | TP1-ARM/src/sim.c:481 | a word write leaves every byte outside the word |
| ArmMemory.SturbWritesByte | TP1-ARM/src/sim.c:458-485 | STURB stores the low byte of rt at the address |
| ArmMemory.SturbKeepsOtherBytes | TP1-ARM/src/sim.c:458-485 | STURB leaves every other byte of memory |
| ArmMemory.LoadByteReadsByte | TP1-ARM/src/sim.c:549-552 | LDURB reads the byte at the address (the low byte of the unaligned word) |
| ArmMemory.SturbLdurbRoundTrip | TP1-ARM/src/sim.c:458-559 | LDURB after STURB at the same address returns v & 0xFF |
| ArmMemory.InsertHalfLanes | TP1-ARM/src/sim.c:506-507 | the clear-and-or replaces halfword lane k of the word and no other |
| ArmMemory.HalvesChain | TP1-ARM/src/sim.c:500-510 | writing back a word that differs in halfword lane k only changes those two bytes of memory |
| ArmMemory.SturhLanes | TP1-ARM/src/sim.c:487-514 | after STURH, bytes 2k and 2k + 1 of the aligned word (k = bit 1 of the address) hold the low halfword, the other two are kept |
| ArmMemory.HalfStartLane | TP1-ARM/src/sim.c:500-503 | the halfword STURH writes starts at the aligned word, or 2 above it |
| ArmMemory.LoadHalfReadsBytes | TP1-ARM/src/sim.c:571-574 | LDURH reads the two bytes at the address, low byte first |
| ArmMemory.LoadHalfReadsHalf | TP1-ARM/src/sim.c:571-574 | LDURH at a reads the halfword held there |
| ArmMemory.EvenHalfStart | TP1-ARM/src/sim.c:503 | an even address is where STURH writes |
| ArmMemory.LowHalfWidened | TP1-ARM/src/sim.c:494 | the uint16_t low halfword, widened, is v & 0xFFFF |
| ArmMemory.SturhWritesHalf | TP1-ARM/src/sim.c:487-514 | STURH stores the low halfword of rt at the address with bit 0 cleared |
| ArmMemory.EvenHalfAt | TP1-ARM/src/sim.c:506-510 | memory holds the halfword at the start of the replaced lane |
| ArmMemory.SturhLdurhRoundTrip | TP1-ARM/src/sim.c:487-581 | LDURH after STURH at the same even address returns v & 0xFFFF |
| ArmMemory.SturhOddAddress | TP1-ARM/src/sim.c:503 | at an odd address STURH ignores bit 0: storing 0x1234 at 1 makes LDURH at 1 read 0x12 |
| ArmProps.UnknownInstructionStops | TP1-ARM/src/sim.c:723-725 | a word no entry matches only clears RUN_BIT |
| ArmProps.EveryHandlerListed | TP1-ARM/src/sim.c:46-71 | INSTRUCTION_SET has 24 entries and lists each of the 24 handlers, at the index TableIndex gives; so each handler has exactly one entry |
| ArmProps.DispatchFirstMatch | TP1-ARM/src/sim.c:697-722 | a handler runs exactly when some entry matches, and it is the lowest-index matching entry's |
| ArmProps.FirstMatchDecides | TP1-ARM/src/sim.c:697-722 | a matching entry with no match before it decides the handler |
| ArmProps.MatchFromReaches | TP1-ARM/src/sim.c:697-722 | the scan from i stops at k when k matches and nothing between does |
| ArmProps.DispatchHalt | TP1-ARM/src/sim.c:51 | HLT #0 reaches decode_halt |
| ArmProps.DispatchMovz | TP1-ARM/src/sim.c:65 | MOVZ X1, #5 reaches decode_movz |
| ArmProps.DispatchAddImmediate | TP1-ARM/src/sim.c:67 | ADD X0, X1, #1 reaches decode_add_immediate |
| ArmProps.BranchShadowedByAddsImmediate | TP1-ARM/src/sim.c:46-71 | entries carry no width: a B word whose bits [31:21] equal 0xB1 runs ADDS (immediate), an earlier entry |
| ArmProps.FlagsFrame | TP1-ARM/src/sim.c:106-110 | every handler other than ADDS, SUBS and ANDS leaves both flags of NEXT_STATE |
| ArmProps.NextKeepsFlags | TP1-ARM/src/sim.c:268-680 | the same, on the next-snapshot function |
| ArmProps.BranchesKeepFlags | TP1-ARM/src/sim.c:304-380 | B, BR, B.cond, CBZ and CBNZ leave the flags |
| ArmProps.BranchesKeepRegisterFile | TP1-ARM/src/sim.c:304-380 | B, BR, B.cond, CBZ and CBNZ write no register |
| ArmProps.MemoryAccessKeepsFlags | TP1-ARM/src/sim.c:436-581 | loads, stores and HLT leave the flags |
| ArmProps.StoresAdvance | TP1-ARM/src/sim.c:436-514 | HLT and the stores only advance NEXT_STATE.PC by 4 |
| ArmProps.LoadsKeepFlags | TP1-ARM/src/sim.c:516-581 | the loads leave the flags and advance the PC by 4 |
| ArmProps.RegisterOpsKeepFlags | TP1-ARM/src/sim.c:268-302 | EOR, ORR, LSL/LSR, MOVZ, ADD and MUL leave the flags |
| ArmProps.BranchesKeepRegisters | TP1-ARM/src/sim.c:304-380 | a branch cycle writes no register |
| ArmProps.SequentialPc | TP1-ARM/src/sim.c:112-115 | every handler that is not a branch, HLT included, sets NEXT_STATE.PC to CURRENT_STATE.PC + 4 (for the immediate forms, when the shift is valid) |
| ArmProps.ImmediatesAdvance | TP1-ARM/src/sim.c:168-237 | ADDS, SUBS and ADD (immediate) with a valid shift advance by 4 |
| ArmProps.MemoryAccessAdvances | TP1-ARM/src/sim.c:436-581 | loads, stores and HLT advance by 4 |
| ArmProps.RegisterOpsAdvance | TP1-ARM/src/sim.c:117-302 | the register handlers advance by 4 |
| ArmProps.InvalidShiftChangesNothing | TP1-ARM/src/sim.c:183-187 | a shift field of 2 or 3 makes ADDS, SUBS and ADD (immediate) change nothing at all |
| ArmProps.BranchTarget | TP1-ARM/src/sim.c:304-318 | B sets PC + 4 times its extended imm26 |
| ArmProps.BranchToRegisterTarget | TP1-ARM/src/sim.c:320-329 | BR sets PC to REGS[rn] |
| ArmProps.BcondTarget | TP1-ARM/src/sim.c:331-380 | B.cond goes to PC + 4 * ext(imm19) when its condition holds on CURRENT_STATE's flags and to PC + 4 when not; an unknown code leaves NEXT_STATE |
| ArmProps.CbzTarget | TP1-ARM/src/sim.c:664-671 | CBZ is taken exactly when REGS[rt] is 0 |
| ArmProps.CbnzTarget | TP1-ARM/src/sim.c:673-680 | CBNZ is taken exactly when REGS[rt] is not 0 |
| ArmProps.SubtractionZero | TP1-ARM/src/sim.c:153 | the 64-bit difference is zero exactly when the operands are equal |
| ArmProps.SubsZero | TP1-ARM/src/sim.c:153-156 | SUBS sets Z exactly when its operands are equal |
| ArmProps.SubsNegative | TP1-ARM/src/sim.c:153-156 | SUBS sets N to bit 63 of the difference |
| ArmProps.SubsDestination | TP1-ARM/src/sim.c:158-162 | SUBS writes the difference to rd unless rd is 31, and then writes no register |
| ArmProps.SubsExtendedCompares | TP1-ARM/src/sim.c:141-166 | SUBS (register) sets Z exactly when REGS[rn] equals REGS[rm] |
| ArmProps.SubsExtendedToSlot31 | TP1-ARM/src/sim.c:159 | SUBS with rd = 31 is CMP: no register changes |
| ArmProps.AddsWritesSlot31 | TP1-ARM/src/sim.c:135 | ADDS has no such guard: with rd = 31 it writes the sum into slot 31 |
| ArmProps.AddsFlags | TP1-ARM/src/sim.c:106-110 | the ADDS update: N is bit 63 of the sum, Z holds exactly when the sum is 0, and rd receives the sum |
| ArmProps.AddsExtendedFlags | TP1-ARM/src/sim.c:129-132 | ADDS (register) sets N to bit 63 of REGS[rn] + REGS[rm] |
| ArmProps.AddsExtendedZero | TP1-ARM/src/sim.c:129-132 | ADDS (register) sets Z exactly when REGS[rn] + REGS[rm] is 0 |
| ArmProps.AddsImmediateFlags | TP1-ARM/src/sim.c:189-192 | ADDS (immediate) with a valid shift sets N to bit 63 and Z exactly when rn + the shifted imm12 is 0 |
| ArmProps.ConjunctionZero | TP1-ARM/src/sim.c:256 | the conjunction is zero exactly when the operands share no bit |
| ArmProps.ConjunctionFlagZero | TP1-ARM/src/sim.c:256-259 | ANDS sets Z exactly when the operands share no set bit |
| ArmProps.AndsDestination | TP1-ARM/src/sim.c:247-266 | ANDS writes rn & rm to rd, even when rd is 31 |
| ArmProps.SubsScenario | TP1-ARM/src/sim.c:141-166 | 10 - 3 gives 7 with both flags clear; 3 - 10 sets N |
| ArmProps.LessThanIgnoresOverflow | TP1-ARM/src/sim.c:349-350 | LT reads only N: after CMP of the most negative value with 1 it is not taken |
| ArmProps.CompareEquality | TP1-ARM/src/sim.c:340-345 | after CMP x, y, EQ holds exactly when x = y and NE exactly when x != y |
| ArmProps.LslEncodingRoundTrip | TP1-ARM/src/sim.c:403 | shifting by (64 - immr) % 64 undoes the UBFM encoding of LSL #s |
| ArmProps.LsrIsArithmetic | TP1-ARM/src/sim.c:427 | the shift of the signed int64_t, for every value and every amount below 64: a logical shift when bit 63 is clear, and the logical shift with the vacated top bits set to ones when it is set |
| ArmProps.OnesFill0 | TP1-ARM/src/sim.c:427 | the ones fill for amounts 0 to 7 |
| ArmProps.OnesFill8 | TP1-ARM/src/sim.c:427 | the ones fill for amounts 8 to 15 |
| ArmProps.OnesFill16 | TP1-ARM/src/sim.c:427 | the ones fill for amounts 16 to 31 |
| ArmProps.OnesFill32 | TP1-ARM/src/sim.c:427 | the ones fill for amounts 32 to 63 |
| ShellScan.QuoteAfter | TP4-Shell/src/ej2/shell.c:31-40 | the quote state after scanning from i: a quote character opens, the same one closes, a backslash before it escapes it (proved in the lemmas below) |
| ShellScan.HasOpenQuote | TP4-Shell/src/ej2/shell.c:31-40 | tiene_comilla_abierta returns true exactly when the quote state after the whole line is open |
| ShellScan.QuoteAfterRange | TP4-Shell/src/ej2/shell.c:32-38 | the quote state is always closed, ' or " |
| ShellScan.NoQuotesNeverOpen | TP4-Shell/src/ej2/shell.c:37 | a line without quote characters never leaves a quote open |
| ShellScan.StaysOpen | TP4-Shell/src/ej2/shell.c:34-36 | inside a quote, text without that quote character leaves it open |
| ShellScan.ClosesAt | TP4-Shell/src/ej2/shell.c:34-36 | the first quote character not preceded by a backslash closes the quote |
| ShellScan.ClosedPrefix | TP4-Shell/src/ej2/shell.c:31-40 | a part of the line that ends with every quote closed does not affect the rest |
| ShellScan.StaysOpenAtEnd | TP4-Shell/src/ej2/shell.c:35-36 | a last character that neither escapes nor closes leaves the quote open |
| ShellScan.ShiftedScan | TP4-Shell/src/ej2/shell.c:33 | scanning the tail of a + b from \|a\| is scanning b |
| ShellScan.QuotedWord | TP4-Shell/src/ej2/shell.c:31-40 | a quoted word closes its quote; without its closing quote the line is reported open |
| ShellScan.EscapedQuoteStaysOpen | TP4-Shell/src/ej2/shell.c:35 | inside a quote, a backslash before the quote character escapes it |
| ShellScan.PipeInvalidFrom | TP4-Shell/src/ej2/shell.c:46-66 | the verdict of the scan from i given the quote state and the last item seen (proved against the rule by ShellScan.PipeVerdict) |
| ShellScan.PipeSyntaxInvalid | TP4-Shell/src/ej2/shell.c:46-66 | sintaxis_pipe_invalida returns true exactly when, among the line's unquoted items, a pipe comes first, follows another pipe, or comes last |
| ShellScan.ItemsFrom | TP4-Shell/src/ej2/shell.c:50-63 | the unquoted items: every character outside quotes that is neither whitespace nor a quote, a pipe or a word; none of them is "nothing" |
| ShellScan.MisplacedCons | TP4-Shell/src/ej2/shell.c:58-63 | one more item: it is a pipe not after a word, or the rest is misplaced after it |
| ShellScan.PipeVerdict | TP4-Shell/src/ej2/shell.c:50-65 | from any point, the scan's verdict is whether the items still to come hold a misplaced pipe |
| ShellScan.PipeRule | TP4-Shell/src/ej2/shell.c:46-66 | the scan rejects a line exactly when its item sequence has a pipe first, after a pipe, or last |
| ShellScan.ShiftedItems | TP4-Shell/src/ej2/shell.c:50 | the items of the tail of a + b from \|a\| are the items of b |
| ShellScan.ItemsAppend | TP4-Shell/src/ej2/shell.c:50-63 | a part of the line with every quote closed contributes its own items, then the rest contributes its own |
| ShellScan.QuotedSilent | TP4-Shell/src/ej2/shell.c:51-55 | inside a quote nothing up to the closing quote is an item |
| ShellScan.BlankItems | TP4-Shell/src/ej2/shell.c:57 | whitespace is no item |
| ShellScan.QuotedTextIsNoWord | TP4-Shell/src/ej2/shell.c:51-56 | a quoted word in front of the rest of the line adds no item, so it cannot stand before a pipe |
| ShellScan.LeadingPipe | TP4-Shell/src/ej2/shell.c:58-59 | after any part of the line whose items are none or end with a pipe, a further pipe makes the whole line invalid |
| ShellScan.TrailingPipe | TP4-Shell/src/ej2/shell.c:65 | a line whose items end with a pipe followed only by whitespace is invalid |
| ShellScan.JoinAccepted | TP4-Shell/src/ej2/shell.c:46-66 | two accepted lines that each have an item, joined by a pipe, make an accepted line |
| ShellScan.PipeExamples | TP4-Shell/src/ej2/shell.c:46-66 | "ls \| wc" and "echo 'x\|y'" are accepted; "ls \|", "\| ls", "ls \|\| wc" and "'a' \| b" are rejected |
| ShellSplit.PipesFromValid | TP4-Shell/src/ej2/shell.c:78-111 | every cut position holds an unquoted '\|' and the positions increase |
| ShellSplit.TrimLeftFront | TP4-Shell/src/ej2/shell.c:95-97 | after skipping leading whitespace, the stage starts with a non-blank |
| ShellSplit.TrimRightBack | TP4-Shell/src/ej2/shell.c:98-100 | dropping trailing whitespace keeps a prefix that ends with a non-blank |
| ShellSplit.TrimmedEnds | TP4-Shell/src/ej2/shell.c:95-100 | a trimmed stage neither starts nor ends with whitespace |
| ShellSplit.TrimIdempotent | TP4-Shell/src/ej2/shell.c:95-100 | trimming twice is trimming once |
| ShellSplit.Stages | TP4-Shell/src/ej2/shell.c:72-125 | the stages dividir_por_pipes stores: every segment before an unquoted pipe, trimmed, then the last segment trimmed when not empty (proved of the method in ShellSplit.SplitByPipes) |
| ShellSplit.StageCount | TP4-Shell/src/ej2/shell.c:101-124 | one stage per unquoted pipe, plus the last one when it is not blank; so at most pipes + 1 |
| ShellSplit.StageIsTrim | TP4-Shell/src/ej2/shell.c:92-106 | stage k is the k-th segment between unquoted pipes, trimmed |
| ShellSplit.StagesTrimmed | TP4-Shell/src/ej2/shell.c:92-123 | every stored stage is trimmed, and a stored last stage is not empty |
| ShellSplit.NoPipesFrom | TP4-Shell/src/ej2/shell.c:78-111 | text without quotes or pipes has no cut |
| ShellSplit.SingleStage | TP4-Shell/src/ej2/shell.c:113-124 | a line without quotes or pipes is one stage: itself, trimmed |
| ShellSplit.TrimBlank | TP4-Shell/src/ej2/shell.c:95-100 | whitespace-only text trims to nothing |
| ShellSplit.BlankMiddleStage | TP4-Shell/src/ej2/shell.c:101-104 | a blank stage between two pipes is stored, as an empty string |
| ShellSplit.BlankLastStage | TP4-Shell/src/ej2/shell.c:121-123 | a blank last stage is dropped |
| ShellSplit.QuotedPipeStage | TP4-Shell/src/ej2/shell.c:79-91 | a pipe inside quotes does not split |
| ShellSplit.StrLen | TP4-Shell/src/ej2/shell.c:117 | strlen reaches the first '\0' and no earlier |
| ShellSplit.TrimStage | TP4-Shell/src/ej2/shell.c:93-100 | the two trimming loops find the trimmed stage, write '\0' over the trailing whitespace and change nothing else |
| ShellSplit.CutStage | TP4-Shell/src/ej2/shell.c:92-106 | the pipe branch leaves the trimmed stage followed by '\0' in the buffer |
| ShellSplit.CutLast | TP4-Shell/src/ej2/shell.c:113-123 | the last stage is trimmed in place and stored exactly when something is left |
| ShellSplit.ScanStep | TP4-Shell/src/ej2/shell.c:79-109 | a scan step that does not cut moves forward and keeps the cuts still to come |
| ShellSplit.KeepStage | TP4-Shell/src/ej2/shell.c:92-106 | the pipe branch records the next cut and keeps the next stage |
| ShellSplit.KeepLast | TP4-Shell/src/ej2/shell.c:112-124 | after the last stage, the kept pointers are exactly the stages |
| ShellSplit.SplitByPipes | TP4-Shell/src/ej2/shell.c:72-125 | dividir_por_pipes: *n_commands is the number of stages and commands[k] points at stage k, the k-th unquoted-pipe segment trimmed, in the rewritten buffer |
| ShellSplit.PipeCut | TP4-Shell/src/ej2/shell.c:92-106 | the bookkeeping of the pipe branch |
| ShellSplit.LastCut | TP4-Shell/src/ej2/shell.c:112-124 | the bookkeeping of the last stage |
| ShellSplit.StoredStrings | TP4-Shell/src/ej2/shell.c:102 | every stored pointer denotes its stage as a C string |
| ShellArgs.WordEnd | TP4-Shell/src/ej2/shell.c:170-173 | an unquoted token ends within the stage |
| ShellArgs.QuotedEnd | TP4-Shell/src/ej2/shell.c:156-167 | a quoted token's text ends within the stage |
| ShellArgs.AfterQuoted | TP4-Shell/src/ej2/shell.c:198-213 | scanning resumes within the stage after a quoted token |
| ShellArgs.WordShape | TP4-Shell/src/ej2/shell.c:168-174 | an unquoted token is a nonempty run of non-whitespace ending at whitespace or the end |
| ShellArgs.QuotedEmpty | TP4-Shell/src/ej2/shell.c:154-167 | a quoted token is empty exactly when its closing quote (or the end) comes at once |
| ShellArgs.QuotedText | TP4-Shell/src/ej2/shell.c:154-200 | a quoted token without escapes is the text up to its closing quote |
| ShellArgs.SkipSpaces | TP4-Shell/src/ej2/shell.c:137 | leading whitespace is skipped |
| ShellArgs.BlankStage | TP4-Shell/src/ej2/shell.c:135-138 | a whitespace-only stage has no tokens |
| ShellArgs.PlainTokens | TP4-Shell/src/ej2/shell.c:168-174 | without quote characters every token is a non-empty run without whitespace |
| ShellArgs.TokensFrom | TP4-Shell/src/ej2/shell.c:135-213 | the tokens of a stage from i with no limit: whitespace skipped, a quoted token up to its closing quote with escapes removed, an unquoted token up to whitespace |
| ShellArgs.Parse | TP4-Shell/src/ej2/shell.c:130-218 | the outcome parsear_args promises: all tokens when fewer than 65, else the first 64 with the overflow flag (proved of the method in ShellArgs.ParseArgs) |
| ShellArgs.TokenCount | TP4-Shell/src/ej2/shell.c:135-214 | every token uses up at least one character of the stage |
| ShellArgs.ShortStageFits | TP4-Shell/src/ej2/shell.c:141-144 | a stage shorter than MAX_ARGS characters never overflows |
| ShellArgs.CountQuoted | TP4-Shell/src/ej2/shell.c:154-167 | the counting loop finds where the quoted text stops and its unescaped length |
| ShellArgs.CopyQuoted | TP4-Shell/src/ej2/shell.c:185-200 | the copying loop yields the quoted text with \q turned into q, and resumes past the closing quote |
| ShellArgs.CountWord | TP4-Shell/src/ej2/shell.c:168-174 | the counting loop stops at the next whitespace |
| ShellArgs.CopyWord | TP4-Shell/src/ej2/shell.c:201-205 | the copying loop copies the counted characters |
| ShellArgs.SkipBlank | TP4-Shell/src/ej2/shell.c:137 | the skipping loop stops at a non-blank or the end, losing no token |
| ShellArgs.ReadToken | TP4-Shell/src/ej2/shell.c:146-213 | one token is read and the scan resumes after it |
| ShellArgs.ParseArgs | TP4-Shell/src/ej2/shell.c:130-218 | parsear_args stores the tokens from argv[0]; with at most 64 tokens it returns their number, clears *overflow and sets argv[argc] = NULL; when a 65th starts it returns 64 with *overflow set and argv[64] untouched; later slots untouched |
| ShellArgs.StoredPointers | TP4-Shell/src/ej2/shell.c:208 | pointers to the tokens lead back to the tokens |
| ShellArgs.TooMany | TP4-Shell/src/ej2/shell.c:141-144 | reaching a token with 64 stored means there are more than 64 and the stored ones are the first 64 |
| ShellArgs.SpacedWords | TP4-Shell/src/ej2/shell.c:137 | "ls  -l" gives "ls" and "-l" |
| ShellArgs.QuotedSpace | TP4-Shell/src/ej2/shell.c:154-167 | a quoted token keeps its whitespace |
| ShellArgs.EscapedInQuote | TP4-Shell/src/ej2/shell.c:187-189 | inside a quote, \" gives " |
| ShellArgs.QuoteInsideWord | TP4-Shell/src/ej2/shell.c:201-205 | a quote inside an unquoted token is an ordinary character |
| ShellArgs.AdjacentAfterQuote | TP4-Shell/src/ej2/shell.c:198-213 | a closing quote ends its token even with no whitespace after it |
| StringProcList.Matching | TP2-x86_64/src/ej1/ej1.c:53-62 | the hashes of the nodes of one type joined in list order, as the loop accumulates them (related to Filter by MatchingIsJoinOfFilter) |
| StringProcList.Filter | TP2-x86_64/src/ej1/ej1.c:54-55 | the kept nodes are exactly the nodes of the type: each kept node has it and is in the list, and each node of the list that has it is kept |
| StringProcList.FilterAppend | TP2-x86_64/src/ej1/ej1.c:53-62 | filtering keeps list order: the nodes of one type in a list split in two are those of the first part followed by those of the second |
| StringProcList.StrConcat | TP2-x86_64/src/ej1/ej1.c:101-109 | str_concat returns a followed by b, of length strlen(a) + strlen(b) |
| StringProcList.MatchingSnoc | TP2-x86_64/src/ej1/ej1.c:54-62 | one more node appends its hash exactly when its type matches |
| StringProcList.MatchingAppend | TP2-x86_64/src/ej1/ej1.c:54-62 | the joined hashes of two lists one after the other are the two joins concatenated |
| StringProcList.MatchingIsJoinOfFilter | TP2-x86_64/src/ej1/ej1.c:53-62 | the loop's accumulation equals filtering by type and then joining front to back |
| StringProcList.MatchingNone | TP2-x86_64/src/ej1/ej1.c:55 | no node of the type gives the empty string |
| StringProcList.MatchingLength | TP2-x86_64/src/ej1/ej1.c:53-62 | the joined string is as long as the matching hashes together |
| StringProcList.Node.constructor | TP2-x86_64/src/ej1/ej1.c:21-25 | a node holds the type and hash, with next = previous = NULL |
| StringProcList.List.constructor | TP2-x86_64/src/ej1/ej1.c:3-11 | string_proc_list_create: first = last = NULL, no nodes |
| StringProcList.List.Append | TP2-x86_64/src/ej1/ej1.c:36-43 | the relinking keeps the link invariant, makes the node last and appends its (type, hash) to the list's contents |
| StringProcList.List.LinkInvariant | TP2-x86_64/src/ej1/ej1.c:36-43 | first and last are NULL together, first.previous and last.next are NULL, and every next link is mirrored by a previous link |
| StringProcList.NodeCreate | TP2-x86_64/src/ej1/ej1.c:13-26 | NULL exactly for a NULL hash; otherwise a fresh unlinked node with the type and hash |
| StringProcList.AddNode | TP2-x86_64/src/ej1/ej1.c:28-44 | a NULL list or hash changes nothing; otherwise the contents become the old ones plus (type, hash), held by a new last node, and the list stays valid |
| StringProcList.Concat | TP2-x86_64/src/ej1/ej1.c:46-72 | NULL for a NULL list; otherwise the prefix hash (when not NULL) followed by the hashes of the matching nodes in list order; the list is only read |
| StringProcList.DriverScenario | TP2-x86_64/src/ej1/ej1.c:28-72 | adding (1, AAA), (2, BBB), (1, CCC) and concatenating type 1 with prefix ZZZ gives "ZZZAAACCC" |
| StringProcList.MatchingExample | TP2-x86_64/src/ej1/ej1.c:54-62 | type 1 of that list joins to "AAACCC" |
| V6Layout.U16Value | TP3-FileSystem/inode.c:53 | a little-endian uint16_t is the low byte plus 256 times the high byte |
| V6Layout.DecodeInode | TP3-FileSystem/inode.c:24-25 | a decoded inode has 8 block addresses and two time words each |
| V6Layout.DecodeDirEnt | TP3-FileSystem/directory.c:71-72 | a decoded directory entry has a 14-byte name |
| V6Inode.InodeGet | TP3-FileSystem/inode.c:12-28 | inode_iget: no inode for a number below 1 or a failed read; otherwise the well-formed inode in slot (n - 1) % 16 of sector 2 + (n - 1) / 16 |
| V6Inode.InodePlace | TP3-FileSystem/inode.c:17-24 | the sector and slot are in range and give the inode number back |
| V6Inode.InodePlacesDistinct | TP3-FileSystem/inode.c:17-24 | two inode numbers never share a slot |
| V6Inode.InodeGetFails | TP3-FileSystem/inode.c:12-22 | inode_iget fails exactly for a number below 1 or an unreadable sector, and reads nothing but that sector |
| V6Inode.GetSize | TP3-FileSystem/inode.c:92-94 | inode_getsize: size0 as the high byte and size1 as the low 16 bits (proved in V6Inode.SizeValue and V6Inode.SizeFields) |
| V6Inode.SizeValue | TP3-FileSystem/inode.c:92-94 | (size0 << 16) \| size1 is size0 * 65536 + size1 |
| V6Inode.SizeFields | TP3-FileSystem/inode.c:92-94 | the size is below 2^24 and both fields can be read back from it |
| V6Inode.IndexLookup | TP3-FileSystem/inode.c:30-90 | inode_indexlookup: addr[b] for a small file; an indirect or double-indirect lookup for a large one; -1 on a zero address, a failed read or a block past the end (proved in the lemmas below) |
| V6Inode.PathRoundTrip | TP3-FileSystem/inode.c:41-88 | every block below 1792 + 256 * 256 has one indirect or double-indirect path, and every path leads back to its block |
| V6Inode.IndexLookupAlongPath | TP3-FileSystem/inode.c:39-88 | for every addressable block of a large file, inode_indexlookup follows exactly the path PathOf gives: one step from addr[b / 256], or two steps from addr[7] |
| V6Inode.LookupBounds | TP3-FileSystem/inode.c:30-90 | a small file maps no block outside 0..7, a large file none past 67328, and a found block is never 0 |
| V6File.GetBlock | TP3-FileSystem/file.c:11-71 | what file_getblock delivers is at most one sector |
| V6File.FileGetBlock | TP3-FileSystem/file.c:11-71 | returns -1 with buf untouched on a failure; otherwise the number of bytes delivered, copied into the first bytes of buf, the rest of buf untouched; always between -1 and 512 |
| V6File.Copy | TP3-FileSystem/file.c:68 | memcpy copies the first n bytes and leaves the rest |
| V6File.MapBlock | TP3-FileSystem/file.c:17-54 | the mapping of file_getblock: a failed read, a hole for a zero address, or a sector (proved to agree with inode_indexlookup in V6File.MappingAgrees) |
| V6File.BytesInBlock | TP3-FileSystem/file.c:59-67 | how many bytes of block b lie inside the file: 512, the rest of the file, or none (summed in V6File.BytesUpTo) |
| V6File.BlockShape | TP3-FileSystem/file.c:56-68 | a non-empty block is a prefix of the nonzero data sector it maps to |
| V6File.BytesUpTo | TP3-FileSystem/file.c:61-67 | the first k blocks of a file hold min(size, 512 k) bytes between them |
| V6File.WholeFile | TP3-FileSystem/file.c:61-67 | the blocks up to ceil(size / 512) hold exactly the file's size |
| V6File.MappingAgrees | TP3-FileSystem/file.c:17-54 | file_getblock and inode_indexlookup map a block to the same nonzero sector |
| V6Directory.StrNLen | TP3-FileSystem/directory.c:80 | strnlen is between the start and the bound |
| V6Directory.Matches | TP3-FileSystem/directory.c:80-81 | the test of directory_findname: the name's length equals the entry name's strnlen and strncmp finds no difference in 14 bytes (characterised in V6Directory.MatchIsName) |
| V6Directory.MatchIsName | TP3-FileSystem/directory.c:80-81 | the strnlen/strncmp test holds exactly when the entry name starts with the name and is NUL right after it (or the name fills all 14 bytes) |
| V6Directory.Entries | TP3-FileSystem/directory.c:71-72 | a block of b bytes holds b / 16 entries |
| V6Directory.SearchEntries | TP3-FileSystem/directory.c:74-87 | a found index is in range and is a live entry with a matching name |
| V6Directory.SearchBlocks | TP3-FileSystem/directory.c:59-88 | a found entry lies in a readable block at a valid index and is a hit |
| V6Directory.DirData | TP3-FileSystem/directory.c:54-56 | the scan sees exactly ceil(size / 512) blocks |
| V6Directory.FindName | TP3-FileSystem/directory.c:23-92 | a found entry has a 14-byte name |
| V6Directory.DirEntSlot.constructor | TP3-FileSystem/directory.c:26 | the caller's struct direntv6 |
| V6Directory.DirectoryFindName | TP3-FileSystem/directory.c:23-92 | returns 0 and fills *dirEnt with the entry FindName finds; otherwise returns -1 and leaves *dirEnt; a NULL name or dirEnt gives -1 |
| V6Directory.ScanBlocks | TP3-FileSystem/directory.c:59-88 | the block loop returns the outcome of the block-by-block search: a failed read, a first hit or nothing |
| V6Directory.ScanEntries | TP3-FileSystem/directory.c:71-87 | the entry loop returns the first live matching entry among bytes / 16 |
| V6Directory.SearchEntriesFirst | TP3-FileSystem/directory.c:74-87 | the entry found is the first hit; none found means no hit |
| V6Directory.SearchBlocksFound | TP3-FileSystem/directory.c:59-88 | a found entry is the first hit in (block, entry) order |
| V6Directory.SearchBlocksMissing | TP3-FileSystem/directory.c:59-91 | a scan that finds nothing saw no hit |
| V6Directory.SearchBlocksFailed | TP3-FileSystem/directory.c:61-64 | a scan that fails met an unreadable block |
| V6Directory.FoundIsFirstHit | TP3-FileSystem/directory.c:33-86 | a name found is 1 to 14 bytes long, the entry is live, holds the name NUL-terminated or filling the field, and is the first such entry |
| V6Directory.MissingHasNoHit | TP3-FileSystem/directory.c:39-91 | a name reported missing is in no block of an allocated directory |
| V6Directory.FailedHasCause | TP3-FileSystem/directory.c:29-64 | an error is exactly a bad number, a bad name length, an unreadable inode, an inode that is not an allocated directory, or an unreadable block |
| V6Pathname.Truncate | TP3-FileSystem/pathname.c:39-41 | the strncpy into the 1024-byte copy keeps at most the first 1023 bytes (V6Pathname.LongPath) |
| V6Pathname.Components | TP3-FileSystem/pathname.c:45-62 | the tokens strtok returns: the maximal runs of bytes other than '/' (V6Pathname.ComponentsShape, V6Pathname.SplitJoin) |
| V6Pathname.Resolve | TP3-FileSystem/pathname.c:44-66 | the walk from a directory: each component found leads on, the first failure gives -1 (V6Pathname.ResolveAppend, V6Pathname.FailureIsFinal) |
| V6Pathname.Lookup | TP3-FileSystem/pathname.c:21-67 | pathname_lookup: -1 for NULL or a relative path, otherwise the walk of the truncated path's components from the root (V6Pathname.LookupRange, V6Pathname.LookupJoin) |
| V6Pathname.RunLen | TP3-FileSystem/pathname.c:45 | the run before the first slash lies within the path |
| V6Pathname.PathnameLookup | TP3-FileSystem/pathname.c:21-67 | pathname_lookup returns Lookup: -1 for a NULL or relative path, 1 for "/", otherwise the walk of the components of the truncated copy from the root |
| V6Pathname.LookupStep | TP3-FileSystem/pathname.c:49-61 | one turn of the loop: length check, directory_findname, and its entry's inode number |
| V6Pathname.ResolveCons | TP3-FileSystem/pathname.c:44-66 | the walk takes one step and stops at the first failure |
| V6Pathname.NextToken | TP3-FileSystem/pathname.c:45-62 | strtok skips slashes and returns the next run of non-slash bytes, or none at the end |
| V6Pathname.TokenFound | TP3-FileSystem/pathname.c:45-62 | the token found is the next component |
| V6Pathname.SkipSlashes | TP3-FileSystem/pathname.c:45-62 | repeated slashes separate nothing |
| V6Pathname.ComponentsShape | TP3-FileSystem/pathname.c:45-62 | every component is a nonempty run without slashes |
| V6Pathname.ComponentsNoNul | TP3-FileSystem/pathname.c:45-62 | components of a C string are C strings |
| V6Pathname.RunShape | TP3-FileSystem/pathname.c:45 | the run is slash-free and ends at a slash or the end |
| V6Pathname.SplitJoin | TP3-FileSystem/pathname.c:45-62 | splitting the path spelled by nonempty slash-free components gives them back |
| V6Pathname.LeadingSlash | TP3-FileSystem/pathname.c:45 | a leading slash separates nothing |
| V6Pathname.TrailingSlash | TP3-FileSystem/pathname.c:62 | a trailing slash separates nothing |
| V6Pathname.ResolveAppend | TP3-FileSystem/pathname.c:48-63 | resolving a path in two parts is resolving the second from where the first ends |
| V6Pathname.FailureIsFinal | TP3-FileSystem/pathname.c:56-58 | once a lookup fails, the walk stays at -1 |
| V6Pathname.StepRange | TP3-FileSystem/pathname.c:50-61 | a step ends at -1 or an inode number of at least 1 |
| V6Pathname.ResolveRange | TP3-FileSystem/pathname.c:44-66 | so does the whole walk from a directory numbered 1 or more |
| V6Pathname.LookupRange | TP3-FileSystem/pathname.c:21-67 | pathname_lookup returns -1 or an inode number of at least 1 |
| V6Pathname.LongPath | TP3-FileSystem/pathname.c:39-41 | bytes after the first 1023 are never looked at |
| V6Pathname.LookupJoin | TP3-FileSystem/pathname.c:43-66 | a path is looked up as the components it spells, from the root |
| V6Pathname.RootAndErrors | TP3-FileSystem/pathname.c:24-36 | "/" and "///" give the root; NULL, the empty path and a relative path give -1 |

## Left out

- The simulator framework is not part of this model: `shell.h`, the `CURRENT_STATE` to `NEXT_STATE` copy between cycles, and `mem_read_32`/`mem_write_32`. Memory is a byte map read and written as little-endian 32-bit words at any address. Bytes never written read as 0.
- The `printf` diagnostics of `sim.c` (lines 185, 219, 635, 699-720 and 723) are output only.
- The unused fields `imm3`, `option` and `imm6` that some handlers decode are not modelled.
- Signed 64-bit overflow in the handlers (`int64_t` sums, differences and products) is modelled as wrap-around modulo 2^64. C leaves signed overflow undefined.
- ArmExec.Alu: the product of MUL is the low 64 bits of the mathematical product. This is what a two's-complement machine leaves in the register. The signed reading of the operands is not modelled separately.
- `main` of `shell.c` is out of scope, and so are `ring.c` and the thread pool: process creation, pipes, redirection, signals and threads.
- ShellSplit.SplitByPipes: `commands` is a sequence, not the caller's 200-slot array. `dividir_por_pipes` never checks `MAX_COMMANDS`, and the model does not capture writes past that array.
- ShellArgs.ParseArgs: the failure of `malloc` (which calls `exit`) is not modelled. Tokens are strings and `argv` holds references to them.
- The list's allocation failures are not modelled: `string_proc_list_create`, `string_proc_node_create` and `string_proc_list_concat` returning NULL when `malloc` fails. Also out are `free`, `string_proc_list_destroy`, `string_proc_node_destroy` and the printing helper. Strings are values, so a node holds the hash's characters rather than the caller's pointer.
- The `fs` argument and its NULL checks (directory.c:29, pathname.c:24) are not modelled. The disk is a parameter and is never NULL.
- `diskimg_readsector` is an oracle: a sector the map does not hold, or a negative sector number, is a failed read. A small file's out-of-range block in `file_getblock` reaches the read with sector -1, and the model takes that read to fail.
- The layouts of `struct inode`, `struct direntv6` and the constants `INODE_START_SECTOR` (2) and `ROOT_INUMBER` (1) come from headers that are not part of this model. They follow Version 6 Unix, stored little-endian.
- V6Inode.IndexLookup and V6File.MapBlock require a non-negative block number for a large file. For a negative one, C indexes outside `i_addr` and the indirect block, which has no defined result.
- V6Pathname.PathnameLookup: `strtok` writes `'\0'` into the copy of the path. The model reads the components from the copy without those writes, which no caller can observe.
- V6Directory.DirectoryFindName: `*dirEnt` is a `DirEntSlot` object. A NULL name is `None` and a NULL `dirEnt` is `null`.
