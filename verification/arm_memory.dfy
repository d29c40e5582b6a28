/** What the store handlers of TP1-ARM/src/sim.c do to memory, byte by byte,
    and what the loads then read back. */
module ArmMemory {
  import opened ArmMachine
  import opened ArmExec

  // ---------------------------------------------------------------------------
  // STUR and LDUR

  /** Two words read alike when their four bytes are alike. */
  lemma SameBytesSameWord(m1: Memory, a1: bv64, m2: Memory, a2: bv64)
    requires ByteAt(m1, a1) == ByteAt(m2, a2) && ByteAt(m1, a1 + 1) == ByteAt(m2, a2 + 1)
    requires ByteAt(m1, a1 + 2) == ByteAt(m2, a2 + 2) && ByteAt(m1, a1 + 3) == ByteAt(m2, a2 + 3)
    ensures ReadWord(m1, a1) == ReadWord(m2, a2)
  {
  }

  /** None of the four bytes at a is among those written at a + 4. */
  lemma BytesBelowKept(mem: Memory, a: bv64, hi: bv32)
    ensures var r := WriteWord(mem, a + 4, hi);
      ByteAt(r, a) == ByteAt(mem, a) && ByteAt(r, a + 1) == ByteAt(mem, a + 1)
      && ByteAt(r, a + 2) == ByteAt(mem, a + 2) && ByteAt(r, a + 3) == ByteAt(mem, a + 3)
  {
  }

  /** Writing the word at a + 4 leaves the word at a as it was. */
  lemma WriteAboveKeepsWord(mem: Memory, a: bv64, hi: bv32)
    ensures ReadWord(WriteWord(mem, a + 4, hi), a) == ReadWord(mem, a)
  {
    BytesBelowKept(mem, a, hi);
    SameBytesSameWord(WriteWord(mem, a + 4, hi), a, mem, a);
  }

  /** The two halves decode_ldur recombines are the two decode_stur wrote. */
  lemma DoubleWordsRoundTrip(mem: Memory, a: bv64, v: bv64)
    ensures LoadDouble(StoreDouble(mem, a, v), a) == Combine(StoredHigh(v), StoredLow(v))
  {
    var low := WriteWord(mem, a, StoredLow(v));
    WordRoundTrip(mem, a, StoredLow(v));
    WriteAboveKeepsWord(low, a, StoredHigh(v));
    WordRoundTrip(low, a + 4, StoredHigh(v));
  }

  /** Recombining the halves gives the stored value with bit 31 cleared. */
  lemma CombineStoredHalves(v: bv64)
    ensures Combine(StoredHigh(v), StoredLow(v)) == v & 0xFFFF_FFFF_7FFF_FFFF
  {
  }

  /** LDUR reads back what STUR stored at the same address, except bit 31,
      which the mask 0x7FFFFFFF in decode_stur drops. */
  lemma SturLdurRoundTrip(mem: Memory, a: bv64, v: bv64)
    ensures LoadDouble(StoreDouble(mem, a, v), a) == v & 0xFFFF_FFFF_7FFF_FFFF
  {
    DoubleWordsRoundTrip(mem, a, v);
    CombineStoredHalves(v);
  }

  /** Storing 0x80000000 and loading it back yields 0. */
  lemma SturDropsBit31(mem: Memory, a: bv64)
    ensures LoadDouble(StoreDouble(mem, a, 0x8000_0000), a) == 0
  {
    SturLdurRoundTrip(mem, a, 0x8000_0000);
  }

  // ---------------------------------------------------------------------------
  // STURB and LDURB

  /** Byte j of word is b when j is lane k, and byte j of before otherwise. */
  predicate LanesReplaced(word: bv32, before: bv32, k: bv32, b: bv8)
  {
    && ByteOf(word, 0) == (if k == 0 then b else ByteOf(before, 0))
    && ByteOf(word, 1) == (if k == 1 then b else ByteOf(before, 1))
    && ByteOf(word, 2) == (if k == 2 then b else ByteOf(before, 2))
    && ByteOf(word, 3) == (if k == 3 then b else ByteOf(before, 3))
  }

  /** The four bytes of memory at base are those of word. */
  predicate HoldsWord(mem: Memory, base: bv64, word: bv32)
  {
    && ByteAt(mem, base) == ByteOf(word, 0) && ByteAt(mem, base + 1) == ByteOf(word, 1)
    && ByteAt(mem, base + 2) == ByteOf(word, 2) && ByteAt(mem, base + 3) == ByteOf(word, 3)
  }

  /** Byte j of the word at base in r is b when j is lane k, and what it was
      in mem otherwise. */
  predicate BytesReplaced(r: Memory, mem: Memory, base: bv64, k: bv32, b: bv8)
  {
    && ByteAt(r, base) == (if k == 0 then b else ByteAt(mem, base))
    && ByteAt(r, base + 1) == (if k == 1 then b else ByteAt(mem, base + 1))
    && ByteAt(r, base + 2) == (if k == 2 then b else ByteAt(mem, base + 2))
    && ByteAt(r, base + 3) == (if k == 3 then b else ByteAt(mem, base + 3))
  }

  /** Replacing byte lane k of a word by b changes that lane and no other. */
  lemma InsertByteLanes(word: bv32, k: bv32, b: bv8)
    requires k < 4
    ensures LanesReplaced(InsertByte(word, k, b), word, k, b)
  {
    LaneCases(k);
    if k == 0 {
      InsertByteLane0(word, b);
    } else if k == 1 {
      InsertByteLane1(word, b);
    } else if k == 2 {
      InsertByteLane2(word, b);
    } else {
      InsertByteLane3(word, b);
    }
  }

  lemma InsertByteLane0(word: bv32, b: bv8)
    ensures LanesReplaced(InsertByte(word, 0, b), word, 0, b)
  {
  }

  lemma InsertByteLane1(word: bv32, b: bv8)
    ensures LanesReplaced(InsertByte(word, 1, b), word, 1, b)
  {
  }

  lemma InsertByteLane2(word: bv32, b: bv8)
    ensures LanesReplaced(InsertByte(word, 2, b), word, 2, b)
  {
  }

  lemma InsertByteLane3(word: bv32, b: bv8)
    ensures LanesReplaced(InsertByte(word, 3, b), word, 3, b)
  {
  }


  /** The bytes of memory after a word write at base are the word's bytes. */
  lemma WrittenWordBytes(mem: Memory, base: bv64, w: bv32)
    ensures HoldsWord(WriteWord(mem, base, w), base, w)
  {
  }

  /** The bytes of memory before a write at base are those of the word read there. */
  lemma ReadWordBytes(mem: Memory, base: bv64)
    ensures HoldsWord(mem, base, ReadWord(mem, base))
  {
  }

  /** Writing a word that differs from the one in memory only in lane k
      changes only byte k of that word in memory. */
  lemma LanesChain(r: Memory, mem: Memory, base: bv64, updated: bv32, word: bv32, k: bv32, b: bv8)
    requires HoldsWord(r, base, updated) && HoldsWord(mem, base, word)
    requires LanesReplaced(updated, word, k, b)
    ensures BytesReplaced(r, mem, base, k, b)
  {
  }

  /** After STURB, each byte of the aligned word holding a is the stored byte
      if it is the lane of a, and what it was otherwise. */
  lemma SturbLanes(mem: Memory, a: bv64, v: bv64)
    ensures BytesReplaced(StoreByte(mem, a, v), mem, Aligned(a), ByteLane(a), LowByte(v))
  {
    var base, k, b := Aligned(a), ByteLane(a), LowByte(v);
    var word := ReadWord(mem, base);
    var updated := InsertByte(word, k, b);
    InsertByteLanes(word, k, b);
    WrittenWordBytes(mem, base, updated);
    ReadWordBytes(mem, base);
    LanesChain(StoreByte(mem, a, v), mem, base, updated, word, k, b);
  }

  /** An address is its aligned word plus its byte lane. */
  lemma AlignedPlusLane(a: bv64)
    ensures a == Aligned(a) + ByteLane(a) as bv64
  {
  }

  /** An address within the word at base is one of its four bytes. */
  lemma WordMembers(base: bv64, x: bv64)
    requires InWord(base, x)
    ensures x == base || x == base + 1 || x == base + 2 || x == base + 3
  {
    SmallOffsets(x - base);
    BaseDifference(base, x);
  }

  lemma SmallOffsets(d: bv64)
    requires d < 4
    ensures d == 0 || d == 1 || d == 2 || d == 3
  {
  }

  lemma BaseDifference(base: bv64, x: bv64)
    ensures x == base + (x - base)
  {
  }

  lemma LaneCases(k: bv32)
    requires k < 4
    ensures k == 0 || k == 1 || k == 2 || k == 3
  {
  }

  /** The byte at lane k of the word at base is the replacing byte. */
  lemma ReplacedLane(r: Memory, mem: Memory, base: bv64, k: bv32, b: bv8, a: bv64)
    requires BytesReplaced(r, mem, base, k, b) && k < 4 && a == base + k as bv64
    ensures ByteAt(r, a) == b
  {
    LaneCases(k);
    if k == 0 {
      Lane0Address(base, k, a);
    } else if k == 1 {
      Lane1Address(base, k, a);
    } else if k == 2 {
      Lane2Address(base, k, a);
    } else {
      Lane3Address(base, k, a);
    }
  }

  lemma Lane0Address(base: bv64, k: bv32, a: bv64)
    requires k == 0 && a == base + k as bv64
    ensures a == base
  {
  }

  lemma Lane1Address(base: bv64, k: bv32, a: bv64)
    requires k == 1 && a == base + k as bv64
    ensures a == base + 1
  {
  }

  lemma Lane2Address(base: bv64, k: bv32, a: bv64)
    requires k == 2 && a == base + k as bv64
    ensures a == base + 2
  {
  }

  lemma Lane3Address(base: bv64, k: bv32, a: bv64)
    requires k == 3 && a == base + k as bv64
    ensures a == base + 3
  {
  }

  /** The other bytes of the word at base are kept. */
  lemma ReplacedOthersKept(r: Memory, mem: Memory, base: bv64, k: bv32, b: bv8, x: bv64)
    requires BytesReplaced(r, mem, base, k, b) && k < 4
    requires InWord(base, x) && x != base + k as bv64
    ensures ByteAt(r, x) == ByteAt(mem, x)
  {
    WordMembers(base, x);
    if x == base {
      KeptAt0(r, mem, base, k, b, x);
    } else if x == base + 1 {
      KeptAt1(r, mem, base, k, b, x);
    } else if x == base + 2 {
      KeptAt2(r, mem, base, k, b, x);
    } else {
      KeptAt3(r, mem, base, k, b, x);
    }
  }

  lemma KeptAt0(r: Memory, mem: Memory, base: bv64, k: bv32, b: bv8, x: bv64)
    requires BytesReplaced(r, mem, base, k, b) && x == base && x != base + k as bv64
    ensures ByteAt(r, x) == ByteAt(mem, x)
  {
  }

  lemma KeptAt1(r: Memory, mem: Memory, base: bv64, k: bv32, b: bv8, x: bv64)
    requires BytesReplaced(r, mem, base, k, b) && x == base + 1 && x != base + k as bv64
    ensures ByteAt(r, x) == ByteAt(mem, x)
  {
  }

  lemma KeptAt2(r: Memory, mem: Memory, base: bv64, k: bv32, b: bv8, x: bv64)
    requires BytesReplaced(r, mem, base, k, b) && x == base + 2 && x != base + k as bv64
    ensures ByteAt(r, x) == ByteAt(mem, x)
  {
  }

  lemma KeptAt3(r: Memory, mem: Memory, base: bv64, k: bv32, b: bv8, x: bv64)
    requires BytesReplaced(r, mem, base, k, b) && x == base + 3 && x != base + k as bv64
    ensures ByteAt(r, x) == ByteAt(mem, x)
  {
  }

  /** A word write leaves every byte outside the word alone. */
  lemma WriteOutsideKept(mem: Memory, base: bv64, w: bv32, x: bv64)
    requires !InWord(base, x)
    ensures ByteAt(WriteWord(mem, base, w), x) == ByteAt(mem, x)
  {
  }

  /** STURB stores the low byte of the register at the address. */
  lemma SturbWritesByte(mem: Memory, a: bv64, v: bv64)
    ensures ByteAt(StoreByte(mem, a, v), a) == LowByte(v)
  {
    SturbLanes(mem, a, v);
    AlignedPlusLane(a);
    ReplacedLane(StoreByte(mem, a, v), mem, Aligned(a), ByteLane(a), LowByte(v), a);
  }

  /** STURB leaves every other byte of memory as it was. */
  lemma SturbKeepsOtherBytes(mem: Memory, a: bv64, v: bv64, x: bv64)
    requires x != a
    ensures ByteAt(StoreByte(mem, a, v), x) == ByteAt(mem, x)
  {
    var base, k := Aligned(a), ByteLane(a);
    AlignedPlusLane(a);
    if InWord(base, x) {
      SturbLanes(mem, a, v);
      ReplacedOthersKept(StoreByte(mem, a, v), mem, base, k, LowByte(v), x);
    } else {
      WriteOutsideKept(mem, base, InsertByte(ReadWord(mem, base), k, LowByte(v)), x);
    }
  }

  /** LDURB at an address reads the byte stored there. */
  lemma LoadByteReadsByte(mem: Memory, a: bv64)
    ensures LoadByte(mem, a) == ByteAt(mem, a) as bv64
  {
  }

  /** LDURB reads back the low byte STURB stored at the same address. */
  lemma SturbLdurbRoundTrip(mem: Memory, a: bv64, v: bv64)
    ensures LoadByte(StoreByte(mem, a, v), a) == v & 0xFF
  {
    SturbWritesByte(mem, a, v);
    LoadByteReadsByte(StoreByte(mem, a, v), a);
  }

  // ---------------------------------------------------------------------------
  // STURH and LDURH

  /** The low and the high byte of a halfword. */
  function HalfLow(h: bv16): bv8 { (h & 0xFF) as bv8 }
  function HalfHigh(h: bv16): bv8 { (h >> 8) as bv8 }

  /** Bytes 2k and 2k + 1 of word are those of h, the others those of before. */
  predicate HalvesReplaced(word: bv32, before: bv32, k: bv32, h: bv16)
  {
    && ByteOf(word, 0) == (if k == 0 then HalfLow(h) else ByteOf(before, 0))
    && ByteOf(word, 1) == (if k == 0 then HalfHigh(h) else ByteOf(before, 1))
    && ByteOf(word, 2) == (if k == 1 then HalfLow(h) else ByteOf(before, 2))
    && ByteOf(word, 3) == (if k == 1 then HalfHigh(h) else ByteOf(before, 3))
  }

  /** The same, for the word at base in memory r against memory mem. */
  predicate HalfBytesReplaced(r: Memory, mem: Memory, base: bv64, k: bv32, h: bv16)
  {
    && ByteAt(r, base) == (if k == 0 then HalfLow(h) else ByteAt(mem, base))
    && ByteAt(r, base + 1) == (if k == 0 then HalfHigh(h) else ByteAt(mem, base + 1))
    && ByteAt(r, base + 2) == (if k == 1 then HalfLow(h) else ByteAt(mem, base + 2))
    && ByteAt(r, base + 3) == (if k == 1 then HalfHigh(h) else ByteAt(mem, base + 3))
  }

  /** Replacing halfword lane k of a word by h changes those two bytes only. */
  lemma InsertHalfLanes(word: bv32, k: bv32, h: bv16)
    requires k < 2
    ensures HalvesReplaced(InsertHalf(word, k, h), word, k, h)
  {
    if k == 0 {
      InsertHalfLane0(word, h);
    } else {
      InsertHalfLane1(word, h);
    }
  }

  lemma InsertHalfLane0(word: bv32, h: bv16)
    ensures HalvesReplaced(InsertHalf(word, 0, h), word, 0, h)
  {
  }

  lemma InsertHalfLane1(word: bv32, h: bv16)
    ensures HalvesReplaced(InsertHalf(word, 1, h), word, 1, h)
  {
  }

  lemma HalvesChain(r: Memory, mem: Memory, base: bv64, updated: bv32, word: bv32, k: bv32, h: bv16)
    requires HoldsWord(r, base, updated) && HoldsWord(mem, base, word)
    requires HalvesReplaced(updated, word, k, h)
    ensures HalfBytesReplaced(r, mem, base, k, h)
  {
  }

  /** After STURH, bytes 2k and 2k + 1 of the aligned word holding a, where k
      is bit 1 of a, hold the low halfword of v; the other two are kept. */
  lemma SturhLanes(mem: Memory, a: bv64, v: bv64)
    ensures HalfBytesReplaced(StoreHalf(mem, a, v), mem, Aligned(a), HalfLane(a), LowHalf(v))
  {
    var base, k, h := Aligned(a), HalfLane(a), LowHalf(v);
    var word := ReadWord(mem, base);
    var updated := InsertHalf(word, k, h);
    InsertHalfLanes(word, k, h);
    WrittenWordBytes(mem, base, updated);
    ReadWordBytes(mem, base);
    HalvesChain(StoreHalf(mem, a, v), mem, base, updated, word, k, h);
  }

  /** The address decode_sturh actually writes the halfword at: bit 0 of the
      address is dropped. */
  function HalfStart(a: bv64): bv64 { a & 0xFFFF_FFFF_FFFF_FFFE }

  /** The halfword start is the aligned word plus twice the halfword lane. */
  lemma HalfStartLane(a: bv64)
    ensures HalfLane(a) == 0 ==> HalfStart(a) == Aligned(a)
    ensures HalfLane(a) == 1 ==> HalfStart(a) == Aligned(a) + 2
  {
  }

  lemma NextByte(base: bv64)
    ensures (base + 2) + 1 == base + 3
  {
  }

  /** LDURH reads the two bytes at the address, low byte first. */
  lemma LoadHalfReadsBytes(mem: Memory, a: bv64)
    ensures LoadHalf(mem, a) == (ByteAt(mem, a) as bv64) | ((ByteAt(mem, a + 1) as bv64) << 8)
  {
  }

  /** LDURH at a reads the halfword held there. */
  lemma LoadHalfReadsHalf(mem: Memory, a: bv64, h: bv16)
    requires HalfAt(mem, a, h)
    ensures LoadHalf(mem, a) == h as bv64
  {
    LoadHalfReadsBytes(mem, a);
  }

  /** An even address is its own halfword start. */
  lemma EvenHalfStart(a: bv64)
    requires a & 1 == 0
    ensures HalfStart(a) == a
  {
  }

  /** The low halfword of v, widened, is v & 0xFFFF. */
  lemma LowHalfWidened(v: bv64)
    ensures LowHalf(v) as bv64 == v & 0xFFFF
  {
  }

  /** STURH stores the low halfword of v at a with bit 0 cleared. */
  lemma SturhWritesHalf(mem: Memory, a: bv64, v: bv64)
    ensures HalfAt(StoreHalf(mem, a, v), HalfStart(a), LowHalf(v))
  {
    SturhLanes(mem, a, v);
    HalfStartLane(a);
    EvenHalfAt(StoreHalf(mem, a, v), mem, HalfStart(a), Aligned(a), HalfLane(a), LowHalf(v));
  }

  /** When halfword lane k of the word at base was replaced by h, memory
      holds h at the start of that lane. */
  lemma EvenHalfAt(r: Memory, mem: Memory, a: bv64, base: bv64, k: bv32, h: bv16)
    requires HalfBytesReplaced(r, mem, base, k, h) && k < 2
    requires k == 0 ==> a == base
    requires k == 1 ==> a == base + 2
    ensures HalfAt(r, a, h)
  {
    if k == 0 {
      LowHalfAt(r, mem, base, h, a);
    } else {
      HighHalfAt(r, mem, base, h, a);
    }
  }

  /** Memory holds halfword h at a, low byte first. */
  predicate HalfAt(mem: Memory, a: bv64, h: bv16)
  {
    ByteAt(mem, a) == HalfLow(h) && ByteAt(mem, a + 1) == HalfHigh(h)
  }

  /** Halfword lane 0 starts at the aligned address itself. */
  lemma LowHalfAt(r: Memory, mem: Memory, base: bv64, h: bv16, a: bv64)
    requires HalfBytesReplaced(r, mem, base, 0, h) && a == base
    ensures HalfAt(r, a, h)
  {
  }

  /** Halfword lane 1 starts two bytes above it. */
  lemma HighHalfAt(r: Memory, mem: Memory, base: bv64, h: bv16, a: bv64)
    requires HalfBytesReplaced(r, mem, base, 1, h) && a == base + 2
    ensures HalfAt(r, a, h)
  {
    NextByte(base);
  }

  /** LDURH reads back the low halfword STURH stored at the same even address. */
  lemma SturhLdurhRoundTrip(mem: Memory, a: bv64, v: bv64)
    requires a & 1 == 0
    ensures LoadHalf(StoreHalf(mem, a, v), a) == v & 0xFFFF
  {
    SturhWritesHalf(mem, a, v);
    EvenHalfStart(a);
    LoadHalfReadsHalf(StoreHalf(mem, a, v), a, LowHalf(v));
    LowHalfWidened(v);
  }

  /** At an odd address decode_sturh ignores bit 0: storing 0x1234 at address 1
      of an empty memory writes bytes 0 and 1, so LDURH at 1 reads 0x12. */
  lemma SturhOddAddress()
    ensures LoadHalf(StoreHalf(map[], 1, 0x1234), 1) == 0x12
  {
    var r := StoreHalf(map[], 1, 0x1234);
    SturhLanes(map[], 1, 0x1234);
    LoadHalfReadsBytes(r, 1);
  }
}
