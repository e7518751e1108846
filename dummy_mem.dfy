/**
 * The memory the OpenRISC test bench gives the translator: 0x10000 bytes
 * held as 16384 big-endian 32-bit words, read by byte, halfword, word or
 * doubleword, written by word or byte, plus two memory-mapped addresses, a
 * console character port and an end-of-simulation port.
 *
 * Addresses and values are uint64_t; words are uint32_t. Where the source
 * calls abort() the model returns an explicit Abort; exit(0) is an explicit
 * Exited.
 */
module DummyMem {

  const MEM_WORDS: nat := 0x4000    // tmp_mem.resize(0x10000 / sizeof(uint32_t))
  const MEM_BYTES: nat := 0x10000
  const GDB_PROBE: nat := 0xFFFF_FFFF
  const UTIL_PUTC: nat := 0x6000_0004
  const UTIL_EXIT: nat := 0x6000_0008
  const NEWLINE: bv64 := 0x0A

  /** uint64_t */
  type Addr = a: int | 0 <= a < 0x1_0000_0000_0000_0000

  /** The contents of tmp_mem: always 16384 words. */
  type Words = m: seq<bv32> | |m| == MEM_WORDS witness seq(MEM_WORDS, _ => 0)

  /** What a read gives back, or the abort() that ends the simulation. */
  datatype Access = Value(v: bv64) | Abort

  function Widen(w: bv32): bv64
  {
    w as bv64
  }

  /** Conversion of a uint64_t to uint32_t: the low 32 bits. */
  function Trunc(x: bv64): bv32
  {
    (x & 0xFFFF_FFFF) as bv32
  }

  /** The byte at offset k of a big-endian word: offset 0 is bits 24..31, offset 3 bits 0..7. */
  function Lane(w: bv32, k: nat): bv32
    requires k < 4
  {
    if k == 0 then (w >> 24) & 0xFF
    else if k == 1 then (w >> 16) & 0xFF
    else if k == 2 then (w >> 8) & 0xFF
    else w & 0xFF
  }

  /** Addresses past the array: 0 for the debugger's probe of 0xFFFFFFFF, abort for any other. */
  function OutOfRange(addr: Addr): (r: Access)
    ensures r.Value? <==> addr == GDB_PROBE
  {
    if addr == GDB_PROBE then Value(0) else Abort
  }

  /** mem_read(addr, 1). */
  function ReadByte(mem: Words, addr: Addr): Access
  {
    if addr >= MEM_BYTES then OutOfRange(addr)
    else Value(Widen(Lane(mem[addr / 4], addr % 4)))
  }

  /** The byte reads mem_read(a, 1) of one memory, as a function of the address. */
  function Reader(mem: Words): Addr -> Access
    decreases 0, 2
  {
    (a: Addr) => Read(mem, a, 1)
  }

  /** One more byte below the bytes read so far: `v <<= 8; v |= byte`. */
  function Push(v: bv64, b: bv64): bv64
  {
    (v << 8) | b
  }

  /** The first n byte reads of an 8-byte read at addr, the first one most significant. */
  function Concat(read: Addr -> Access, addr: Addr, n: nat): Access
    requires addr < MEM_BYTES && n <= 8
  {
    if n == 0 then Value(0)
    else
      match Concat(read, addr, n - 1)
      case Abort => Abort
      case Value(v) =>
        match read(addr + n - 1)
        case Abort => Abort
        case Value(b) => Value(Push(v, b))
  }

  /** Bits 16..31 of a word. */
  function UpperHalf(w: bv32): bv64
  {
    (Widen(w) >> 16) & 0xFFFF
  }

  /** Bits 0..15 of a word. */
  function LowerHalf(w: bv32): bv64
  {
    Widen(w) & 0xFFFF
  }

  /** The halfword at an even address: the upper half of the word at offset 0, the lower at offset 2. */
  function Half(mem: Words, addr: Addr): Access
    requires addr < MEM_BYTES
  {
    if addr % 2 != 0 then Abort
    else if (addr % 4) / 2 == 0 then Value(UpperHalf(mem[addr / 4]))
    else Value(LowerHalf(mem[addr / 4]))
  }

  /**
   * The halfword read as written: the switch is on addr / 2 rather than on
   * the offset in the word, so only addresses 0 and 4 are served, and
   * address 4 gets the lower half of its word.
   */
  function HalfAsWritten(mem: Words, addr: Addr): Access
    requires addr < MEM_BYTES
  {
    if addr % 2 != 0 then Abort
    else if addr / 2 == 0 then Value(UpperHalf(mem[addr / 4]))
    else if addr / 2 == 2 then Value(LowerHalf(mem[addr / 4]))
    else Abort
  }

  /** mem_read(addr, size), halfwords as intended. Sizes other than 1, 2 and 8 read the whole word. */
  function Read(mem: Words, addr: Addr, size: nat): Access
    decreases if size == 8 then 1 else 0, 1
  {
    if addr >= MEM_BYTES then OutOfRange(addr)
    else if size == 1 then ReadByte(mem, addr)
    else if size == 2 then Half(mem, addr)
    else if size == 8 then Concat(Reader(mem), addr, 8)
    else Value(Widen(mem[addr / 4]))
  }

  /** mem_read(addr, size) as written: the same but for the halfword case. */
  function ReadAsWritten(mem: Words, addr: Addr, size: nat): Access
  {
    if size == 2 && addr < MEM_BYTES then HalfAsWritten(mem, addr) else Read(mem, addr, size)
  }

  // ---- Properties of reads ----

  lemma ReaderApply(mem: Words, a: Addr)
    ensures Reader(mem)(a) == ReadByte(mem, a)
  {
  }

  /** One more byte read, of address a, extends the accumulated value. */
  lemma ConcatStep(read: Addr -> Access, addr: Addr, n: nat, a: Addr, v: bv64, b: bv64)
    requires addr < MEM_BYTES && n < 8 && a == addr + n
    requires Concat(read, addr, n) == Value(v) && read(a) == Value(b)
    ensures Concat(read, addr, n + 1) == Value(Push(v, b))
  {
    assert addr + (n + 1) - 1 == a;
  }

  /** Once a byte read of an 8-byte read aborts, the whole read aborts. */
  lemma {:induction false} ConcatAborts(read: Addr -> Access, addr: Addr, n: nat, m: nat)
    requires addr < MEM_BYTES && 1 <= n <= m <= 8
    requires Concat(read, addr, n - 1).Value? && read(addr + n - 1) == Abort
    ensures Concat(read, addr, m) == Abort
    decreases m
  {
    if m > n {
      ConcatAborts(read, addr, n, m - 1);
    }
  }

  /** An 8-byte read that runs past the array aborts, at the first byte beyond it. */
  lemma {:induction false} ConcatPastEnd(read: Addr -> Access, addr: Addr, n: nat)
    requires addr < MEM_BYTES && n <= 8 && addr + n > MEM_BYTES && read(MEM_BYTES) == Abort
    ensures Concat(read, addr, n) == Abort
    decreases n
  {
    if addr + n - 1 > MEM_BYTES {
      ConcatPastEnd(read, addr, n - 1);
    }
  }

  lemma ReadPastEnd(mem: Words, addr: Addr)
    requires addr < MEM_BYTES && addr + 8 > MEM_BYTES
    ensures Read(mem, addr, 8) == Abort
  {
    ReaderApply(mem, MEM_BYTES);
    ConcatPastEnd(Reader(mem), addr, 8);
  }

  /** Four more byte reads, of addresses a to a + 3. */
  lemma ConcatFour(read: Addr -> Access, addr: Addr, n: nat, a: Addr, v: bv64, b0: bv64, b1: bv64, b2: bv64, b3: bv64)
    requires addr < MEM_BYTES && n <= 4 && a == addr + n && Concat(read, addr, n) == Value(v)
    requires read(a) == Value(b0) && read(a + 1) == Value(b1)
    requires read(a + 2) == Value(b2) && read(a + 3) == Value(b3)
    ensures Concat(read, addr, n + 4) == Value(Push(Push(Push(Push(v, b0), b1), b2), b3))
  {
    ConcatStep(read, addr, n, a, v, b0);
    ConcatStep(read, addr, n + 1, a + 1, Push(v, b0), b1);
    ConcatStep(read, addr, n + 2, a + 2, Push(Push(v, b0), b1), b2);
    ConcatStep(read, addr, n + 3, a + 3, Push(Push(Push(v, b0), b1), b2), b3);
  }

  /** Four more bytes, the bytes of w, below the bytes read so far. */
  function Append(v: bv64, w: bv32): bv64
  {
    (v << 32) | Widen(w)
  }

  /** Four byte reads of one word give the word back. */
  lemma PushLanes(w: bv32, v: bv64)
    ensures Push(Push(Push(Push(v, Widen(Lane(w, 0))), Widen(Lane(w, 1))), Widen(Lane(w, 2))), Widen(Lane(w, 3)))
      == Append(v, w)
  {
  }

  /** The byte reads at a to a + 3 give the lanes of w, first to last. */
  predicate LanesAt(read: Addr -> Access, a: Addr, w: bv32)
    requires a + 4 <= MEM_BYTES
  {
    read(a) == Value(Widen(Lane(w, 0))) && read(a + 1) == Value(Widen(Lane(w, 1)))
    && read(a + 2) == Value(Widen(Lane(w, 2))) && read(a + 3) == Value(Widen(Lane(w, 3)))
  }

  /** Four byte reads that give the lanes of w append w below the bytes read so far. */
  lemma ConcatWord(read: Addr -> Access, addr: Addr, n: nat, m: nat, a: Addr, w: bv32, v: bv64)
    requires addr < MEM_BYTES && n <= 4 && m == n + 4 && a == addr + n && a + 4 <= MEM_BYTES
    requires Concat(read, addr, n) == Value(v) && LanesAt(read, a, w)
    ensures Concat(read, addr, m) == Value(Append(v, w))
  {
    ConcatFour(read, addr, n, a, v, Widen(Lane(w, 0)), Widen(Lane(w, 1)), Widen(Lane(w, 2)), Widen(Lane(w, 3)));
    PushLanes(w, v);
  }

  /** The doubleword with hi as its upper and lo as its lower 32 bits. */
  function Join(hi: bv32, lo: bv32): bv64
  {
    Append(Widen(hi), lo)
  }

  lemma NothingAbove(w: bv32)
    ensures Append(0, w) == Widen(w)
  {
  }

  /** Four byte reads that give the lanes of w0 read w0. */
  lemma ConcatFirstWord(read: Addr -> Access, addr: Addr, w0: bv32)
    requires addr + 4 <= MEM_BYTES && LanesAt(read, addr, w0)
    ensures Concat(read, addr, 4) == Value(Widen(w0))
  {
    ConcatWord(read, addr, 0, 4, addr, w0, 0);
    NothingAbove(w0);
  }

  /** Eight byte reads that give the lanes of w0 and then of w1 make w0 the high word, w1 the low. */
  lemma ConcatTwoWords(read: Addr -> Access, addr: Addr, w0: bv32, w1: bv32)
    requires addr + 8 <= MEM_BYTES
    requires Concat(read, addr, 4) == Value(Widen(w0)) && LanesAt(read, addr + 4, w1)
    ensures Concat(read, addr, 8) == Value(Join(w0, w1))
  {
    ConcatWord(read, addr, 4, 8, addr + 4, w1, Widen(w0));
  }

  /** The byte at address a, offset j of word q, is lane j of that word. */
  lemma ByteInWord(mem: Words, a: Addr, q: nat, j: nat)
    requires j < 4 && a == 4 * q + j && a < MEM_BYTES
    ensures q < MEM_WORDS && ReadByte(mem, a) == Value(Widen(Lane(mem[q], j)))
  {
    assert a / 4 == q && a % 4 == j;
  }

  /** The four byte reads of the word at a = 4 * q. */
  lemma WordBytes(mem: Words, a: Addr, q: nat)
    requires a == 4 * q && a + 4 <= MEM_BYTES
    ensures q < MEM_WORDS && LanesAt(Reader(mem), a, mem[q])
  {
    ByteInWord(mem, a, q, 0);
    ByteInWord(mem, a + 1, q, 1);
    ByteInWord(mem, a + 2, q, 2);
    ByteInWord(mem, a + 3, q, 3);
    ReaderApply(mem, a);
    ReaderApply(mem, a + 1);
    ReaderApply(mem, a + 2);
    ReaderApply(mem, a + 3);
  }

  lemma DoubleIsConcat(mem: Words, addr: Addr)
    requires addr < MEM_BYTES
    ensures Read(mem, addr, 8) == Concat(Reader(mem), addr, 8)
  {
  }

  lemma FirstWordRead(mem: Words, addr: Addr, q: nat)
    requires addr == 4 * q && addr + 8 <= MEM_BYTES
    ensures q + 1 < MEM_WORDS && Concat(Reader(mem), addr, 4) == Value(Widen(mem[q]))
  {
    WordBytes(mem, addr, q);
    ConcatFirstWord(Reader(mem), addr, mem[q]);
  }

  lemma SecondWordLanes(mem: Words, addr: Addr, q: nat)
    requires addr == 4 * q && addr + 8 <= MEM_BYTES
    ensures q + 1 < MEM_WORDS && LanesAt(Reader(mem), addr + 4, mem[q + 1])
  {
    WordBytes(mem, addr + 4, q + 1);
  }

  lemma BothWordsRead(mem: Words, addr: Addr, q: nat)
    requires addr == 4 * q && addr + 8 <= MEM_BYTES
    ensures q + 1 < MEM_WORDS && Concat(Reader(mem), addr, 8) == Value(Join(mem[q], mem[q + 1]))
  {
    SecondWordLanes(mem, addr, q);
    FirstWordRead(mem, addr, q);
    ConcatTwoWords(Reader(mem), addr, mem[q], mem[q + 1]);
  }

  /** An aligned 8-byte read is the two big-endian words, the first one high. */
  lemma ReadDoubleWord(mem: Words, addr: Addr)
    requires addr % 4 == 0 && addr + 8 <= MEM_BYTES
    ensures Read(mem, addr, 8) == Value(Join(mem[addr / 4], mem[addr / 4 + 1]))
  {
    BothWordsRead(mem, addr, addr / 4);
    DoubleIsConcat(mem, addr);
  }

  lemma HighHalf(w: bv32)
    ensures Push(Widen(Lane(w, 0)), Widen(Lane(w, 1))) == UpperHalf(w)
  {
  }

  lemma LowHalf(w: bv32)
    ensures Push(Widen(Lane(w, 2)), Widen(Lane(w, 3))) == LowerHalf(w)
  {
  }

  /** A halfword read at an even address is its two bytes, the first one high. */
  lemma ReadHalfword(mem: Words, addr: Addr)
    requires addr % 2 == 0 && addr < MEM_BYTES
    ensures Read(mem, addr, 2) == Value(Push(ReadByte(mem, addr).v, ReadByte(mem, addr + 1).v))
  {
    var q, k := addr / 4, addr % 4;
    assert addr == 4 * q + k;
    ByteInWord(mem, addr, q, k);
    ByteInWord(mem, addr + 1, q, k + 1);
    if k == 0 {
      HighHalf(mem[q]);
    } else {
      LowHalf(mem[q]);
    }
  }

  lemma HalfRead(mem: Words, addr: Addr)
    requires addr < MEM_BYTES
    ensures Read(mem, addr, 2) == Half(mem, addr) && ReadAsWritten(mem, addr, 2) == HalfAsWritten(mem, addr)
  {
  }

  /**
   * The halfword read as written: at address 2 it aborts, at address 4 it
   * returns the bytes at 6 and 7 rather than those at 4 and 5, and at every
   * even address from 6 up it aborts, although the intended read succeeds.
   */
  lemma HalfwordMisread(mem: Words)
    ensures ReadAsWritten(mem, 2, 2) == Abort && Read(mem, 2, 2).Value?
    ensures ReadAsWritten(mem, 4, 2) == Read(mem, 6, 2)
    ensures ReadAsWritten(mem, 0, 2) == Read(mem, 0, 2)
    ensures forall a | 6 <= a < MEM_BYTES && a % 2 == 0 :: ReadAsWritten(mem, a, 2) == Abort && Read(mem, a, 2).Value?
  {
    MisreadAtTwo(mem);
    MisreadAtFour(mem);
    HalfRead(mem, 0);
    forall a | 6 <= a < MEM_BYTES && a % 2 == 0
      ensures ReadAsWritten(mem, a, 2) == Abort && Read(mem, a, 2).Value?
    {
      MisreadFromSix(mem, a);
    }
  }

  lemma MisreadFromSix(mem: Words, a: Addr)
    requires 6 <= a < MEM_BYTES && a % 2 == 0
    ensures ReadAsWritten(mem, a, 2) == Abort && Read(mem, a, 2).Value?
  {
    HalfRead(mem, a);
    assert a / 2 >= 3;
  }

  lemma MisreadAtTwo(mem: Words)
    ensures ReadAsWritten(mem, 2, 2) == Abort && Read(mem, 2, 2).Value?
  {
    HalfRead(mem, 2);
    assert 2 / 4 == 0 && 2 / 2 == 1;
  }

  lemma MisreadAtFour(mem: Words)
    ensures ReadAsWritten(mem, 4, 2) == Read(mem, 6, 2)
  {
    HalfRead(mem, 4);
    HalfRead(mem, 6);
    assert 4 / 4 == 1 && 6 / 4 == 1 && 4 / 2 == 2;
  }

  /** A memory whose bytes at 4..7 are 0x11, 0x22, 0x33, 0x44 tells the two halfwords at 4 apart. */
  lemma HalfwordMisreadWitness()
    ensures var mem: Words := seq(MEM_WORDS, i => if i == 1 then 0x1122_3344 else 0);
      ReadAsWritten(mem, 4, 2) == Value(0x3344) && Read(mem, 4, 2) == Value(0x1122)
  {
    var mem: Words := seq(MEM_WORDS, i => if i == 1 then 0x1122_3344 else 0);
    assert mem[1] == 0x1122_3344;
    HalfRead(mem, 4);
  }

  // ---- Writes ----

  /** A 32-bit word with lane k cleared and b ORed in at that lane's position. */
  function Put(w: bv32, k: nat, b: bv32): bv32
    requires k < 4
  {
    if k == 0 then (w & 0x00FF_FFFF) | (b << 24)
    else if k == 1 then (w & 0xFF00_FFFF) | (b << 16)
    else if k == 2 then (w & 0xFFFF_00FF) | (b << 8)
    else (w & 0xFFFF_FF00) | b
  }

  /**
   * A byte store as written: val is shifted to its lane as a uint64_t and
   * ORed into the cleared lane whole, so a val of 256 or more also sets bits
   * in the lanes to its left.
   */
  function PutByteAsWritten(w: bv32, k: nat, val: bv64): bv32
    requires k < 4
  {
    if k == 0 then (w & 0x00FF_FFFF) | Trunc(val << 24)
    else if k == 1 then (w & 0xFF00_FFFF) | Trunc(val << 16)
    else if k == 2 then (w & 0xFFFF_00FF) | Trunc(val << 8)
    else (w & 0xFFFF_FF00) | Trunc(val)
  }

  /** A byte store as intended: only the low byte of val goes into the lane. */
  function PutByte(w: bv32, k: nat, val: bv64): bv32
    requires k < 4
  {
    PutByteAsWritten(w, k, val & 0xFF)
  }

  /** Shifting before or after the truncation to 32 bits is the same. */
  lemma Shift24(val: bv64)
    ensures Trunc(val << 24) == Trunc(val) << 24
  {
  }

  lemma Shift16(val: bv64)
    ensures Trunc(val << 16) == Trunc(val) << 16
  {
  }

  lemma Shift8(val: bv64)
    ensures Trunc(val << 8) == Trunc(val) << 8
  {
  }

  lemma PutAsWritten0(w: bv32, val: bv64)
    ensures PutByteAsWritten(w, 0, val) == Put(w, 0, Trunc(val))
  {
    Shift24(val);
  }

  lemma PutAsWritten1(w: bv32, val: bv64)
    ensures PutByteAsWritten(w, 1, val) == Put(w, 1, Trunc(val))
  {
    Shift16(val);
  }

  lemma PutAsWritten2(w: bv32, val: bv64)
    ensures PutByteAsWritten(w, 2, val) == Put(w, 2, Trunc(val))
  {
    assert PutByteAsWritten(w, 2, val) == (w & 0xFFFF_00FF) | Trunc(val << 8);
    Shift8(val);
  }

  /** The store as written is Put of the low 32 bits of val. */
  lemma PutAsWritten(w: bv32, k: nat, val: bv64)
    requires k < 4
    ensures PutByteAsWritten(w, k, val) == Put(w, k, Trunc(val))
  {
    if k == 0 { PutAsWritten0(w, val); }
    else if k == 1 { PutAsWritten1(w, val); }
    else if k == 2 { PutAsWritten2(w, val); }
  }

  lemma PutLane0(w: bv32, b: bv32)
    requires b < 256
    ensures Lane(Put(w, 0, b), 0) == b && Lane(Put(w, 0, b), 1) == Lane(w, 1)
    ensures Lane(Put(w, 0, b), 2) == Lane(w, 2) && Lane(Put(w, 0, b), 3) == Lane(w, 3)
  {
  }

  lemma PutLane1(w: bv32, b: bv32)
    requires b < 256
    ensures Lane(Put(w, 1, b), 1) == b && Lane(Put(w, 1, b), 0) == Lane(w, 0)
    ensures Lane(Put(w, 1, b), 2) == Lane(w, 2) && Lane(Put(w, 1, b), 3) == Lane(w, 3)
  {
  }

  lemma PutLane2(w: bv32, b: bv32)
    requires b < 256
    ensures Lane(Put(w, 2, b), 2) == b && Lane(Put(w, 2, b), 0) == Lane(w, 0)
    ensures Lane(Put(w, 2, b), 1) == Lane(w, 1) && Lane(Put(w, 2, b), 3) == Lane(w, 3)
  {
  }

  lemma PutLane3(w: bv32, b: bv32)
    requires b < 256
    ensures Lane(Put(w, 3, b), 3) == b && Lane(Put(w, 3, b), 0) == Lane(w, 0)
    ensures Lane(Put(w, 3, b), 1) == Lane(w, 1) && Lane(Put(w, 3, b), 2) == Lane(w, 2)
  {
  }

  /** A byte below 256 put into lane k is what lane k holds afterwards; the other lanes are kept. */
  lemma PutLanes(w: bv32, k: nat, b: bv32)
    requires k < 4 && b < 256
    ensures forall j | 0 <= j < 4 :: Lane(Put(w, k, b), j) == if j == k then b else Lane(w, j)
  {
    if k == 0 { PutLane0(w, b); }
    else if k == 1 { PutLane1(w, b); }
    else if k == 2 { PutLane2(w, b); }
    else { PutLane3(w, b); }
  }

  lemma LowByte(val: bv64)
    ensures Trunc(val & 0xFF) < 256 && Widen(Trunc(val & 0xFF)) == val & 0xFF
  {
  }

  /** The intended byte store sets its lane to the low byte of val and keeps the other three. */
  lemma PutByteLanes(w: bv32, k: nat, val: bv64)
    requires k < 4
    ensures forall j | 0 <= j < 4 :: Widen(Lane(PutByte(w, k, val), j)) == if j == k then val & 0xFF else Widen(Lane(w, j))
  {
    PutAsWritten(w, k, val & 0xFF);
    LowByte(val);
    PutLanes(w, k, Trunc(val & 0xFF));
  }

  /** For a val that fits in a byte the store as written is the intended one. */
  lemma PutByteSmall(w: bv32, k: nat, val: bv64)
    requires k < 4 && val < 256
    ensures PutByteAsWritten(w, k, val) == PutByte(w, k, val)
  {
    assert val & 0xFF == val;
  }

  /** l.sb hands over the whole register: storing 0x100 at offset 3 of a zero word sets a bit of offset 2. */
  lemma ByteStoreSpills()
    ensures PutByteAsWritten(0, 3, 0x100) == 0x100 && Lane(PutByteAsWritten(0, 3, 0x100), 2) == 1
    ensures PutByte(0, 3, 0x100) == 0
  {
  }

  /** The bench's state: the words, what the console port has printed, and the "UTIL:" prefix flag. */
  datatype MemState = MemState(words: Words, console: seq<bv64>, prefix: bool)

  /** How a write ends: stored, exit(0) on the end-of-simulation port, or abort(). */
  datatype WriteEnd = Stored | Exited | Aborted

  const UTIL_PREFIX: seq<bv64> := [0x55, 0x54, 0x49, 0x4C, 0x3A]   // "UTIL:"

  /**
   * mem_write(addr, size, val), with the byte store masked to the low byte
   * of val (as intended) or not (as written).
   */
  function Store(st: MemState, addr: Addr, size: nat, val: bv64, masked: bool): (WriteEnd, MemState)
  {
    if addr < MEM_BYTES then
      if size == 4 then (Stored, st.(words := st.words[addr / 4 := Trunc(val)]))
      else if size == 1 then
        var w := st.words[addr / 4];
        var w' := if masked then PutByte(w, addr % 4, val) else PutByteAsWritten(w, addr % 4, val);
        (Stored, st.(words := st.words[addr / 4 := w']))
      else (Aborted, st)
    else if addr == UTIL_PUTC then
      var c := val & 0xFF;
      (Stored, st.(console := st.console + (if st.prefix then UTIL_PREFIX else []) + [c], prefix := c == NEWLINE))
    else if addr == UTIL_EXIT then (Exited, st)
    else (Aborted, st)
  }

  /** mem_write as written: a byte store ORs in the whole of val, shifted to its lane. */
  function WriteAsWritten(st: MemState, addr: Addr, size: nat, val: bv64): (WriteEnd, MemState)
  {
    Store(st, addr, size, val, false)
  }

  /** mem_write with byte stores as intended: only the low byte of val is stored. */
  function Write(st: MemState, addr: Addr, size: nat, val: bv64): (WriteEnd, MemState)
  {
    Store(st, addr, size, val, true)
  }

  /** The prefix flag is set exactly at the start of a console line. */
  predicate Good(st: MemState)
  {
    st.prefix <==> st.console == [] || st.console[|st.console| - 1] == NEWLINE
  }

  /** Every write, as written or as intended, keeps the prefix flag in step with the console. */
  lemma WriteKeepsGood(st: MemState, addr: Addr, size: nat, val: bv64)
    requires Good(st)
    ensures Good(WriteAsWritten(st, addr, size, val).1) && Good(Write(st, addr, size, val).1)
  {
  }

  /** Only the console port prints; only the memory array changes words; only the exit port exits. */
  lemma WriteEffects(st: MemState, addr: Addr, size: nat, val: bv64)
    ensures var (e, st') := WriteAsWritten(st, addr, size, val);
      (e == Exited <==> addr == UTIL_EXIT)
      && (e == Aborted <==>
            (addr < MEM_BYTES && size != 1 && size != 4) || (addr >= MEM_BYTES && addr != UTIL_PUTC && addr != UTIL_EXIT))
      && (st'.console != st.console <==> addr == UTIL_PUTC)
      && (addr >= MEM_BYTES ==> st'.words == st.words)
  {
  }

  /** A byte written reads back as the low byte of val, and every other byte reads as before. */
  lemma ByteWriteRead(st: MemState, addr: Addr, val: bv64, other: Addr)
    requires addr < MEM_BYTES
    ensures var st' := Write(st, addr, 1, val).1;
      Read(st'.words, addr, 1) == Value(val & 0xFF)
      && (other != addr ==> Read(st'.words, other, 1) == Read(st.words, other, 1))
  {
    var w := st.words[addr / 4];
    PutByteLanes(w, addr % 4, val);
    if other != addr && other < MEM_BYTES && other / 4 == addr / 4 {
      assert other % 4 != addr % 4;
    }
  }

  /** The low byte of a 32-bit value put into lane k is what lane k holds afterwards. */
  lemma PutLow0(w: bv32, b: bv32)
    ensures Lane(Put(w, 0, b), 0) == b & 0xFF
  {
  }

  lemma PutLow1(w: bv32, b: bv32)
    ensures Lane(Put(w, 1, b), 1) == b & 0xFF && Lane(Put(w, 1, b), 0) == Lane(w, 0) | ((b >> 8) & 0xFF)
  {
  }

  lemma PutLow2(w: bv32, b: bv32)
    ensures Lane(Put(w, 2, b), 2) == b & 0xFF && Lane(Put(w, 2, b), 3) == Lane(w, 3)
  {
  }

  lemma PutLow3(w: bv32, b: bv32)
    ensures Lane(Put(w, 3, b), 3) == b & 0xFF
  {
  }

  /** Lanes to the right of lane k (higher offsets) are untouched by a put into lane k. */
  lemma PutRight(w: bv32, k: nat, b: bv32, j: nat)
    requires k < j < 4
    ensures Lane(Put(w, k, b), j) == Lane(w, j)
  {
    if k == 0 { PutRight0(w, b); }
    else if k == 1 { PutRight1(w, b); }
    else { PutLow2(w, b); }
  }

  lemma PutRight0(w: bv32, b: bv32)
    ensures Lane(Put(w, 0, b), 1) == Lane(w, 1) && Lane(Put(w, 0, b), 2) == Lane(w, 2)
    ensures Lane(Put(w, 0, b), 3) == Lane(w, 3)
  {
  }

  lemma PutRight1(w: bv32, b: bv32)
    ensures Lane(Put(w, 1, b), 2) == Lane(w, 2) && Lane(Put(w, 1, b), 3) == Lane(w, 3)
  {
  }

  lemma Widen8(val: bv64)
    ensures Widen(Trunc(val) & 0xFF) == val & 0xFF
  {
  }

  /**
   * The byte store as written: its own lane gets the low byte of val, the
   * lanes to its right keep their bytes, and the lanes to its left are
   * ORed with the higher bytes of val.
   */
  lemma PutByteAsWrittenLanes(w: bv32, k: nat, val: bv64, j: nat)
    requires k < 4 && j < 4
    ensures j == k ==> Widen(Lane(PutByteAsWritten(w, k, val), j)) == val & 0xFF
    ensures k < j ==> Lane(PutByteAsWritten(w, k, val), j) == Lane(w, j)
  {
    PutAsWritten(w, k, val);
    Widen8(val);
    if k < j {
      PutRight(w, k, Trunc(val), j);
    } else if j == k {
      if k == 0 { PutLow0(w, Trunc(val)); }
      else if k == 1 { PutLow1(w, Trunc(val)); }
      else if k == 2 { PutLow2(w, Trunc(val)); }
      else { PutLow3(w, Trunc(val)); }
    }
  }

  /**
   * A byte written as the source writes it reads back as the low byte of
   * val; every byte of another word, and every byte at a higher offset in
   * the same word, reads as before; for a val below 256 every other byte
   * does.
   */
  lemma ByteWriteReadAsWritten(st: MemState, addr: Addr, val: bv64, other: Addr)
    requires addr < MEM_BYTES
    ensures var st' := WriteAsWritten(st, addr, 1, val).1;
      Read(st'.words, addr, 1) == Value(val & 0xFF)
      && (other != addr && (other / 4 != addr / 4 || other > addr || val < 256) ==>
            Read(st'.words, other, 1) == Read(st.words, other, 1))
  {
    var w := st.words[addr / 4];
    PutByteAsWrittenLanes(w, addr % 4, val, addr % 4);
    if other != addr && other < MEM_BYTES && other / 4 == addr / 4 {
      assert other % 4 != addr % 4;
      if other > addr {
        PutByteAsWrittenLanes(w, addr % 4, val, other % 4);
      } else if val < 256 {
        PutByteSmall(w, addr % 4, val);
        PutByteLanes(w, addr % 4, val);
      }
    }
  }

  /** A word written reads back as its low 32 bits, from any of its four addresses. */
  lemma WordWriteRead(st: MemState, addr: Addr, val: bv64, other: Addr)
    requires addr < MEM_BYTES && other < MEM_BYTES
    ensures var st' := Write(st, addr, 4, val).1;
      (other / 4 == addr / 4 ==> Read(st'.words, other, 4) == Value(val & 0xFFFF_FFFF))
      && (other / 4 != addr / 4 ==> Read(st'.words, other, 4) == Read(st.words, other, 4))
  {
  }

  /** The test bench's memory object. */
  class Memory {
    var words: array<bv32>
    var console: seq<bv64>
    var prefix: bool

    ghost predicate Valid()
      reads this, words
    {
      words.Length == MEM_WORDS && Good(State())
    }

    function State(): MemState
      requires words.Length == MEM_WORDS
      reads this, words
    {
      MemState(words[..], console, prefix)
    }

    /** The array holds the program image; the console is empty and the prefix is due. */
    constructor (image: Words)
      ensures Valid() && State() == MemState(image, [], true)
      ensures fresh(words)
    {
      words := new bv32[MEM_WORDS](i requires 0 <= i < MEM_WORDS => image[i]);
      console := [];
      prefix := true;
    }

    /** mem_read: for 8 bytes, eight byte reads accumulated into v. */
    method MemRead(addr: Addr, size: nat) returns (r: Access)
      requires Valid()
      ensures r == ReadAsWritten(words[..], addr, size)
      decreases if size == 8 then 1 else 0
    {
      if addr >= MEM_BYTES {
        return OutOfRange(addr);
      }
      var v := Widen(words[addr / 4]);
      if size == 1 {
        v := Widen(Lane(words[addr / 4], addr % 4));
      } else if size == 2 {
        if addr % 2 != 0 {
          return Abort;
        }
        if addr / 2 == 0 {
          v := (v >> 16) & 0xFFFF;
        } else if addr / 2 == 2 {
          v := v & 0xFFFF;
        } else {
          return Abort;
        }
      } else if size == 8 {
        ghost var read := Reader(words[..]);
        v := 0;
        var i := 0;
        while i < 8
          invariant 0 <= i <= 8
          invariant Concat(read, addr, i) == Value(v)
        {
          var b := MemRead(addr + i, 1);
          ReaderApply(words[..], addr + i);
          if b.Abort? {
            ConcatAborts(read, addr, i + 1, 8);
            return Abort;
          }
          ConcatStep(read, addr, i, addr + i, v, b.v);
          v := Push(v, b.v);
          i := i + 1;
        }
      }
      return Value(v);
    }

    /** mem_write: stores into the array, prints on the console port, exits on the exit port. */
    method MemWrite(addr: Addr, size: nat, val: bv64) returns (e: WriteEnd)
      requires Valid()
      modifies this, words
      ensures Valid() && words == old(words)
      ensures (e, State()) == WriteAsWritten(old(State()), addr, size, val)
    {
      WriteKeepsGood(State(), addr, size, val);
      if addr < MEM_BYTES {
        if size == 4 {
          words[addr / 4] := Trunc(val);
        } else if size == 1 {
          words[addr / 4] := PutByteAsWritten(words[addr / 4], addr % 4, val);
        } else {
          return Aborted;
        }
        return Stored;
      } else if addr == UTIL_PUTC {
        var c := val & 0xFF;
        if prefix {
          console := console + UTIL_PREFIX + [c];
        } else {
          console := console + [] + [c];
        }
        prefix := c == NEWLINE;
        return Stored;
      } else if addr == UTIL_EXIT {
        return Exited;
      }
      return Aborted;
    }

    /** mem_read_dbg: the same as mem_read. */
    method MemReadDbg(addr: Addr, size: nat) returns (r: Access)
      requires Valid()
      ensures r == ReadAsWritten(words[..], addr, size)
    {
      r := MemRead(addr, size);
    }

    /** mem_write_dbg: the same as mem_write. */
    method MemWriteDbg(addr: Addr, size: nat, val: bv64) returns (e: WriteEnd)
      requires Valid()
      modifies this, words
      ensures Valid() && words == old(words)
      ensures (e, State()) == WriteAsWritten(old(State()), addr, size, val)
    {
      e := MemWrite(addr, size, val);
    }
  }
}
