/** Descriptors as the code composes and takes them apart, with bitwise or and and,
    are the sums of fields that PageTable works with. */
module DescriptorBits {
  import opened Arith
  import opened Bits
  import opened Bitwise
  import opened PageTable

  const OUTPUT_ADDR_MASK: nat := 0x0000_FFFF_FFFF_F000

  function ExecuteWord(e: Executable): nat {
    match e case Kernel => UXN case User => PXN case Nobody => Or(PXN, UXN)
  }

  /** `LeafAttrs::bits`. */
  function AttrWord(a: LeafAttrs): nat {
    var low := Or(Or(MemoryIndex(a.memory) * 4, AccessBits(a.access)), ShareBits(a.share) * 0x100);
    Or(Or(low, ExecuteWord(a.execute)), AF)
  }

  /** `Entry::block` and `Entry::page`, by type. */
  function LeafWord(pa: nat, a: LeafAttrs, kind: nat): nat {
    Or(Or(And(pa, OUTPUT_ADDR_MASK), AttrWord(a)), kind)
  }

  lemma Powers()
    ensures IsPow2(1) && IsPow2(2) && IsPow2(4) && IsPow2(0x40)
    ensures IsPow2(0x100) && IsPow2(0x400) && IsPow2(0x800) && IsPow2(0x1000)
  {
    assert Pow2(0) == 1 && Pow2(1) == 2 && Pow2(2) == 4 && Pow2(6) == 0x40 && Pow2(8) == 0x100;
    assert Pow2(10) == 0x400 && Pow2(11) == 0x800 && Pow2(12) == 0x1000;
  }

  lemma HighPowers()
    ensures IsPow2(VA_SPAN) && IsPow2(UXN)
  {
    Powers();
    PowersTimes(0x1000, 0x1000, 0x100_0000);
    PowersTimes(0x100_0000, 0x100_0000, VA_SPAN);
    PowersTimes(VA_SPAN, 0x40, UXN);
  }

  lemma PowersTimes(a: nat, b: nat, c: nat)
    requires IsPow2(a) && IsPow2(b) && c == a * b
    ensures IsPow2(c)
  {
    var j: nat :| a == Pow2(j);
    var k: nat :| b == Pow2(k);
    Pow2Sum(j, k);
  }

  lemma ExecuteIsSum(e: Executable)
    ensures ExecuteWord(e) == ExecuteBits(e)
  {
    HighPowers();
    OrOfFields(PXN, UXN, UXN);
  }

  /** The attribute fields do not overlap. */
  lemma AttrWordIsSum(a: LeafAttrs)
    ensures AttrWord(a) == AttrBits(a)
  {
    var m, ac, sh, x := AttrDigits(a);
    ExecuteIsSum(a.execute);
    OrOfDigits(m, ac, sh, x);
  }

  lemma OrOfDigits(m: nat, ac: nat, sh: nat, x: nat)
    requires m < 8 && ac < 4 && sh < 4
    ensures Or(Or(Or(Or(m * 4, ac * 0x40), sh * 0x100), x * PXN), AF) == m * 4 + ac * 0x40 + sh * 0x100 + AF + x * PXN
  {
    OrOfLow(m, ac, sh);
    OrOfHigh(m * 4 + ac * 0x40 + sh * 0x100, x * PXN, x);
  }

  lemma OrOfLow(m: nat, ac: nat, sh: nat)
    requires m < 8 && ac < 4 && sh < 4
    ensures Or(Or(m * 4, ac * 0x40), sh * 0x100) == m * 4 + ac * 0x40 + sh * 0x100
  {
    Powers();
    Multiple(ac * 0x40, 0x40, ac);
    OrOfFields(m * 4, ac * 0x40, 0x40);
    Multiple(sh * 0x100, 0x100, sh);
    OrOfFields(m * 4 + ac * 0x40, sh * 0x100, 0x100);
  }

  lemma OrOfHigh(low: nat, high: nat, x: nat)
    requires low < 0x400 && high == x * PXN
    ensures Or(Or(low, high), AF) == low + AF + high
  {
    Powers();
    Multiple(high, 0x400, x * 0x800_0000_0000);
    Multiple(high, 0x800, x * 0x400_0000_0000);
    OrOfFields(low, high, 0x400);
    OrOfGap(low, high, AF, 0x400, 0x800);
  }

  lemma Multiple(n: nat, m: nat, c: nat)
    requires m > 0 && n == m * c
    ensures n % m == 0
  {
    MultipleMod(m, c);
  }

  /** Masking gives the output address. */
  lemma MaskIsOutputAddr(w: nat)
    ensures And(w, OUTPUT_ADDR_MASK) == OutputAddr(w)
  {
    Powers();
    HighPowers();
    AndOfMask(w, 0x1000, VA_SPAN);
    DivDiv(w, 0x1000, 0x10_0000_0000, VA_SPAN);
  }

  lemma ThreeFields(q: nat, low: nat, x: nat, kind: nat)
    requires q < 0x10_0000_0000 && low < 0x400 && kind < 4
    ensures Or(Or(q * 0x1000, low * 4 + x * PXN), kind) == q * 0x1000 + (low * 4 + x * PXN) + kind
  {
    Powers();
    HighPowers();
    Multiple(q * 0x1000, 0x1000, q);
    Multiple(x * PXN, VA_SPAN, x * 32);
    OrOfGap(low * 4, x * PXN, q * 0x1000, 0x1000, VA_SPAN);
    Multiple(low * 4 + q * 0x1000 + x * PXN, 4, low + q * 0x400 + x * 0x8_0000_0000_0000);
    OrOfFields(kind, low * 4 + q * 0x1000 + x * PXN, 4);
  }

  /** The fields of the attributes as digits. */
  lemma AttrDigits(a: LeafAttrs) returns (m: nat, ac: nat, sh: nat, x: nat)
    ensures m < 8 && ac < 4 && sh < 4 && x < 4
    ensures MemoryIndex(a.memory) == m && AccessBits(a.access) == ac * 0x40 && ShareBits(a.share) == sh
    ensures ExecuteBits(a.execute) == x * PXN && AttrBits(a) == m * 4 + ac * 0x40 + sh * 0x100 + AF + x * PXN
  {
    m, ac, sh := MemoryIndex(a.memory), AccessBits(a.access) / 0x40, ShareBits(a.share);
    x := match a.execute case Kernel => 2 case User => 1 case Nobody => 3;
  }

  /** A leaf descriptor is its address, its attributes and its type added up. */
  lemma LeafWordIsSum(pa: nat, a: LeafAttrs, kind: nat)
    requires kind < 4
    ensures LeafWord(pa, a, kind) == OutputAddr(pa) + AttrBits(a) + kind
  {
    var m, ac, sh, x := AttrDigits(a);
    var q := PageNumber(pa);
    MaskIsOutputAddr(pa);
    AttrWordIsSum(a);
    ThreeFields(q, m + ac * 0x10 + sh * 0x40 + 0x100, x, kind);
  }

  lemma TypeBits(w: nat)
    ensures And(w, 1) == w % 2 && And(w, 3) == w % 4
  {
    Powers();
    AndOfMask(w, 1, 2);
    AndOfMask(w, 1, 4);
  }

  lemma TableWordIsSum(next: nat)
    ensures Or(And(next, OUTPUT_ADDR_MASK), 3) == TableEntry(next)
  {
    Powers();
    MaskIsOutputAddr(next);
    var q := PageNumber(next);
    Multiple(q * 0x1000, 4, q * 0x400);
    OrOfFields(3, q * 0x1000, 4);
  }

  /** The words the code builds and the questions it asks of them are those of
      PageTable. */
  lemma WordsAgree(pa: nat, a: LeafAttrs, w: nat)
    ensures LeafWord(pa, a, 1) == BlockEntry(pa, a) && LeafWord(pa, a, 3) == PageEntry(pa, a)
    ensures Or(And(pa, OUTPUT_ADDR_MASK), 3) == TableEntry(pa)
    ensures (And(w, 1) != 0 <==> IsValid(w)) && (And(w, 3) == 3 <==> IsTableOrPage(w))
    ensures And(w, OUTPUT_ADDR_MASK) == OutputAddr(w)
  {
    LeafWordIsSum(pa, a, 1);
    LeafWordIsSum(pa, a, 3);
    TableWordIsSum(pa);
    TypeBits(w);
    MaskIsOutputAddr(w);
  }

  /** A leaf descriptor says of the memory what its attributes say: who may access,
      write and execute, and the kind of memory; with the access flag set, and the
      type and the address put in. */
  lemma FieldsReadBack(pa: nat, a: LeafAttrs, kind: nat, w: nat)
    requires kind < 4 && w == LeafWord(pa, a, kind)
    ensures w % 4 == kind && OutputAddr(w) == OutputAddr(pa) && w / 0x400 % 2 == 1 && Grants(w, a)
  {
    LeafWordIsSum(pa, a, kind);
    var q := PageNumber(pa);
    var m, ac, sh, x := AttrDigits(a);
    DigitsReadBack(w, q, m, ac, sh, x, kind);
    DigitsGrant(w, a, m, ac, sh, x);
  }

  lemma DigitsReadBack(w: nat, q: nat, m: nat, ac: nat, sh: nat, x: nat, kind: nat)
    requires q < 0x10_0000_0000 && m < 8 && ac < 4 && sh < 4 && x < 4 && kind < 4
    requires w == q * 0x1000 + (m * 4 + ac * 0x40 + sh * 0x100 + AF + x * PXN) + kind
    ensures w % 4 == kind && OutputAddr(w) == q * 0x1000 && w / 0x400 % 2 == 1 && HasDigits(w, m, ac, sh, x)
  {
    WordFields(q, 0x100 + sh * 0x40 + ac * 0x10 + m, x * 32, kind);
    DigitsOfWord(w, q, m, ac, sh, x, kind);
  }
}
