/** Levels, virtual addresses and their indices, and descriptor words. Words are
    natural numbers; the fields of a descriptor do not overlap, so composing them
    is a sum (DescriptorBits ties it to the bitwise or). */
module PageTable {
  import opened Arith

  // ---------- levels ----------

  datatype Level = L0 | L1 | L2 | L3

  const VA_SPAN: nat := 0x1_0000_0000_0000
  const GIB512: nat := 0x80_0000_0000
  const GIB: nat := 0x4000_0000
  const MIB2: nat := 0x20_0000
  const KIB4: nat := 0x1000

  function Depth(l: Level): nat {
    match l case L0 => 0 case L1 => 1 case L2 => 2 case L3 => 3
  }

  function Next(l: Level): Level
    requires l != L3
  {
    match l case L0 => L1 case L1 => L2 case L2 => L3
  }

  /** Bytes mapped by one entry of a table at this level, 2^index_shift. */
  function Span(l: Level): (n: nat)
    ensures n > 0
  {
    match l case L0 => GIB512 case L1 => GIB case L2 => MIB2 case L3 => KIB4
  }

  /** Bits [47:0] of a virtual address, which are all the walk looks at: one
      9-bit index per level and the offset in the page. */
  datatype VirtAddr = VirtAddr(i0: nat, i1: nat, i2: nat, i3: nat, low: nat)

  type Va = v: VirtAddr | v.i0 < 512 && v.i1 < 512 && v.i2 < 512 && v.i3 < 512 && v.low < 0x1000
    witness VirtAddr(0, 0, 0, 0, 0)

  /** The index of va at this level. */
  function IndexIn(l: Level, va: Va): (i: nat)
    ensures i < 512
  {
    match l case L0 => va.i0 case L1 => va.i1 case L2 => va.i2 case L3 => va.i3
  }

  /** The part of va below the index of this level. */
  function OffsetIn(l: Level, va: Va): nat {
    match l
    case L0 => va.i1 * GIB + va.i2 * MIB2 + va.i3 * KIB4 + va.low
    case L1 => va.i2 * MIB2 + va.i3 * KIB4 + va.low
    case L2 => va.i3 * KIB4 + va.low
    case L3 => va.low
  }

  /** Bits [47:0] as a number. */
  function Raw(va: Va): nat {
    va.i0 * GIB512 + OffsetIn(L0, va)
  }

  /** The shifts and masks of `index_in`. */
  function FromRaw(n: nat): Va {
    VirtAddr(n / GIB512 % 512, n / GIB % 512, n / MIB2 % 512, n / KIB4 % 512, n % KIB4)
  }

  /** The four indices and the offset tile bits [47:0]: no gap, no overlap. */
  lemma IndicesTile(n: nat)
    ensures Raw(FromRaw(n)) == n % VA_SPAN
  {
    DivDiv(n, GIB512, 512, VA_SPAN);
    DivDiv(n, GIB, 512, GIB512);
    DivDiv(n, MIB2, 512, GIB);
    DivDiv(n, KIB4, 512, MIB2);
    TopDigit(n, VA_SPAN, GIB512);
    TopDigit(n, GIB512, GIB);
    TopDigit(n, GIB, MIB2);
    TopDigit(n, MIB2, KIB4);
  }

  lemma TopDigit(n: nat, big: nat, small: nat)
    requires small > 0 && big > 0 && n % big % small == n % small
    ensures n % big == n % big / small * small + n % small
  {
  }

  /** An address is determined by its number. */
  lemma RawInjective(va: Va, vb: Va)
    requires Raw(va) == Raw(vb)
    ensures va == vb
  {
    OneDigit(va.i0, OffsetIn(L0, va), vb.i0, OffsetIn(L0, vb), GIB512);
    OneDigit(va.i1, OffsetIn(L1, va), vb.i1, OffsetIn(L1, vb), GIB);
    OneDigit(va.i2, OffsetIn(L2, va), vb.i2, OffsetIn(L2, vb), MIB2);
    OneDigit(va.i3, va.low, vb.i3, vb.low, KIB4);
  }

  lemma OneDigit(a: nat, x: nat, b: nat, y: nat, n: nat)
    requires x < n && y < n && a * n + x == b * n + y
    ensures a == b && x == y
  {
    DivModUnique(a * n + x, n, a, x);
    DivModUnique(a * n + x, n, b, y);
  }

  // ---------- descriptors ----------

  datatype Access = KernelReadWrite | KernelReadOnly | SharedReadWrite | SharedReadOnly
  datatype Executable = Kernel | User | Nobody
  datatype MemoryAttr = Normal | NormalNonCacheable | DeviceNGNRNE | DeviceNGNRE
  datatype Shareability = NonShareable | OuterShareable | InnerShareable
  datatype LeafAttrs = LeafAttrs(memory: MemoryAttr, access: Access, share: Shareability, execute: Executable)

  const PXN: nat := 0x20_0000_0000_0000
  const UXN: nat := 0x40_0000_0000_0000
  const AF: nat := 0x400

  function MemoryIndex(m: MemoryAttr): nat {
    match m case Normal => 0 case NormalNonCacheable => 1 case DeviceNGNRNE => 2 case DeviceNGNRE => 3
  }

  function AccessBits(a: Access): nat {
    match a
    case KernelReadWrite => 0
    case SharedReadWrite => 0x40
    case KernelReadOnly => 0x80
    case SharedReadOnly => 0xC0
  }

  function ShareBits(s: Shareability): nat {
    match s case NonShareable => 0 case OuterShareable => 2 case InnerShareable => 3
  }

  function ExecuteBits(e: Executable): nat {
    match e case Kernel => UXN case User => PXN case Nobody => PXN + UXN
  }

  function AttrBits(a: LeafAttrs): nat {
    MemoryIndex(a.memory) * 4 + AccessBits(a.access) + ShareBits(a.share) * 0x100 + ExecuteBits(a.execute) + AF
  }

  /** The output-address field, bits [47:12]. */
  function OutputAddr(w: nat): nat {
    w % VA_SPAN / 0x1000 * 0x1000
  }

  function TableEntry(next: nat): nat { OutputAddr(next) + 3 }
  function BlockEntry(pa: nat, a: LeafAttrs): nat { OutputAddr(pa) + AttrBits(a) + 1 }
  function PageEntry(pa: nat, a: LeafAttrs): nat { OutputAddr(pa) + AttrBits(a) + 3 }

  predicate IsValid(w: nat) { w % 2 == 1 }
  predicate IsTableOrPage(w: nat) { w % 4 == 3 }

  /** Everything of a leaf word but the address and the type. */
  function AttrField(w: nat): int { w - OutputAddr(w) - w % 4 }

  /** The fields of a word made of page number q, attribute bits and a type. */
  lemma WordFields(q: nat, low: nat, high: nat, kind: nat)
    requires q < 0x10_0000_0000 && low < 0x400 && kind < 4
    ensures var w := q * 0x1000 + low * 4 + kind + high * VA_SPAN;
      w % 4 == kind && w % 2 == kind % 2 && OutputAddr(w) == q * 0x1000
  {
    var w := q * 0x1000 + low * 4 + kind + high * VA_SPAN;
    DivModUnique(w, 4, q * 0x400 + low + high * 0x4000_0000_0000, kind);
    DivModUnique(w, 2, q * 0x800 + low * 2 + kind / 2 + high * 0x8000_0000_0000, kind % 2);
    DivModUnique(w, VA_SPAN, high, q * 0x1000 + low * 4 + kind);
    DivModUnique(q * 0x1000 + low * 4 + kind, 0x1000, q, low * 4 + kind);
  }

  lemma PageNumber(w: nat) returns (q: nat)
    ensures q < 0x10_0000_0000 && OutputAddr(w) == q * 0x1000
  {
    q := w % VA_SPAN / 0x1000;
  }

  lemma TableEntryDecodes(next: nat)
    ensures var w := TableEntry(next); IsValid(w) && IsTableOrPage(w) && OutputAddr(w) == OutputAddr(next)
  {
    var q := PageNumber(next);
    WordFields(q, 0, 0, 3);
  }

  /** What the hardware reads in a leaf. Bit 6 set: EL0 may access. Bit 7 clear: who
      may access may write. Bits 53 and 54 clear: EL1, EL0 may execute. Bits 4:2 name
      a slot of MAIR_EL1, bits 9:8 the shareability. */
  predicate UserAccessible(w: int) { w / 0x40 % 2 == 1 }
  predicate Writable(w: int) { w / 0x80 % 2 == 0 }
  predicate KernelExecutable(w: int) { w / 0x20_0000_0000_0000 % 2 == 0 }
  predicate UserExecutable(w: int) { w / 0x40_0000_0000_0000 % 2 == 0 }
  function MemorySlot(w: int): int { w / 4 % 8 }
  function ShareField(w: int): int { w / 0x100 % 4 }

  /** A leaf descriptor gives back its kind, its address and its attributes. */
  lemma LeafDecodes(pa: nat, a: LeafAttrs)
    ensures var w := BlockEntry(pa, a);
      IsValid(w) && !IsTableOrPage(w) && OutputAddr(w) == OutputAddr(pa) && AttrField(w) == AttrBits(a)
    ensures var w := PageEntry(pa, a);
      IsValid(w) && IsTableOrPage(w) && OutputAddr(w) == OutputAddr(pa) && AttrField(w) == AttrBits(a)
  {
    var q := PageNumber(pa);
    var low, high := AttrParts(a);
    WordFields(q, low, high, 1);
    WordFields(q, low, high, 3);
  }

  lemma AttrParts(a: LeafAttrs) returns (low: nat, high: nat)
    ensures low < 0x400 && AttrBits(a) == low * 4 + high * VA_SPAN
  {
    low := MemoryIndex(a.memory) + AccessBits(a.access) / 4 + ShareBits(a.share) * 0x40 + 0x100;
    high := match a.execute case Kernel => 64 case User => 32 case Nobody => 96;
  }

  lemma OutputAddrIdentity(pa: nat)
    requires pa % KIB4 == 0 && pa < VA_SPAN
    ensures OutputAddr(pa) == pa
  {
  }

  /** Who may do what with the memory, and of what kind it is. */
  ghost predicate Grants(w: int, a: LeafAttrs) {
    && (Writable(w) <==> a.access.KernelReadWrite? || a.access.SharedReadWrite?)
    && (UserAccessible(w) <==> a.access.SharedReadWrite? || a.access.SharedReadOnly?)
    && (KernelExecutable(w) <==> a.execute.Kernel?)
    && (UserExecutable(w) <==> a.execute.User?)
    && (MemorySlot(w) == 0 <==> a.memory.Normal?)
    && (MemorySlot(w) == 1 <==> a.memory.NormalNonCacheable?)
    && (MemorySlot(w) == 2 <==> a.memory.DeviceNGNRNE?)
    && (MemorySlot(w) == 3 <==> a.memory.DeviceNGNRE?)
    && (ShareField(w) == 0 <==> a.share.NonShareable?)
    && (ShareField(w) == 2 <==> a.share.OuterShareable?)
    && (ShareField(w) == 3 <==> a.share.InnerShareable?)
  }

  lemma PermissionsDecode(a: LeafAttrs)
    ensures Grants(AttrBits(a), a)
  {
    var m, p, s := MemoryIndex(a.memory), AccessBits(a.access) / 0x40, ShareBits(a.share);
    var x := match a.execute case Kernel => 2 case User => 1 case Nobody => 3;
    DigitsOfWord(AttrBits(a), 0, m, p, s, x, 0);
    DigitsGrant(AttrBits(a), a, m, p, s, x);
  }

  predicate HasDigits(w: nat, m: nat, p: nat, s: nat, x: nat) {
    && MemorySlot(w) == m && ShareField(w) == s && w / 0x40 % 2 == p % 2 && w / 0x80 % 2 == p / 2
    && w / 0x20_0000_0000_0000 % 2 == x % 2 && w / 0x40_0000_0000_0000 % 2 == x / 2
  }

  lemma DigitsGrant(w: nat, a: LeafAttrs, m: nat, p: nat, s: nat, x: nat)
    requires HasDigits(w, m, p, s, x) && m == MemoryIndex(a.memory) && s == ShareBits(a.share)
    requires p * 0x40 == AccessBits(a.access) && x * PXN == ExecuteBits(a.execute)
    ensures Grants(w, a)
  {
  }

  /** The fields of a word, digit by digit. */
  lemma DigitsOfWord(w: nat, q: nat, m: nat, p: nat, s: nat, x: nat, kind: nat)
    requires m < 8 && p < 4 && s < 4 && x < 4 && kind < 4 && q < 0x10_0000_0000
    requires w == x * PXN + q * 0x1000 + 0x400 + s * 0x100 + p * 0x40 + m * 4 + kind
    ensures HasDigits(w, m, p, s, x) && w / 0x400 % 2 == 1
  {
    Digit(w, 4, 8, kind, m, q * 0x80 + 0x20 + s * 8 + p * 2 + x * 0x1_0000_0000_0000);
    Digit(w, 0x40, 2, m * 4 + kind, p % 2, p / 2 + s * 2 + 8 + q * 0x20 + x * 0x4000_0000_0000);
    Digit(w, 0x80, 2, p % 2 * 0x40 + m * 4 + kind, p / 2, s + 4 + q * 0x10 + x * 0x2000_0000_0000);
    Digit(w, 0x100, 4, p * 0x40 + m * 4 + kind, s, q * 4 + 1 + x * 0x800_0000_0000);
    Digit(w, 0x400, 2, s * 0x100 + p * 0x40 + m * 4 + kind, 1, q * 2 + x * 0x400_0000_0000);
    var low := q * 0x1000 + 0x400 + s * 0x100 + p * 0x40 + m * 4 + kind;
    Digit(w, PXN, 2, low, x % 2, x / 2);
    Digit(w, UXN, 2, x % 2 * PXN + low, x / 2, 0);
  }

  /** The digit d of w between the digits below it and the rest above. */
  lemma Digit(w: nat, unit: nat, size: nat, below: nat, d: nat, above: nat)
    requires unit > 0 && size > 0 && below < unit && d < size && w == unit * (size * above + d) + below
    ensures w / unit % size == d
  {
    DivModUnique(w, unit, size * above + d, below);
    DivModUnique(size * above + d, size, above, d);
  }

  function LeafEntry(pa: nat, target: Level, a: LeafAttrs): nat {
    if target == L3 then PageEntry(pa, a) else BlockEntry(pa, a)
  }
}
