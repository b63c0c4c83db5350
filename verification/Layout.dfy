/** The kernel address-space layout, and the arithmetic that ties the linear,
    image and device windows to the slots of the translation tables. */
module Layout {
  import opened Arith
  import opened PageTable
  import opened PageMap
  import opened AddressSpace

  const KERNEL_LINEAR_BASE: nat := 0xFFFF_8000_0000_0000
  const KERNEL_DEVICE_BASE: nat := 0xFFFF_C000_0000_0000
  const KERNEL_IMAGE_BASE: nat := 0xFFFF_FFFF_8000_0000
  const IMAGE_PA_BASE: nat := 0x4000_0000
  const VA_END: nat := 0x1_0000_0000_0000_0000

  /** Size of the linear window, [LINEAR_BASE, DEVICE_BASE). */
  const LINEAR_SPAN: nat := 0x4000_0000_0000
  const UPPER_HALF: nat := 0x8000_0000_0000

  function PaToLinearVa(pa: nat): nat { pa + KERNEL_LINEAR_BASE }
  function PaToDeviceVa(pa: nat): nat { pa + KERNEL_DEVICE_BASE }

  function LinearVaToPa(va: nat): (pa: nat)
    requires KERNEL_LINEAR_BASE <= va < KERNEL_DEVICE_BASE
    ensures pa < LINEAR_SPAN && PaToLinearVa(pa) == va
  {
    va - KERNEL_LINEAR_BASE
  }

  function ImageVaToPa(va: nat): nat
    requires va >= KERNEL_IMAGE_BASE
  {
    va - KERNEL_IMAGE_BASE + IMAGE_PA_BASE
  }

  /** Bits [47:0] of an address, counted from the start of the upper half: for
      an address of the linear window, the physical address it stands for. */
  function Offset(va: Va): int {
    Raw(va) - UPPER_HALF
  }

  /** The upper-half address at this offset. */
  function UpperVa(offset: nat): Va {
    FromRaw(offset + KERNEL_LINEAR_BASE)
  }

  lemma OffsetOf(offset: nat)
    requires offset < UPPER_HALF
    ensures Offset(UpperVa(offset)) == offset
  {
    IndicesTile(offset + KERNEL_LINEAR_BASE);
    DivModUnique(offset + KERNEL_LINEAR_BASE, VA_SPAN, 0xFFFF, offset + UPPER_HALF);
  }

  /** The indices down to this level, read as one number. */
  function Slot(l: Level, va: Va): nat {
    match l
    case L0 => va.i0
    case L1 => va.i0 * 512 + va.i1
    case L2 => (va.i0 * 512 + va.i1) * 512 + va.i2
    case L3 => ((va.i0 * 512 + va.i1) * 512 + va.i2) * 512 + va.i3
  }

  lemma RawSplits(l: Level, va: Va)
    ensures Raw(va) == Slot(l, va) * Span(l) + OffsetIn(l, va) && OffsetIn(l, va) < Span(l)
  {
  }

  lemma SlotIsSlot(l: Level, va: Va, vb: Va)
    ensures SameSlot(l, va, vb) <==> Slot(l, va) == Slot(l, vb)
  {
    if Slot(l, va) == Slot(l, vb) {
      if l == L3 { OneDigit(Slot(L2, va), va.i3, Slot(L2, vb), vb.i3, 512); }
      if l == L3 || l == L2 { OneDigit(Slot(L1, va), va.i2, Slot(L1, vb), vb.i2, 512); }
      if l != L0 { OneDigit(va.i0, va.i1, vb.i0, vb.i1, 512); }
    }
  }

  lemma SlotOfAligned(l: Level, base: nat)
    requires l != L0 && base % Span(l) == 0 && base < UPPER_HALF
    ensures Slot(l, UpperVa(base)) * Span(l) == base + UPPER_HALF
  {
    var b := UpperVa(base);
    OffsetOf(base);
    RawSplits(l, b);
    var q := UpperQuotient(l, base);
    OneDigit(Slot(l, b), OffsetIn(l, b), q, 0, Span(l));
  }

  lemma UpperQuotient(l: Level, base: nat) returns (q: nat)
    requires l != L0 && base % Span(l) == 0
    ensures q * Span(l) == base + UPPER_HALF
  {
    match l
    case L1 => q := base / GIB + 0x2_0000;
    case L2 => q := base / MIB2 + 0x400_0000;
    case L3 => q := base / KIB4 + 0x8_0000_0000;
  }

  /** The addresses in the slot of an aligned upper-half address. */
  lemma SlotIsInterval(l: Level, base: nat, va: Va)
    requires l != L0 && base % Span(l) == 0 && base < UPPER_HALF
    ensures SameSlot(l, UpperVa(base), va) <==> base <= Offset(va) < base + Span(l)
    ensures SameSlot(l, UpperVa(base), va) ==> OffsetIn(l, va) == Offset(va) - base
  {
    SlotIsSlot(l, UpperVa(base), va);
    SlotOfAligned(l, base);
    RawSplits(l, va);
    if base <= Offset(va) < base + Span(l) {
      OneDigit(Slot(l, va), OffsetIn(l, va), Slot(l, UpperVa(base)), Offset(va) - base, Span(l));
    }
  }

  /** A leaf at an aligned physical address keeps the offset inside the leaf. */
  lemma MappingOffset(pa: nat, l: Level, attrs: LeafAttrs, va: Va)
    requires l != L0 && pa % Span(l) == 0 && pa + Span(l) <= VA_SPAN
    ensures Mapping(pa, l, attrs, va).pa == pa + OffsetIn(l, va)
  {
    assert pa % KIB4 == 0 by {
      match l
      case L1 => DivDiv(pa, KIB4, 0x4_0000, GIB);
      case L2 => DivDiv(pa, KIB4, 0x200, MIB2);
      case L3 =>
    }
    OutputAddrIdentity(pa);
    DivModUnique(pa, Span(l), pa / Span(l), 0);
  }
}
