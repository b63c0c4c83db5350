/** The finished kernel map: what is where, and what the hardware lets each level do
    with it. */
module KernelView {
  import opened Arith
  import opened Wrappers
  import opened PageTable
  import opened PageWalk
  import opened PageMap
  import opened AddressSpace
  import opened Layout
  import opened KernelMap
  import opened KernelBuild
  import opened KernelImage
  import opened KernelLinear

  const TEXT_ATTRS := LeafAttrs(Normal, KernelReadOnly, InnerShareable, Kernel)
  const RODATA_ATTRS := LeafAttrs(Normal, KernelReadOnly, InnerShareable, Nobody)
  const DATA_ATTRS := LeafAttrs(Normal, KernelReadWrite, InnerShareable, Nobody)
  const DEVICE_ATTRS := LeafAttrs(DeviceNGNRE, KernelReadWrite, NonShareable, Nobody)
  const UART_PA: nat := 0x0900_0000
  const UART_OFFSET: nat := LINEAR_SPAN + UART_PA

  /** The linker's section bounds. */
  datatype ImageLayout = ImageLayout(textStart: nat, textEnd: nat, rodataStart: nat, rodataEnd: nat,
                                     dataStart: nat, dataEnd: nat, bssStart: nat, bssEnd: nat,
                                     stackBottom: nat, stackTop: nat)

  function Sections(l: ImageLayout): seq<Section> {
    [Section(l.textStart, l.textEnd, TEXT_ATTRS), Section(l.rodataStart, l.rodataEnd, RODATA_ATTRS),
     Section(l.dataStart, l.dataEnd, DATA_ATTRS), Section(l.bssStart, l.bssEnd, DATA_ATTRS),
     Section(l.stackBottom, l.stackTop, DATA_ATTRS)]
  }

  ghost predicate InSomeSection(sections: seq<Section>, offset: int)
    requires SectionsOk(sections)
  {
    exists i :: 0 <= i < |sections| && InSection(sections[i], offset)
  }

  /** The finished map: all RAM at its linear address, each section of the image
      at its own address with its own attributes, the UART in the device window,
      nothing else, and no address both writable and executable by the kernel. */
  ghost predicate KernelMapped(now: Tables, root: nat, regions: seq<Region>, sections: seq<Section>)
    requires SectionsOk(sections)
  {
    && WriteXorExecute(now, root)
    && forall va: Va :: AddressMapped(Walk(now, root, L0, va), Offset(va), regions, sections)
  }

  ghost predicate AddressMapped(x: Option<Xlat>, p: int, regions: seq<Region>, sections: seq<Section>)
    requires SectionsOk(sections)
  {
    && (InRam(regions, p) ==> Translates(x, p, LINEAR_RAM))
    && (forall i: nat :: LastOver(sections, i, p) ==> Translates(x, p + IMAGE_DELTA, sections[i].attrs))
    && (UART_OFFSET <= p < UART_OFFSET + KIB4 ==> Translates(x, p - UART_OFFSET + UART_PA, DEVICE_ATTRS))
    && (x.Some? ==> InRam(regions, p) || InSomeSection(sections, p) || UART_OFFSET <= p < UART_OFFSET + KIB4)
  }

  // ---------- what the hardware sees ----------

  function StepTo(start: nat, k: nat): nat { start + k * 0x1000 }

  /** Stepping by pages from start and staying below end meets the page of n. */
  ghost predicate Stepped(start: nat, end: nat, n: nat) {
    exists k: nat :: StepTo(start, k) < end && StepTo(start, k) / 0x1000 == n / 0x1000
  }

  lemma SteppedIsIn(s: Section, n: nat)
    requires SectionOk(s) && KERNEL_LINEAR_BASE <= n
    ensures Stepped(s.start, s.end, n) <==> InSection(s, n - KERNEL_LINEAR_BASE)
  {
    forall k: nat | StepTo(s.start, k) < s.end && StepTo(s.start, k) / 0x1000 == n / 0x1000
      ensures InSection(s, n - KERNEL_LINEAR_BASE)
    {
      StepIsIn(s, n, k);
    }
    if InSection(s, n - KERNEL_LINEAR_BASE) {
      var k: nat := n / 0x1000 - s.start / 0x1000;
      assert StepTo(s.start, k) < s.end && StepTo(s.start, k) / 0x1000 == n / 0x1000;
    }
  }

  lemma StepIsIn(s: Section, n: nat, k: nat)
    requires SectionOk(s) && KERNEL_LINEAR_BASE <= n
    requires StepTo(s.start, k) < s.end && StepTo(s.start, k) / 0x1000 == n / 0x1000
    ensures InSection(s, n - KERNEL_LINEAR_BASE)
  {
    assert StepTo(s.start, k) / 0x1000 == s.start / 0x1000 + k;
  }

  /** The address leads to pa: EL1 may read it, and write or execute as said; EL0 may
      do nothing; slot and share are those of its memory type. */
  ghost predicate Allows(x: Option<Xlat>, pa: int, write: bool, execute: bool, slot: int, share: int) {
    && x.Some? && x.value.pa == pa
    && (Writable(x.value.attrs) <==> write) && (KernelExecutable(x.value.attrs) <==> execute)
    && !UserAccessible(x.value.attrs) && !UserExecutable(x.value.attrs)
    && MemorySlot(x.value.attrs) == slot && ShareField(x.value.attrs) == share
  }

  /** What an upper-half address must be, from the device tree's regions and the
      linker's bounds alone. */
  ghost predicate Promised(x: Option<Xlat>, n: int, regions: seq<Region>, l: ImageLayout)
    requires n >= 0
  {
    var image := n - 0xFFFF_FFFF_8000_0000 + 0x4000_0000;
    if InRam(regions, n - 0xFFFF_8000_0000_0000) then Allows(x, n - 0xFFFF_8000_0000_0000, true, false, 0, 3)
    else if 0xFFFF_C000_0900_0000 <= n < 0xFFFF_C000_0900_1000 then
      Allows(x, n - 0xFFFF_C000_0000_0000, true, false, 3, 0)
    else if Stepped(l.dataStart, l.dataEnd, n) || Stepped(l.bssStart, l.bssEnd, n)
      || Stepped(l.stackBottom, l.stackTop, n) then
      Allows(x, image, true, false, 0, 3)
    else if Stepped(l.rodataStart, l.rodataEnd, n) then Allows(x, image, false, false, 0, 3)
    else if Stepped(l.textStart, l.textEnd, n) then Allows(x, image, false, true, 0, 3)
    else x.None?
  }

  /** Every address of the upper half is as promised, and none of the lower half is
      mapped. */
  ghost predicate AsLaidOut(now: Tables, root: nat, regions: seq<Region>, l: ImageLayout) {
    && (forall n: nat :: 0xFFFF_8000_0000_0000 <= n < 0x1_0000_0000_0000_0000 ==>
          Promised(Walk(now, root, L0, FromRaw(n)), n, regions, l))
    && (forall n: nat :: n < 0x8000_0000_0000 ==> Walk(now, root, L0, FromRaw(n)).None?)
  }

  lemma AllowsAs(x: Option<Xlat>, pa: int, a: LeafAttrs)
    requires Translates(x, pa, a) && a.access != SharedReadWrite && a.access != SharedReadOnly && a.execute != User
    requires a.memory == Normal || a.memory == DeviceNGNRE
    requires a.share == NonShareable || a.share == InnerShareable
    ensures Allows(x, pa, a.access == KernelReadWrite, a.execute == Kernel, if a.memory == Normal then 0 else 3,
                   if a.share == NonShareable then 0 else 3)
  {
    PermissionsDecode(a);
  }

  /** The finished map is what regions and bounds promise. */
  lemma MappedAsLaidOut(now: Tables, root: nat, regions: seq<Region>, l: ImageLayout)
    requires RegionsOk(regions) && SectionsOk(Sections(l)) && KernelMapped(now, root, regions, Sections(l))
    ensures AsLaidOut(now, root, regions, l)
  {
    forall n: nat | 0xFFFF_8000_0000_0000 <= n < 0x1_0000_0000_0000_0000
      ensures Promised(Walk(now, root, L0, FromRaw(n)), n, regions, l)
    {
      AddressAsPromised(now, root, regions, l, n);
    }
    forall n: nat | n < 0x8000_0000_0000
      ensures Walk(now, root, L0, FromRaw(n)).None?
    {
      LowerHalf(n);
    }
  }

  lemma LowerHalf(n: nat)
    requires n < UPPER_HALF
    ensures Offset(FromRaw(n)) < 0
  {
    IndicesTile(n);
    DivModUnique(n, VA_SPAN, 0, n);
  }

  lemma AddressAsPromised(now: Tables, root: nat, regions: seq<Region>, l: ImageLayout, n: nat)
    requires RegionsOk(regions) && SectionsOk(Sections(l)) && KernelMapped(now, root, regions, Sections(l))
    requires KERNEL_LINEAR_BASE <= n < VA_END
    ensures Promised(Walk(now, root, L0, FromRaw(n)), n, regions, l)
  {
    var p, x := n - KERNEL_LINEAR_BASE, Walk(now, root, L0, FromRaw(n));
    OffsetOf(p);
    assert FromRaw(n) == UpperVa(p);
    if InRam(regions, p) {
      AllowsAs(x, p, LINEAR_RAM);
    } else if UART_OFFSET <= p < UART_OFFSET + KIB4 {
      AllowsAs(x, p - UART_OFFSET + UART_PA, DEVICE_ATTRS);
    } else {
      ImageAsPromised(x, l, n);
    }
  }

  /** Of the sections over an address the last one counts: data, bss and stack come
      after rodata, and that after text. */
  lemma ImageAsPromised(x: Option<Xlat>, l: ImageLayout, n: nat)
    requires SectionsOk(Sections(l)) && KERNEL_LINEAR_BASE <= n
    requires var p := n - KERNEL_LINEAR_BASE;
      && (forall i: nat :: LastOver(Sections(l), i, p) ==> Translates(x, p + IMAGE_DELTA, Sections(l)[i].attrs))
      && (x.Some? ==> InSomeSection(Sections(l), p))
    ensures var image := n - 0xFFFF_FFFF_8000_0000 + 0x4000_0000;
      if Stepped(l.dataStart, l.dataEnd, n) || Stepped(l.bssStart, l.bssEnd, n)
        || Stepped(l.stackBottom, l.stackTop, n) then Allows(x, image, true, false, 0, 3)
      else if Stepped(l.rodataStart, l.rodataEnd, n) then Allows(x, image, false, false, 0, 3)
      else if Stepped(l.textStart, l.textEnd, n) then Allows(x, image, false, true, 0, 3)
      else x.None?
  {
    var p, s := n - KERNEL_LINEAR_BASE, Sections(l);
    SteppedIsIn(s[0], n);
    SteppedIsIn(s[1], n);
    SteppedIsIn(s[2], n);
    SteppedIsIn(s[3], n);
    SteppedIsIn(s[4], n);
    if InSomeSection(s, p) {
      var j := LastSection(s, p);
      AllowsAs(x, p + IMAGE_DELTA, s[j].attrs);
    }
  }

  lemma LastSection(s: seq<Section>, p: int) returns (j: nat)
    requires |s| == 5 && SectionsOk(s) && InSomeSection(s, p)
    ensures LastOver(s, j, p)
    ensures j == 4 <==> InSection(s[4], p)
    ensures j == 3 <==> InSection(s[3], p) && !InSection(s[4], p)
    ensures j == 2 <==> InSection(s[2], p) && !InSection(s[3], p) && !InSection(s[4], p)
    ensures j == 1 ==> InSection(s[1], p)
    ensures j == 0 ==> InSection(s[0], p) && !InSection(s[1], p)
  {
    var k :| 0 <= k < |s| && InSection(s[k], p);
    j := SomeLast(s, k, p);
  }

  // ---------- the image seen through the linear map ----------

  /** An address through which the kernel may write to pa. */
  ghost predicate WritesTo(now: Tables, root: nat, va: Va, pa: int) {
    var x := Walk(now, root, L0, va);
    x.Some? && x.value.pa == pa && Writable(x.value.attrs)
  }

  /** Writable xor executable holds address by address, not frame by frame: a byte
      of a read-only section can be written through another address exactly when
      it lies in RAM, which the linear map covers. */
  lemma ReadOnlyAlias(now: Tables, root: nat, regions: seq<Region>, sections: seq<Section>, i: nat, va: Va)
    requires RegionsOk(regions) && SectionsOk(sections) && KernelMapped(now, root, regions, sections)
    requires LastOver(sections, i, Offset(va)) && sections[i].attrs.access == KernelReadOnly
    ensures var pa := Offset(va) + IMAGE_DELTA;
      (exists vb: Va :: WritesTo(now, root, vb, pa)) <==> InRam(regions, pa)
  {
    var pa := Offset(va) + IMAGE_DELTA;
    if InRam(regions, pa) {
      OffsetOf(pa);
      assert Translates(Walk(now, root, L0, UpperVa(pa)), pa, LINEAR_RAM);
      PermissionsDecode(LINEAR_RAM);
      assert WritesTo(now, root, UpperVa(pa), pa);
    }
    forall vb: Va | WritesTo(now, root, vb, pa)
      ensures InRam(regions, pa)
    {
      OnlyRamWrites(now, root, regions, sections, i, va, vb);
    }
  }

  lemma OnlyRamWrites(now: Tables, root: nat, regions: seq<Region>, sections: seq<Section>, i: nat, va: Va, vb: Va)
    requires RegionsOk(regions) && SectionsOk(sections) && KernelMapped(now, root, regions, sections)
    requires LastOver(sections, i, Offset(va)) && sections[i].attrs.access == KernelReadOnly
    requires WritesTo(now, root, vb, Offset(va) + IMAGE_DELTA)
    ensures InRam(regions, Offset(va) + IMAGE_DELTA)
  {
    var p := Offset(vb);
    if InSomeSection(sections, p) {
      var k :| 0 <= k < |sections| && InSection(sections[k], p);
      var j := SomeLast(sections, k, p);
      SameByte(now, root, regions, sections, i, j, va, vb);
    }
  }

  /** The image has one address for each byte: the read-only one. */
  lemma SameByte(now: Tables, root: nat, regions: seq<Region>, sections: seq<Section>, i: nat, j: nat, va: Va, vb: Va)
    requires SectionsOk(sections) && KernelMapped(now, root, regions, sections)
    requires LastOver(sections, i, Offset(va)) && LastOver(sections, j, Offset(vb))
    requires sections[i].attrs.access == KernelReadOnly
    ensures !WritesTo(now, root, vb, Offset(va) + IMAGE_DELTA)
  {
    PermissionsDecode(sections[i].attrs);
    assert Translates(Walk(now, root, L0, vb), Offset(vb) + IMAGE_DELTA, sections[j].attrs);
  }
}
