/** The boot path of `kmain`: from the memory map of the device tree to a buddy
    allocator that owns every frame nobody else holds. */
module Boot {
  import opened Wrappers
  import opened BuddyModel
  import opened BuddySteps
  import opened BuddyFrames
  import opened BuddyTheorems
  import opened BuddyCarve
  import opened BuddyRuns
  import opened MemMap
  import opened Buddy
  import opened BootMem
  import opened BootAllocator
  import opened HandOff

  const PHYS_LOAD_BASE: nat := 0x4008_0000

  // ---------- the boot allocator ----------

  /** One `memory` range of the device tree, in bytes. */
  datatype Ram = Ram(base: nat, size: nat)

  function RegionsOf(r: Ram): seq<Region> {
    FramesInside(r.base, r.base + r.size)
  }

  /** The RAM regions: one for each range that holds a whole frame. */
  function RamRegions(ram: seq<Ram>): seq<Region> {
    if ram == [] then [] else RamRegions(ram[..|ram| - 1]) + RegionsOf(ram[|ram| - 1])
  }

  lemma RamRegionsNext(ram: seq<Ram>, i: nat)
    requires i < |ram|
    ensures RamRegions(ram[..i + 1]) == RamRegions(ram[..i]) + RegionsOf(ram[i])
  {
    assert ram[..i + 1][..i] == ram[..i];
  }

  /** All bytes of the frame lie in the range. */
  predicate WhollyIn(r: Ram, f: nat) {
    r.base <= f * PAGE_SIZE && (f + 1) * PAGE_SIZE <= r.base + r.size
  }

  ghost predicate IsRam(ram: seq<Ram>, f: nat) {
    exists i :: 0 <= i < |ram| && WhollyIn(ram[i], f)
  }

  lemma {:induction false} RamRegionsExact(ram: seq<Ram>, f: nat)
    ensures InSome(f, RamRegions(ram)) <==> IsRam(ram, f)
  {
    if ram != [] {
      var n := |ram| - 1;
      RamRegionsExact(ram[..n], f);
      InSomeConcat(f, RamRegions(ram[..n]), RegionsOf(ram[n]));
      IsRamLast(ram, f);
    }
  }

  lemma IsRamLast(ram: seq<Ram>, f: nat)
    requires ram != []
    ensures var n := |ram| - 1; IsRam(ram, f) <==> IsRam(ram[..n], f) || WhollyIn(ram[n], f)
  {
  }

  /** Bytes [lo, hi) have a byte in the frame. */
  predicate Touches(lo: nat, hi: nat, f: nat) {
    f * PAGE_SIZE < hi && lo < (f + 1) * PAGE_SIZE
  }

  /** The reservations made before the hand-off: the image and the device tree. */
  function BootReserved(imageEnd: nat, dtb: nat, dtbSize: nat): seq<Region>
    requires PHYS_LOAD_BASE < imageEnd
  {
    Insert(Insert([], FramesTouched(PHYS_LOAD_BASE, imageEnd)), FramesTouched(dtb, dtb + dtbSize))
  }

  predicate AddressesFit(ram: seq<Ram>, imageEnd: nat, dtb: nat, dtbSize: nat) {
    && (forall i :: 0 <= i < |ram| ==> ram[i].base + ram[i].size <= 0xFFFF_FFFF * PAGE_SIZE)
    && PHYS_LOAD_BASE < imageEnd <= 0xFFFF_FFFF * PAGE_SIZE
    && dtbSize > 0 && dtb + dtbSize <= 0xFFFF_FFFF * PAGE_SIZE
  }

  /** False stands for the panic when more than 128 RAM regions are found. */
  method BuildBootMem(ram: seq<Ram>, imageEnd: nat, dtb: nat, dtbSize: nat) returns (boot: BootMemory, ok: bool)
    requires AddressesFit(ram, imageEnd, dtb, dtbSize)
    ensures fresh(boot) && fresh(boot.memory) && fresh(boot.reserved) && boot.Valid()
    ensures ok == (|RamRegions(ram)| <= 128)
    ensures ok ==>
      && boot.Memory() == RamRegions(ram)
      && boot.Reserved() == BootReserved(imageEnd, dtb, dtbSize) && boot.nReserved == 2
  {
    boot := new BootMemory();
    ok := RegisterRam(boot, ram);
    if ok { ReserveAtBoot(boot, imageEnd, dtb, dtbSize); }
  }

  method ReserveAtBoot(boot: BootMemory, imageEnd: nat, dtb: nat, dtbSize: nat)
    requires boot.Valid() && boot.Reserved() == [] && AddressesFit([], imageEnd, dtb, dtbSize)
    modifies boot`nReserved, boot.reserved
    ensures boot.Valid() && boot.Memory() == old(boot.Memory()) && boot.nReserved == 2
    ensures boot.Reserved() == BootReserved(imageEnd, dtb, dtbSize)
  {
    ReserveRange(boot, PHYS_LOAD_BASE, imageEnd);
    ReserveRange(boot, dtb, dtb + dtbSize);
  }

  method ReserveRange(boot: BootMemory, lo: nat, hi: nat)
    requires boot.Valid() && lo < hi <= 0xFFFF_FFFF * PAGE_SIZE && boot.nReserved < NR_REGIONS
    modifies boot`nReserved, boot.reserved
    ensures boot.Valid() && boot.Memory() == old(boot.Memory()) && boot.nReserved == old(boot.nReserved) + 1
    ensures boot.Reserved() == Insert(old(boot.Reserved()), FramesTouched(lo, hi))
  {
    TouchesSome(lo, hi);
    InsertContents(boot.Reserved(), FramesTouched(lo, hi));
    var ok := boot.ReserveBytes(lo, hi);
  }

  lemma TouchesSome(lo: nat, hi: nat)
    requires lo < hi
    ensures FramesTouched(lo, hi).frames >= 1
  {
  }

  method RegisterRange(boot: BootMemory, r: Ram) returns (ok: bool)
    requires boot.Valid() && r.base + r.size <= 0xFFFF_FFFF * PAGE_SIZE
    modifies boot`nMemory, boot.memory
    ensures boot.Valid() && boot.Reserved() == old(boot.Reserved())
    ensures ok == (old(|boot.Memory()|) + |RegionsOf(r)| <= NR_REGIONS)
    ensures boot.Memory() == if ok then old(boot.Memory()) + RegionsOf(r) else old(boot.Memory())
  {
    ok := boot.AddMemoryBytes(r.base, r.base + r.size);
  }

  method RegisterRam(boot: BootMemory, ram: seq<Ram>) returns (ok: bool)
    requires boot.Valid() && boot.Memory() == []
    requires forall i :: 0 <= i < |ram| ==> ram[i].base + ram[i].size <= 0xFFFF_FFFF * PAGE_SIZE
    modifies boot`nMemory, boot.memory
    ensures boot.Valid() && boot.Reserved() == old(boot.Reserved())
    ensures ok == (|RamRegions(ram)| <= NR_REGIONS) && (ok ==> boot.Memory() == RamRegions(ram))
  {
    var i := 0;
    while i < |ram|
      invariant 0 <= i <= |ram| && boot.Valid() && boot.Reserved() == old(boot.Reserved())
      invariant boot.Memory() == RamRegions(ram[..i])
    {
      RamRegionsNext(ram, i);
      ok := RegisterRange(boot, ram[i]);
      if !ok {
        RamRegionsGrow(ram, i + 1);
        return;
      }
      i := i + 1;
    }
    assert ram[..i] == ram;
    ok := true;
  }

  lemma {:induction false} RamRegionsGrow(ram: seq<Ram>, i: nat)
    requires i <= |ram|
    ensures |RamRegions(ram[..i])| <= |RamRegions(ram)|
    decreases |ram|
  {
    if i < |ram| {
      RamRegionsGrow(ram[..|ram| - 1], i);
      assert ram[..|ram| - 1][..i] == ram[..i];
    } else {
      assert ram[..i] == ram;
    }
  }

  // ---------- the buddy allocator ----------

  datatype BuddyUp = Up(buddy: BuddyAllocator, base: nat, memMap: Region) | NoMemory | NoRoomForMemMap | NoSlot

  /** A frame of RAM that nobody holds: not reserved and not part of the mem-map. */
  ghost predicate Unclaimed(f: int, mem: seq<Region>, rs: seq<Region>, mm: Region) {
    InSome(f, mem) && !InSome(f, rs) && !In(f, mm)
  }

  /** The buddy allocator owns exactly the unclaimed frames, none of them handed
      out yet, and never the mem-map itself. */
  ghost predicate Owns(s: State, base: nat, mem: seq<Region>, rs: seq<Region>, mm: Region) {
    && Sound(s) && s.live == map[]
    && (forall f: nat :: FreeFrame(s, f) <==> f < s.nr && Unclaimed(base + f, mem, rs, mm))
    && (!Adjacent(mem) ==> NoMergeable(s))
  }

  ghost predicate IsSpan(base: nat, nr: nat, mem: seq<Region>) {
    && (forall i :: 0 <= i < |mem| ==> base <= mem[i].base && mem[i].End() <= base + nr)
    && InSome(base, mem) && InSome(base + nr - 1, mem)
  }

  /** No run of RAM frames outside rs is long enough for the mem-map. */
  ghost predicate NoPlace(mem: seq<Region>, rs: seq<Region>) {
    exists base: nat, nr: nat :: IsSpan(base, nr, mem) && forall x: nat :: !Fits(x, MemMapFrames(nr), 1, mem, rs)
  }

  /** The region fits in RAM outside rs, and nowhere higher. */
  ghost predicate TopPlace(mm: Region, mem: seq<Region>, rs: seq<Region>) {
    Fits(mm.base, mm.frames, 1, mem, rs) && forall x: nat :: Fits(x, mm.frames, 1, mem, rs) ==> x <= mm.base
  }

  /** The b-th byte of the descriptor of a frame, in a mem-map at this frame. */
  function DescriptorByte(memMap: nat, pfn: nat, b: nat): nat { memMap * PAGE_SIZE + 16 * pfn + b }

  /** The descriptors of all frames lie in the mem-map, and no byte of them in a frame
      that is free. */
  ghost predicate DescriptorsKept(s: State, base: nat, mm: Region) {
    forall pfn: nat, b: nat :: pfn < s.nr && b < 16 ==>
      var f := DescriptorByte(mm.base, pfn, b) / PAGE_SIZE;
      In(f, mm) && (f >= base ==> !FreeFrame(s, f - base))
  }

  lemma DescriptorsFit(s: State, base: nat, mm: Region)
    requires mm.frames == MemMapFrames(s.nr)
    requires forall f: nat :: FreeFrame(s, f) ==> !In(base + f, mm)
    ensures DescriptorsKept(s, base, mm)
  {
    forall pfn: nat, b: nat | pfn < s.nr && b < 16
      ensures var f := DescriptorByte(mm.base, pfn, b) / PAGE_SIZE; In(f, mm) && (f >= base ==> !FreeFrame(s, f - base))
    {
      DescriptorIn(mm, s.nr, pfn, b);
    }
  }

  lemma DescriptorIn(mm: Region, nr: nat, pfn: nat, b: nat)
    requires mm.frames == MemMapFrames(nr) && pfn < nr && b < 16
    ensures In(DescriptorByte(mm.base, pfn, b) / PAGE_SIZE, mm)
  {
  }

  lemma SpanUnique(mem: seq<Region>, base: nat, nr: nat, base': nat, nr': nat)
    requires IsSpan(base, nr, mem) && IsSpan(base', nr', mem)
    ensures base == base' && nr == nr'
  {
  }

  lemma PlaceFound(mem: seq<Region>, rs: seq<Region>, base: nat, nr: nat)
    requires IsSpan(base, nr, mem) && exists x: nat :: Fits(x, MemMapFrames(nr), 1, mem, rs)
    ensures !NoPlace(mem, rs)
  {
    forall base': nat, nr': nat | IsSpan(base', nr', mem)
      ensures exists x: nat :: Fits(x, MemMapFrames(nr'), 1, mem, rs)
    {
      SpanUnique(mem, base, nr, base', nr');
    }
  }

  lemma HandedOverOwns(s: State, base: nat, mem: seq<Region>, rs: seq<Region>, mm: Region)
    requires Sorted(rs) && AllOk(rs) && RegionOk(mm)
    requires HandedOver(s, base, Holes(mem, Insert(rs, mm))) && ApartOutside(mem, rs)
    ensures Owns(s, base, mem, rs, mm)
  {
    var rs' := Insert(rs, mm);
    InsertAllOk(rs, mm);
    SoundFacts(s);
    forall f: nat
      ensures FreeFrame(s, f) <==> f < s.nr && Unclaimed(base + f, mem, rs, mm)
    {
      InsertCovers(rs, mm, base + f);
      HolesExact(mem, rs', base + f);
      LiveFreeExclusive(s, f);
    }
    if !Adjacent(mem) {
      ApartWithMemMap(mem, rs, mm);
      HandOffMergedWhenApart(s, base, mem, rs');
    }
  }

  /** Every frame that two RAM regions share must be reserved: the code does not
      check it, and HandOff.HandOffLegal shows that it is what it needs. */
  method InitBuddy(boot: BootMemory) returns (r: BuddyUp)
    requires boot.Valid() && ApartOutside(boot.Memory(), boot.Reserved())
    modifies boot`nReserved, boot.reserved
    ensures boot.Valid() && boot.Memory() == old(boot.Memory())
    ensures r.NoMemory? <==> boot.Memory() == []
    ensures r.NoRoomForMemMap? <==> NoPlace(boot.Memory(), old(boot.Reserved()))
    ensures !r.NoMemory? && !r.NoRoomForMemMap? ==> (r.NoSlot? <==> old(boot.nReserved) == NR_REGIONS)
    ensures r.Up? ==>
      && fresh(r.buddy) && fresh(r.buddy.pages) && fresh(r.buddy.freeArea) && r.buddy.Valid()
      && IsSpan(r.base, r.buddy.nrFrames, boot.Memory()) && r.buddy.dramBase == r.base * PAGE_SIZE
      && r.memMap.frames == MemMapFrames(r.buddy.nrFrames)
      && TopPlace(r.memMap, boot.Memory(), old(boot.Reserved()))
      && Owns(r.buddy.s, r.base, boot.Memory(), old(boot.Reserved()), r.memMap)
      && r.buddy.s.nr == r.buddy.nrFrames && DescriptorsKept(r.buddy.s, r.base, r.memMap)
  {
    var span := boot.RamSpan();
    if span.None? { return NoMemory; }
    var base, nr := span.value.base, span.value.frames;
    ghost var mem, rs := boot.Memory(), boot.Reserved();
    assert IsSpan(base, nr, mem);
    var n := MemMapFrames(nr);
    var placed := boot.Alloc(n, 1);
    if placed.NoRoom? { return NoRoomForMemMap; }
    PlaceFound(mem, rs, base, nr);
    if placed.RegionsExhausted? { return NoSlot; }
    var mm := Region(placed.base, n);
    PlacementOk(mm.base, mm.frames, 1, mem, rs);
    var buddy := FillBuddy(boot, base, nr, mm, rs);
    r := Up(buddy, base, mm);
  }

  /** The mem-map is in place: build the allocator and free the holes into it. */
  method FillBuddy(boot: BootMemory, base: nat, nr: nat, ghost mm: Region, ghost rs: seq<Region>)
    returns (buddy: BuddyAllocator)
    requires boot.Valid() && Sorted(rs) && AllOk(rs) && RegionOk(mm) && boot.Reserved() == Insert(rs, mm)
    requires ApartOutside(boot.Memory(), rs) && IsSpan(base, nr, boot.Memory()) && mm.frames == MemMapFrames(nr)
    ensures fresh(buddy) && fresh(buddy.pages) && fresh(buddy.freeArea) && buddy.Valid()
    ensures buddy.nrFrames == nr == buddy.s.nr && buddy.dramBase == base * PAGE_SIZE
    ensures Owns(buddy.s, base, boot.Memory(), rs, mm) && DescriptorsKept(buddy.s, base, mm)
  {
    ghost var mem := boot.Memory();
    var pages := new PageInfo[nr](_ => PageInfo(0, 0, 0, PageState.Reserved));
    buddy := new BuddyAllocator(pages, base * PAGE_SIZE, nr);
    var holes := boot.ForEachFree();
    HolesForBuddy(mem, rs, mm, base, nr);
    HandHoles(buddy, base, holes);
    HandedOverOwns(buddy.s, base, mem, rs, mm);
    DescriptorsFit(buddy.s, base, mm);
  }

  lemma HolesForBuddy(mem: seq<Region>, rs: seq<Region>, mm: Region, base: nat, nr: nat)
    requires Sorted(rs) && AllOk(rs) && RegionOk(mm) && ApartOutside(mem, rs) && IsSpan(base, nr, mem)
    ensures var hs := Holes(mem, Insert(rs, mm));
      Apart(hs) && forall i :: 0 <= i < |hs| ==> Inside(hs[i], base, nr) && hs[i].frames >= 1
  {
    var rs' := Insert(rs, mm);
    InsertAllOk(rs, mm);
    ApartWithMemMap(mem, rs, mm);
    HolesApart(mem, rs');
    HolesInside(mem, rs', base, nr);
    HolesWithinRegions(mem, rs');
  }

  lemma ApartWithMemMap(mem: seq<Region>, rs: seq<Region>, mm: Region)
    requires Sorted(rs) && ApartOutside(mem, rs)
    ensures ApartOutside(mem, Insert(rs, mm))
  {
    forall i, j, f: int | 0 <= i < j < |mem| && In(f, mem[i]) && In(f, mem[j])
      ensures InSome(f, Insert(rs, mm))
    {
      InsertCovers(rs, mm, f);
    }
  }

  /** The callback of the hand-off, hole by hole. */
  method HandHoles(buddy: BuddyAllocator, base: nat, holes: seq<Region>)
    requires buddy.Valid() && buddy.s == Initial(buddy.nrFrames) && buddy.dramBase == base * PAGE_SIZE
    requires Apart(holes) && forall i :: 0 <= i < |holes| ==>
      Inside(holes[i], base, buddy.nrFrames) && holes[i].frames >= 1
    modifies buddy`freeFrames, buddy`s, buddy.pages, buddy.freeArea
    ensures buddy.Valid() && HandedOver(buddy.s, base, holes)
  {
    NothingHandedOver(buddy.nrFrames, base);
    var k := 0;
    while k < |holes|
      invariant 0 <= k <= |holes| && buddy.Valid() && buddy.s.nr == buddy.nrFrames
      invariant HandedOver(buddy.s, base, holes[..k])
    {
      HandHole(buddy, base, holes[..k], holes[k]);
      assert holes[..k] + [holes[k]] == holes[..k + 1];
      k := k + 1;
    }
    assert holes[..k] == holes;
  }

  method HandHole(buddy: BuddyAllocator, base: nat, ghost done: seq<Region>, h: Region)
    requires buddy.Valid() && buddy.dramBase == base * PAGE_SIZE && buddy.s.nr == buddy.nrFrames
    requires HandedOver(buddy.s, base, done) && Inside(h, base, buddy.nrFrames) && h.frames >= 1
    requires forall f: int :: In(f, h) ==> !InSome(f, done)
    modifies buddy`freeFrames, buddy`s, buddy.pages, buddy.freeArea
    ensures buddy.Valid() && HandedOver(buddy.s, base, done + [h]) && buddy.s.nr == buddy.nrFrames
  {
    NextHoleLegal(buddy.s, base, done, h);
    ghost var before := buddy.s;
    var pfn := buddy.PfnOf(h.base * PAGE_SIZE);
    assert pfn == h.base - base;
    buddy.FreeRange(pfn, h.frames);
    HandOverHole(before, buddy.s, base, done, h);
  }

  // ---------- the whole path ----------

  /** Nobody else holds the frame: it is RAM, no byte of it belongs to the kernel
      image or the device tree, and the mem-map is elsewhere. */
  ghost predicate Available(ram: seq<Ram>, imageEnd: nat, dtb: nat, dtbSize: nat, mm: Region, f: nat) {
    IsRam(ram, f) && !Touches(0x4008_0000, imageEnd, f) && !Touches(dtb, dtb + dtbSize, f) && !In(f, mm)
  }

  /** Two ranges of RAM share a frame only under the image or the device tree. */
  ghost predicate RamApart(ram: seq<Ram>, imageEnd: nat, dtb: nat, dtbSize: nat)
    requires AddressesFit(ram, imageEnd, dtb, dtbSize)
  {
    ApartOutside(RamRegions(ram), BootReserved(imageEnd, dtb, dtbSize))
  }

  lemma ReservedAtBoot(imageEnd: nat, dtb: nat, dtbSize: nat, f: nat)
    requires PHYS_LOAD_BASE < imageEnd
    ensures InSome(f, BootReserved(imageEnd, dtb, dtbSize)) <==>
      Touches(PHYS_LOAD_BASE, imageEnd, f) || Touches(dtb, dtb + dtbSize, f)
  {
    var image, tree := FramesTouched(PHYS_LOAD_BASE, imageEnd), FramesTouched(dtb, dtb + dtbSize);
    InsertCovers([], image, f);
    InsertKeeps([], image);
    InsertCovers(Insert([], image), tree, f);
  }

  /** The allocator as the hand-off leaves it: nothing handed out, and exactly the
      available frames free. */
  ghost predicate HandedOff(s: State, base: nat, ram: seq<Ram>, imageEnd: nat, dtb: nat, dtbSize: nat, mm: Region) {
    && Sound(s) && s.live == map[]
    && forall f: nat :: FreeFrame(s, f) <==> f < s.nr && Available(ram, imageEnd, dtb, dtbSize, mm, base + f)
  }

  lemma OwnsAvailable(s: State, base: nat, ram: seq<Ram>, imageEnd: nat, dtb: nat, dtbSize: nat, mm: Region)
    requires AddressesFit(ram, imageEnd, dtb, dtbSize)
    requires Owns(s, base, RamRegions(ram), BootReserved(imageEnd, dtb, dtbSize), mm)
    ensures HandedOff(s, base, ram, imageEnd, dtb, dtbSize, mm)
  {
    forall f: nat
      ensures FreeFrame(s, f) <==> f < s.nr && Available(ram, imageEnd, dtb, dtbSize, mm, base + f)
    {
      RamRegionsExact(ram, base + f);
      ReservedAtBoot(imageEnd, dtb, dtbSize, base + f);
    }
  }

  /** From the device tree to the allocator. It spans all RAM, its mem-map lies at
      the top of what is free, a frame is free exactly when it is available, and
      `free_frames` counts the free frames. */
  method BootBuddy(ram: seq<Ram>, imageEnd: nat, dtb: nat, dtbSize: nat) returns (r: BuddyUp)
    requires AddressesFit(ram, imageEnd, dtb, dtbSize) && RamApart(ram, imageEnd, dtb, dtbSize)
    ensures r.NoSlot? <==> |RamRegions(ram)| > 128
    ensures r.NoMemory? <==> forall f: nat :: !IsRam(ram, f)
    ensures r.NoRoomForMemMap? <==>
      |RamRegions(ram)| <= 128 && NoPlace(RamRegions(ram), BootReserved(imageEnd, dtb, dtbSize))
    ensures r.Up? ==>
      && fresh(r.buddy) && fresh(r.buddy.pages) && fresh(r.buddy.freeArea) && r.buddy.Valid()
      && IsSpan(r.base, r.buddy.nrFrames, RamRegions(ram)) && r.buddy.dramBase == r.base * PAGE_SIZE
      && r.memMap.frames == MemMapFrames(r.buddy.nrFrames)
      && TopPlace(r.memMap, RamRegions(ram), BootReserved(imageEnd, dtb, dtbSize))
      && HandedOff(r.buddy.s, r.base, ram, imageEnd, dtb, dtbSize, r.memMap)
      && r.buddy.s.nr == r.buddy.nrFrames && DescriptorsKept(r.buddy.s, r.base, r.memMap)
      && r.buddy.freeFrames == |FreeSet(r.buddy.s)|
      && (!Adjacent(RamRegions(ram)) ==> NoMergeable(r.buddy.s))
  {
    NoRamNoRegions(ram);
    var boot, ok := BuildBootMem(ram, imageEnd, dtb, dtbSize);
    if !ok { return NoSlot; }
    r := InitBuddy(boot);
    if r.Up? {
      r.buddy.CountsFree();
      OwnsAvailable(r.buddy.s, r.base, ram, imageEnd, dtb, dtbSize, r.memMap);
    }
  }

  lemma NoRamNoRegions(ram: seq<Ram>)
    ensures RamRegions(ram) == [] <==> forall f: nat :: !IsRam(ram, f)
  {
    forall f: nat ensures InSome(f, RamRegions(ram)) <==> IsRam(ram, f) { RamRegionsExact(ram, f); }
    if RamRegions(ram) != [] {
      RegionsNotEmpty(ram);
      var r := RamRegions(ram)[0];
      assert In(r.base, r) && InSome(r.base, RamRegions(ram));
    }
  }

  lemma {:induction false} RegionsNotEmpty(ram: seq<Ram>)
    ensures forall i :: 0 <= i < |RamRegions(ram)| ==> RamRegions(ram)[i].frames >= 1
  {
    if ram != [] { RegionsNotEmpty(ram[..|ram| - 1]); }
  }
}
