/** What `kmain` relies on after the hand-off: the image, the device tree and the
    mem-map stay out of the buddy allocator's hands, so the early page pool does,
    and the boot trampoline can be reclaimed. */
module Kmain {
  import opened Wrappers
  import opened BuddyModel
  import opened BuddySteps
  import opened BuddyFrames
  import opened BuddyTheorems
  import opened BuddyCarve
  import opened BuddyRuns
  import opened Buddy
  import opened HandOff
  import opened Boot
  import M = BootMem
  import opened FrameSource

  /** Frames that are not available are reserved. */
  lemma HeldIsReserved(s: State, base: nat, ram: seq<Ram>, imageEnd: nat, dtb: nat, dtbSize: nat, mm: M.Region, f: nat)
    requires HandedOff(s, base, ram, imageEnd, dtb, dtbSize, mm)
    requires f < s.nr && !Available(ram, imageEnd, dtb, dtbSize, mm, base + f)
    ensures f in s.reserved
  {
    SoundFacts(s);
    assert forall p: nat, k: nat :: !LiveBlock(s, p, k);
  }

  /** Over every run after the hand-off, a frame of the image, the device tree, the
      mem-map or no RAM at all is never free and never handed out, unless a
      `free_range` names it. */
  lemma HeldNeverGiven(s: State, base: nat, ram: seq<Ram>, imageEnd: nat, dtb: nat, dtbSize: nat, mm: M.Region,
                       ops: seq<Op>, f: nat)
    requires HandedOff(s, base, ram, imageEnd, dtb, dtbSize, mm) && WF(s) && LegalRun(s, ops)
    requires f < s.nr && !Available(ram, imageEnd, dtb, dtbSize, mm, base + f) && !TakenIn(ops, f)
    ensures var t := Run(s, ops); f in t.reserved && !FreeFrame(t, f) && !LiveFrame(t, f)
  {
    HeldIsReserved(s, base, ram, imageEnd, dtb, dtbSize, mm, f);
    StaysReserved(s, ops, f);
  }

  // ---------- the page pool ----------

  /** The linker puts the pool into the image. */
  predicate PoolInImage(poolBase: nat, imageEnd: nat) {
    PHYS_LOAD_BASE <= poolBase && poolBase + POOL_PAGES * PAGE_SIZE <= imageEnd
  }

  /** The hand-off, and `BUDDY` set to its result: from then on the page source never
      gives a page of the pool, whether or not the pool had given it before. */
  method StartBuddy(source: PageSource, ram: seq<Ram>, imageEnd: nat, dtb: nat, dtbSize: nat) returns (r: BuddyUp)
    requires source.Valid() && source.buddy == null && PoolInImage(source.poolBase, imageEnd)
    requires AddressesFit(ram, imageEnd, dtb, dtbSize) && RamApart(ram, imageEnd, dtb, dtbSize)
    modifies source`buddy
    ensures source.Valid() && source.given == old(source.given)
    ensures source.buddy == if r.Up? then r.buddy else null
    ensures r.NoSlot? <==> |RamRegions(ram)| > 128
    ensures r.NoMemory? <==> forall f: nat :: !IsRam(ram, f)
    ensures r.NoRoomForMemMap? <==>
      |RamRegions(ram)| <= 128 && NoPlace(RamRegions(ram), BootReserved(imageEnd, dtb, dtbSize))
    ensures r.Up? ==>
      && r.buddy.Valid() && r.buddy.dramBase == r.base * PAGE_SIZE && IsSpan(r.base, r.buddy.nrFrames, RamRegions(ram))
      && HandedOff(r.buddy.s, r.base, ram, imageEnd, dtb, dtbSize, r.memMap)
  {
    r := BootBuddy(ram, imageEnd, dtb, dtbSize);
    if r.Up? {
      forall f: nat | f < r.buddy.nrFrames && source.InPool(r.buddy.PaOf(f))
        ensures f in r.buddy.s.reserved
      {
        assert Touches(PHYS_LOAD_BASE, imageEnd, r.base + f);
        HeldIsReserved(r.buddy.s, r.base, ram, imageEnd, dtb, dtbSize, r.memMap, f);
      }
      source.Install(r.buddy);
    }
  }

  // ---------- the trampoline ----------

  /** Nothing but allocations and frees. */
  predicate NoRangeFreed(ops: seq<Op>) {
    forall i :: 0 <= i < |ops| ==> !ops[i].DoFreeRange?
  }

  lemma {:induction false} NoRangeNeverCompletes(s: State, ops: seq<Op>)
    requires WF(s) && LegalRun(s, ops) && NoRangeFreed(ops)
    ensures NeverCompletes(s, ops)
    decreases |ops|
  {
    if ops != [] {
      StepWF(s, ops[0]);
      NoRangeNeverCompletes(Step(s, ops[0]), ops[1..]);
    }
  }

  /** Whole pages inside the image, with a byte of it before and after. */
  predicate TrampolineOk(start: nat, end: nat, imageEnd: nat) {
    start % PAGE_SIZE == 0 && end % PAGE_SIZE == 0 && PHYS_LOAD_BASE < start < end < imageEnd
  }

  /** The allocator covers the trampoline; t is where any run of allocations and
      frees has taken it since the hand-off. */
  ghost predicate SinceHandOff(s: State, t: State, base: nat, ram: seq<Ram>, imageEnd: nat, dtb: nat, dtbSize: nat,
                               mm: M.Region, ops: seq<Op>) {
    && HandedOff(s, base, ram, imageEnd, dtb, dtbSize, mm) && WF(s) && LegalRun(s, ops) && NoRangeFreed(ops)
    && t == Run(s, ops)
  }

  lemma ImageStaysReserved(s: State, t: State, base: nat, ram: seq<Ram>, imageEnd: nat, dtb: nat, dtbSize: nat,
                           mm: M.Region, ops: seq<Op>, f: nat)
    requires SinceHandOff(s, t, base, ram, imageEnd, dtb, dtbSize, mm, ops)
    requires f < s.nr && Touches(PHYS_LOAD_BASE, imageEnd, base + f)
    ensures f in t.reserved && !FreeFrame(t, f)
  {
    HeldNeverGiven(s, base, ram, imageEnd, dtb, dtbSize, mm, ops, f);
  }

  /** Since the hand-off the trampoline has stayed reserved, so reclaiming it is
      legal. As the frames on either side are of the image or outside RAM, no
      mergeable pair appears: if the hand-off left none, allocation is complete. */
  lemma ReclaimTrampoline(s: State, t: State, base: nat, ram: seq<Ram>, imageEnd: nat, dtb: nat, dtbSize: nat,
                          mm: M.Region, ops: seq<Op>, start: nat, end: nat, p: nat, n: nat, o: nat)
    requires SinceHandOff(s, t, base, ram, imageEnd, dtb, dtbSize, mm, ops) && o < MAX_ORDER
    requires TrampolineOk(start, end, imageEnd) && base * PAGE_SIZE <= start && end <= (base + s.nr) * PAGE_SIZE
    requires start == (base + p) * PAGE_SIZE && end == (base + p + n) * PAGE_SIZE
    ensures WF(t) && AllReserved(t, p, n)
    ensures NoMergeable(s) ==>
      var u := FreeRange(t, p, n);
      NoMergeable(u) && |u.lists| == MAX_ORDER && (Alloc(u, o).1.None? <==> !exists q: nat :: FreeRun(u, q, o))
  {
    SoundFacts(s);
    RunInvariant(s, ops);
    forall f: nat | p <= f < p + n ensures f in t.reserved {
      ImageStaysReserved(s, t, base, ram, imageEnd, dtb, dtbSize, mm, ops, f);
    }
    if p > 0 { ImageStaysReserved(s, t, base, ram, imageEnd, dtb, dtbSize, mm, ops, p - 1); }
    NoFrameBeyond(t, p + n);
    if p + n < s.nr { ImageStaysReserved(s, t, base, ram, imageEnd, dtb, dtbSize, mm, ops, p + n); }
    if NoMergeable(s) {
      NoRangeNeverCompletes(s, ops);
      RunStaysComplete(s, ops, 0);
      FreeRangeApart(t, p, n);
      FreeRangeWF(t, p, n);
      AllocComplete(FreeRange(t, p, n), o);
    }
  }

  lemma NoFrameBeyond(t: State, f: nat)
    requires WF(t)
    ensures f >= t.nr ==> !FreeFrame(t, f)
  {
    assert forall p: nat, k: nat :: FreeBlock(t, p, k) ==> IsBlock(t, p, k);
  }

  lemma FrameNumbers(base: nat, start: nat, end: nat, pfn: nat, pages: nat)
    requires start % PAGE_SIZE == 0 && end % PAGE_SIZE == 0 && base * PAGE_SIZE <= start <= end
    requires pfn == (start - base * PAGE_SIZE) / PAGE_SIZE && pages == (end - start) / PAGE_SIZE
    ensures start == (base + pfn) * PAGE_SIZE && end == (base + pfn + pages) * PAGE_SIZE
  {
  }

  /** `reclaim_trampoline`: the pages join the free frames, and no mergeable pair
      appears. */
  method Reclaim(buddy: BuddyAllocator, start: nat, end: nat, ghost s: State, ghost base: nat, ghost ram: seq<Ram>,
                 ghost imageEnd: nat, ghost dtb: nat, ghost dtbSize: nat, ghost mm: M.Region, ghost ops: seq<Op>)
    requires buddy.Valid() && buddy.dramBase == base * PAGE_SIZE
    requires SinceHandOff(s, buddy.s, base, ram, imageEnd, dtb, dtbSize, mm, ops)
    requires TrampolineOk(start, end, imageEnd) && buddy.InDram(start) && end <= (base + buddy.nrFrames) * PAGE_SIZE
    modifies buddy`freeFrames, buddy`s, buddy.pages, buddy.freeArea
    ensures buddy.Valid() && (NoMergeable(s) ==> NoMergeable(buddy.s)) && buddy.freeFrames == |FreeSet(buddy.s)|
    ensures buddy.s == BuddyModel.FreeRange(old(buddy.s), buddy.PfnOf(start), (end - start) / PAGE_SIZE)
    ensures forall f: nat :: f < buddy.nrFrames ==>
      (FreeFrame(buddy.s, f) <==> FreeFrame(old(buddy.s), f) || start <= buddy.PaOf(f) < end)
  {
    var pages := (end - start) / PAGE_SIZE;
    var pfn := buddy.PfnOf(start);
    FrameNumbers(base, start, end, pfn, pages);
    SoundFacts(s);
    RunInvariant(s, ops);
    ReclaimTrampoline(s, buddy.s, base, ram, imageEnd, dtb, dtbSize, mm, ops, start, end, pfn, pages, 0);
    buddy.FreeRange(pfn, pages);
    buddy.CountsFree();
    forall f: nat | f < buddy.nrFrames
      ensures FreeFrame(buddy.s, f) <==> FreeFrame(old(buddy.s), f) || start <= buddy.PaOf(f) < end
    {
      FreeRangeFrames(old(buddy.s), pfn, pages, f);
    }
  }
}
