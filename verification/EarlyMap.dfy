/** `build` as `kmain` calls it, before there is a buddy allocator: every table comes
    from the page pool. */
module EarlyMap {
  import opened Arith
  import opened Wrappers
  import opened PageTable
  import opened PageWalk
  import opened PageMap
  import opened AddressSpace
  import opened Layout
  import opened KernelMap
  import opened KernelBuild
  import opened KernelImage
  import opened KernelLinear
  import opened KernelView
  import opened KernelRoot
  import opened FrameSource

  /** The pages of the pool in the order the page source gives them. */
  function PoolFrames(poolBase: nat): seq<nat> {
    seq(POOL_PAGES, i requires 0 <= i => poolBase + i * PAGE_SIZE)
  }

  lemma PoolFramesOk(poolBase: nat)
    requires poolBase % PAGE_SIZE == 0 && poolBase + POOL_PAGES * PAGE_SIZE <= VA_SPAN
    ensures PoolOk(map[], PoolFrames(poolBase))
  {
    var frames := PoolFrames(poolBase);
    forall i | 0 <= i < |frames| ensures FreshFrame(map[], frames[i]) {
      PageOfItself(poolBase / PAGE_SIZE + i, frames[i]);
    }
  }

  lemma PageOfItself(n: nat, pa: nat)
    requires pa == n * PAGE_SIZE < VA_SPAN
    ensures OutputAddr(pa) == pa
  {
    DivModUnique(pa, VA_SPAN, 0, pa);
    DivModUnique(pa, PAGE_SIZE, n, 0);
  }

  /** From a fresh pool, and without overlapping regions, the map is built exactly
      when every non-empty region is made of 2 MiB pieces and the tables, root
      included, are no more than the pool has pages; `FramesFor` pages are enough.
      Each table takes one page. */
  method BuildFromPool(source: PageSource, regions: seq<Region>, layout: ImageLayout)
    returns (r: BuildResult, space: Space?)
    requires source.Valid() && source.buddy == null && source.next == 0
    requires source.poolBase + 32 * PAGE_SIZE <= VA_SPAN
    requires RegionsOk(regions) && SectionsOk(Sections(layout))
    modifies source`next, source`given
    ensures source.Valid() && source.buddy == null
    ensures !Overlap(regions) ==>
      (r == Built <==>
         && (forall i :: 0 <= i < |regions| ==> Mappable(regions[i]))
         && 1 + |KernelTables(regions, Sections(layout)) - {Root}| <= 32)
    ensures !Overlap(regions) && FramesFor(regions, Sections(layout)) <= 32 ==>
      (r == Built <==> forall i :: 0 <= i < |regions| ==> Mappable(regions[i]))
    ensures r == Built ==>
      && space != null && fresh(space) && space.Valid()
      && AsLaidOut(space.tables, space.root, regions, layout)
      && KernelMapped(space.tables, space.root, regions, Sections(layout))
      && source.next == 1 + |KernelTables(regions, Sections(layout)) - {Root}|
  {
    PoolFramesOk(source.poolBase);
    FramesForIsEnough(regions, Sections(layout));
    r, space := Build(regions, layout, PoolFrames(source.poolBase));
    if r == Built { TakePages(source, POOL_PAGES - |space.pool|); }
  }

  /** The page source gives the pages of the pool in order. */
  method TakePages(source: PageSource, n: nat)
    requires source.Valid() && source.buddy == null && source.next == 0 && n <= POOL_PAGES
    modifies source`next, source`given
    ensures source.Valid() && source.buddy == null && source.next == n
    ensures forall pa: nat :: pa in source.given <==> pa in PoolFrames(source.poolBase)[..n]
  {
    var frames := PoolFrames(source.poolBase);
    var k := 0;
    while k < n
      invariant k <= n && source.Valid() && source.buddy == null && source.next == k
      invariant forall pa: nat :: pa in source.given <==> pa in frames[..k]
    {
      var page := source.AllocPage();
      assert page == Some(frames[k]) && frames[..k + 1] == frames[..k] + [frames[k]];
      k := k + 1;
    }
  }

  // ---------- an image in RAM ----------

  /** A section of whole pages in the first 2 MiB of the image window. */
  predicate InFirstPiece(s: Section) {
    && SectionOk(s) && s.start < s.end <= KERNEL_IMAGE_BASE + MIB2 && s.start % KIB4 == 0 && s.end % KIB4 == 0
  }

  lemma WholePages(s: Section)
    requires InFirstPiece(s)
    ensures Lo(s) == s.start - KERNEL_LINEAR_BASE && Hi(s) == s.end - KERNEL_LINEAR_BASE && Pieces(s) == 1
  {
  }

  lemma {:induction false} SmallImage(sections: seq<Section>)
    requires SectionsOk(sections) && forall i :: 0 <= i < |sections| ==> InFirstPiece(sections[i])
    ensures ImageCost(sections) == 3 + |sections|
  {
    if sections != [] {
      SmallImage(sections[..|sections| - 1]);
      WholePages(sections[|sections| - 1]);
    }
  }

  /** Half a GiB of RAM, and an image 1 MiB into it. */
  const HALF_GIB := Region(IMAGE_PA_BASE, 0x2000_0000)
  const AT := KERNEL_IMAGE_BASE + 0x10_0000
  const TEXT_PA := IMAGE_PA_BASE + 0x10_0000
  const SMALL_IMAGE := ImageLayout(AT, AT + 0x1_0000, AT + 0x1_0000, AT + 0x1_8000, AT + 0x1_8000, AT + 0x4_0000,
                                   AT + 0x4_0000, AT + 0x6_0000, AT + 0x6_0000, AT + 0xA_0000)

  lemma SmallImageFits()
    ensures SectionsOk(Sections(SMALL_IMAGE)) && ImageCost(Sections(SMALL_IMAGE)) == 8
    ensures RegionsOk([HALF_GIB]) && !Overlap([HALF_GIB]) && TotalCost([HALF_GIB]) == 3 && Mappable(HALF_GIB)
  {
    SmallImage(Sections(SMALL_IMAGE));
    assert [HALF_GIB][..0] == [];
  }

  /** The first byte of its text: no other section has it. */
  lemma FirstTextByte() returns (va: Va)
    ensures SectionsOk(Sections(SMALL_IMAGE)) && LastOver(Sections(SMALL_IMAGE), 0, Offset(va))
    ensures Offset(va) + IMAGE_DELTA == TEXT_PA
  {
    var p := AT - KERNEL_LINEAR_BASE;
    va := UpperVa(p);
    OffsetOf(p);
    var sections := Sections(SMALL_IMAGE);
    forall i | 0 <= i < |sections| ensures SectionOk(sections[i]) && (InSection(sections[i], p) <==> i == 0) {
      WholePages(sections[i]);
    }
  }

  /** Such a machine boots with the 32 pages of the pool, and the kernel can write to
      its own text. */
  method TextIsWritable(source: PageSource) returns (r: BuildResult, space: Space?)
    requires source.Valid() && source.buddy == null && source.next == 0
    requires source.poolBase + 32 * PAGE_SIZE <= VA_SPAN
    modifies source`next, source`given
    ensures r == Built && space != null && source.next <= 15
    ensures exists va: Va :: Translates(Walk(space.tables, space.root, L0, va), TEXT_PA, TEXT_ATTRS)
    ensures exists vb: Va :: WritesTo(space.tables, space.root, vb, TEXT_PA)
  {
    SmallImageFits();
    FramesForIsEnough([HALF_GIB], Sections(SMALL_IMAGE));
    r, space := BuildFromPool(source, [HALF_GIB], SMALL_IMAGE);
    ghost var va := FirstTextByte();
    ReadOnlyAlias(space.tables, space.root, [HALF_GIB], Sections(SMALL_IMAGE), 0, va);
    assert InRegion([HALF_GIB][0], TEXT_PA);
  }
}
