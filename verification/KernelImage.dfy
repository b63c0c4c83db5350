/** The image in the kernel map: the sections page by page, each with its own
    attributes, and the tables that takes. */
module KernelImage {
  import opened Arith
  import opened Wrappers
  import opened PageTable
  import opened PageWalk
  import opened PageMap
  import opened AddressSpace
  import opened Layout
  import opened KernelMap
  import opened KernelBuild

  /** From the offset of an image address to its physical address. */
  const IMAGE_DELTA: int := KERNEL_LINEAR_BASE - KERNEL_IMAGE_BASE + IMAGE_PA_BASE

  datatype Section = Section(start: nat, end: nat, attrs: LeafAttrs)

  /** In the image window, and not both writable and executable. */
  predicate SectionOk(s: Section) {
    KERNEL_IMAGE_BASE <= s.start <= s.end <= VA_END && HardAttrs(s.attrs)
  }

  function PageDown(n: nat): nat { n / KIB4 * KIB4 }
  function PageUp(n: nat): nat { (n + KIB4 - 1) / KIB4 * KIB4 }

  /** The offsets that `map_section` maps: from the page of its start on, one page
      for each step of a page from the start that stays below the end. */
  function Lo(s: Section): nat
    requires SectionOk(s)
  {
    PageDown(s.start) - KERNEL_LINEAR_BASE
  }

  function Hi(s: Section): nat
    requires SectionOk(s)
  {
    PageUp(s.end - s.start % KIB4) - KERNEL_LINEAR_BASE
  }

  predicate InSection(s: Section, offset: int)
    requires SectionOk(s)
  {
    Lo(s) <= offset < Hi(s)
  }

  predicate SectionsOk(sections: seq<Section>) {
    forall i :: 0 <= i < |sections| ==> SectionOk(sections[i])
  }

  /** Every byte of the section is mapped exactly when the end, moved down by the
      start's offset in its page, still lies in the last page: always so when the
      start is page-aligned. */
  lemma SectionCovered(s: Section)
    requires SectionOk(s)
    ensures (forall p: int :: s.start <= p + KERNEL_LINEAR_BASE < s.end ==> InSection(s, p)) <==>
      s.start == s.end || s.end <= PageUp(s.end - s.start % KIB4)
    ensures s.start % KIB4 == 0 ==> s.end <= PageUp(s.end - s.start % KIB4)
  {
    if s.start < s.end && s.end > PageUp(s.end - s.start % KIB4) {
      assert !InSection(s, s.end - 1 - KERNEL_LINEAR_BASE);
    }
  }

  /** Two pages touched, one mapped: the last sixteen bytes of this section are not. */
  lemma UnalignedSectionCutShort()
    ensures
      var attrs := LeafAttrs(Normal, KernelReadOnly, InnerShareable, Nobody);
      var s := Section(KERNEL_IMAGE_BASE + 0xFF0, KERNEL_IMAGE_BASE + 0x1010, attrs);
      SectionOk(s) && !InSection(s, KERNEL_IMAGE_BASE + 0x1000 - KERNEL_LINEAR_BASE)
  {
  }

  // ---------- pages ----------

  /** Above the linear window every leaf is a page. */
  ghost predicate PagesOnly(now: Tables, root: nat) {
    forall va: Va :: LINEAR_SPAN <= Offset(va) && Walk(now, root, L0, va).Some? ==>
      Walk(now, root, L0, va).value.level == L3
  }

  lemma PagePaints(now: Tables, mid: Tables, was: Tables, root: nat, start: nat, base: nat, pa: nat, delta: int,
                   attrs: LeafAttrs)
    requires base % KIB4 == 0 && LINEAR_SPAN <= base < UPPER_HALF
    requires pa % KIB4 == 0 && pa + KIB4 <= VA_SPAN && pa == base + delta
    requires start <= base && OneLeaf(now, mid, root, UpperVa(base), pa, L3, attrs)
    requires Painted(mid, was, root, start, base, delta, attrs) && PagesOnly(mid, root)
    ensures Painted(now, was, root, start, base + KIB4, delta, attrs) && PagesOnly(now, root)
  {
    LeafPaints(now, mid, root, base, pa, L3, attrs);
    PaintedTogether(now, mid, was, root, start, base, base + KIB4, delta, attrs);
    forall va: Va | LINEAR_SPAN <= Offset(va) && Walk(now, root, L0, va).Some?
      ensures Walk(now, root, L0, va).value.level == L3
    {
      assert !(base <= Offset(va) < base + KIB4) ==> Walk(now, root, L0, va) == Walk(mid, root, L0, va);
    }
  }

  /** An address and the start of its page have the same indices. */
  lemma SamePage(base: nat, off: nat)
    requires base % KIB4 == 0 && off < KIB4
    ensures var a, b := UpperVa(base), UpperVa(base + off);
      a.i0 == b.i0 && a.i1 == b.i1 && a.i2 == b.i2 && a.i3 == b.i3
  {
    var x := base + KERNEL_LINEAR_BASE;
    DivModUnique(x + off, KIB4, x / KIB4, off);
    DivDiv(x, KIB4, 0x200, MIB2);
    DivDiv(x + off, KIB4, 0x200, MIB2);
    DivDiv(x, KIB4, 0x4_0000, GIB);
    DivDiv(x + off, KIB4, 0x4_0000, GIB);
    DivDiv(x, KIB4, 0x800_0000, GIB512);
    DivDiv(x + off, KIB4, 0x800_0000, GIB512);
  }

  /** Mapping an address inside a page maps the page: index and output address both
      drop the offset. */
  lemma PageOfLeaf(now: Tables, was: Tables, root: nat, base: nat, pa: nat, off: nat, attrs: LeafAttrs)
    requires base % KIB4 == 0 && off < KIB4 && pa % KIB4 == 0 && pa + KIB4 <= VA_SPAN
    requires OneLeaf(now, was, root, UpperVa(base + off), pa + off, L3, attrs)
    ensures OneLeaf(now, was, root, UpperVa(base), pa, L3, attrs)
  {
    SamePage(base, off);
    DivModUnique(pa + off, KIB4, pa / KIB4, off);
    assert OutputAddr(pa + off) == OutputAddr(pa);
  }

  lemma SameWay(base: nat, off: nat)
    requires base % KIB4 == 0 && off < KIB4
    ensures Below(L0, L3, UpperVa(base + off)) == Below(L0, L3, UpperVa(base))
  {
    SamePage(base, off);
    PageWay(UpperVa(base + off));
    PageWay(UpperVa(base));
  }

  lemma PageWay(va: Va)
    ensures Below(L0, L3, va) == {NodeOf(L1, va), NodeOf(L2, va), NodeOf(L3, va)}
  {
    assert Below(L3, L3, va) == {};
    assert Below(L2, L3, va) == {NodeOf(L3, va)};
    assert Below(L1, L3, va) == {NodeOf(L2, va), NodeOf(L3, va)};
  }

  // ---------- tables of a section ----------

  /** The tables of the pages from offset lo up to hi. */
  function PageTables(lo: nat, hi: nat): set<Node>
    decreases hi - lo
  {
    if lo < hi then Below(L0, L3, UpperVa(lo)) + PageTables(lo + KIB4, hi) else {}
  }

  function SectionTables(s: Section): set<Node>
    requires SectionOk(s)
  {
    PageTables(Lo(s), Hi(s))
  }

  /** Tables so far and tables of the pages to come make up the whole. */
  ghost predicate PagesLeft(at0: map<nat, Node>, way: set<Node>, at: map<nat, Node>, lo: nat, hi: nat) {
    PageTables(lo, hi) <= way && at.Values + PageTables(lo, hi) == at0.Values + way
  }

  /** The same, behind a key. */
  ghost predicate PagesAhead(at0: map<nat, Node>, way: set<Node>, at: map<nat, Node>, lo: nat, hi: nat) {
    forall z: nat :: Key(z) ==> PagesLeft(at0, way, at, lo, hi)
  }

  lemma PagesStart(s: Section, at: map<nat, Node>, way: set<Node>)
    requires SectionOk(s) && SectionPlan(s, way)
    ensures PagesAhead(at, way, at, Lo(s), Hi(s))
  {
    assert Key(0);
  }

  lemma PagesNext(at0: map<nat, Node>, way: set<Node>, at: map<nat, Node>, lo: nat, hi: nat)
    requires PagesAhead(at0, way, at, lo, hi) && lo < hi
    ensures Below(L0, L3, UpperVa(lo)) <= way
  {
    assert Key(0);
  }

  lemma PagesTaken(at0: map<nat, Node>, way: set<Node>, at: map<nat, Node>, at': map<nat, Node>, lo: nat, next: nat,
                   hi: nat)
    requires PagesAhead(at0, way, at, lo, hi) && lo < hi && at'.Values == at.Values + Below(L0, L3, UpperVa(lo))
    requires next == lo + KIB4
    ensures PagesAhead(at0, way, at', next, hi)
  {
    assert Key(0);
  }

  lemma PagesDone(at0: map<nat, Node>, way: set<Node>, at: map<nat, Node>, lo: nat, hi: nat)
    requires PagesAhead(at0, way, at, lo, hi) && lo >= hi
    ensures at.Values == at0.Values + way
  {
    assert Key(0);
  }

  // ---------- map_section ----------

  /** The tables of the section, behind a key. */
  ghost predicate SectionPlan(s: Section, way: set<Node>)
    requires SectionOk(s)
  {
    forall z: nat :: Key(z) ==> way == SectionTables(s)
  }

  /** From lo up to hi by pages, the loop has come to the page at offset base and is
      `off` bytes into it. */
  ghost predicate AtPage(s: Section, off: nat, lo: nat, hi: nat, base: nat, va: nat) {
    forall z: nat :: Key(z) ==>
      && SectionOk(s) && lo == Lo(s) && hi == Hi(s) && off == s.start % KIB4
      && base % KIB4 == 0 && lo <= base <= hi && va == base + KERNEL_LINEAR_BASE + off
  }

  lemma FirstPage(s: Section) returns (off: nat, lo: nat, hi: nat)
    requires SectionOk(s)
    ensures lo == Lo(s) && hi == Hi(s) && AtPage(s, off, lo, hi, lo, s.start)
  {
    off, lo, hi := s.start % KIB4, Lo(s), Hi(s);
    DivMono(s.start, s.end - off + KIB4 - 1, KIB4);
  }

  lemma ThisPage(s: Section, off: nat, lo: nat, hi: nat, base: nat, va: nat) returns (next: nat)
    requires AtPage(s, off, lo, hi, base, va) && va < s.end
    ensures lo <= base < hi && base % KIB4 == 0 && off < KIB4 && va == base + KERNEL_LINEAR_BASE + off
    ensures KERNEL_IMAGE_BASE <= base + KERNEL_LINEAR_BASE
    ensures next == base + KIB4 && AtPage(s, off, lo, hi, next, va + KIB4)
  {
    next := base + KIB4;
    assert Key(0);
  }

  lemma NoMorePages(s: Section, off: nat, lo: nat, hi: nat, base: nat, va: nat)
    requires AtPage(s, off, lo, hi, base, va) && va >= s.end
    ensures base == hi
  {
    assert Key(0);
  }

  /** Map one section of the image page by page. It is built exactly when the pool
      can hold the tables its pages are missing. */
  method MapSection(space: Space, s: Section, ghost way: set<Node>) returns (r: BuildResult)
    requires space.Valid() && SectionOk(s) && PagesOnly(space.tables, space.root) && SectionPlan(s, way)
    modifies space
    ensures r == Built || r == Failed(PanicNoFrame)
    ensures r == Built <==> |old(space.pool)| >= |way - old(space.Nodes())|
    ensures r == Built ==>
      && space.Valid() && PagesOnly(space.tables, space.root)
      && Painted(space.tables, old(space.tables), space.root, Lo(s), Hi(s), IMAGE_DELTA, s.attrs)
      && Gains(old(space.at), way, space.at, old(space.pool), space.pool)
  {
    ghost var off, lo, hi := FirstPage(s);
    PagesStart(s, space.at, way);
    r := MapPages(space, s, way, off, lo, hi);
  }

  /** The loop of `map_section`. */
  method MapPages(space: Space, s: Section, ghost way: set<Node>, ghost off: nat, ghost lo: nat, ghost hi: nat)
    returns (r: BuildResult)
    requires space.Valid() && PagesOnly(space.tables, space.root) && s.end <= VA_END
    requires AtPage(s, off, lo, hi, lo, s.start) && PagesAhead(space.at, way, space.at, lo, hi)
    modifies space
    ensures r == Built || r == Failed(PanicNoFrame)
    ensures r == Built <==> |old(space.pool)| >= |way - old(space.Nodes())|
    ensures r == Built ==>
      && space.Valid() && PagesOnly(space.tables, space.root)
      && Painted(space.tables, old(space.tables), space.root, lo, hi, IMAGE_DELTA, s.attrs)
      && Gains(old(space.at), way, space.at, old(space.pool), space.pool)
  {
    var va: nat := s.start;
    ghost var base: nat := lo;
    r := Built;
    space.Counts();
    while va < s.end
      invariant r == Built && space.Valid() && PagesOnly(space.tables, space.root) && AtPage(s, off, lo, hi, base, va)
      invariant Painted(space.tables, old(space.tables), space.root, lo, base, IMAGE_DELTA, s.attrs)
      invariant Spent(old(space.at), way, space.at, old(space.pool), space.pool)
      invariant PagesAhead(old(space.at), way, space.at, base, hi)
      decreases s.end - va
    {
      ghost var next := ThisPage(s, off, lo, hi, base, va);
      PagesNext(old(space.at), way, space.at, base, hi);
      ghost var at := space.at;
      r := MapPage(space, va, s.end, s.attrs, base, next, off, lo, way, old(space.tables), old(space.at),
                   old(space.pool));
      if r != Built { return; }
      PagesTaken(old(space.at), way, at, space.at, base, next, hi);
      va, base := va + KIB4, next;
    }
    NoMorePages(s, off, lo, hi, base, va);
    PagesDone(old(space.at), way, space.at, base, hi);
    space.Counts();
    FramesSpent(old(space.at), way, space.at, old(space.pool), space.pool);
  }

  /** One round of that loop: the page that holds va. */
  method MapPage(space: Space, va: nat, end: nat, attrs: LeafAttrs, ghost base: nat, ghost next: nat, ghost off: nat,
                 ghost lo: nat, ghost way: set<Node>, ghost was: Tables, ghost at0: map<nat, Node>,
                 ghost pool0: seq<nat>)
    returns (r: BuildResult)
    requires space.Valid() && PagesOnly(space.tables, space.root) && |at0| == |at0.Values|
    requires base % KIB4 == 0 && lo <= base && off < KIB4 && KERNEL_IMAGE_BASE <= base + KERNEL_LINEAR_BASE
    requires va == base + KERNEL_LINEAR_BASE + off && va < end <= VA_END && next == base + KIB4
    requires Painted(space.tables, was, space.root, lo, base, IMAGE_DELTA, attrs)
    requires Spent(at0, way, space.at, pool0, space.pool) && Below(L0, L3, UpperVa(base)) <= way
    modifies space
    ensures r == Built || (r == Failed(PanicNoFrame) && |pool0| < |way - at0.Values|)
    ensures r == Built ==>
      && space.Valid() && PagesOnly(space.tables, space.root)
      && Painted(space.tables, was, space.root, lo, next, IMAGE_DELTA, attrs)
      && Spent(at0, way, space.at, pool0, space.pool)
      && space.at.Values == old(space.at.Values) + Below(L0, L3, UpperVa(base))
  {
    var pa := ImageVaToPa(va);
    ghost var below := Below(L0, L3, UpperVa(base));
    PageAddresses(va, base, off, pa);
    SameWay(base, off);
    space.Counts();
    var status := space.Map(FromRaw(va), pa, L3, attrs);
    if status != Done {
      NotEnough(at0, old(space.at), pool0, old(space.pool), way, below);
      return Failed(status);
    }
    SpentMore(at0, old(space.at), space.at, pool0, old(space.pool), space.pool, way, below);
    PagePainted(space.tables, old(space.tables), was, space.root, lo, base, off, pa, attrs);
    r := Built;
  }

  lemma PagePainted(now: Tables, mid: Tables, was: Tables, root: nat, lo: nat, base: nat, off: nat, pa: nat,
                    attrs: LeafAttrs)
    requires base % KIB4 == 0 && off < KIB4 && LINEAR_SPAN <= base < UPPER_HALF && lo <= base
    requires off <= pa && pa - off == base + IMAGE_DELTA && (pa - off) % KIB4 == 0 && pa - off + KIB4 <= VA_SPAN
    requires OneLeaf(now, mid, root, UpperVa(base + off), pa, L3, attrs)
    requires Painted(mid, was, root, lo, base, IMAGE_DELTA, attrs) && PagesOnly(mid, root)
    ensures Painted(now, was, root, lo, base + KIB4, IMAGE_DELTA, attrs) && PagesOnly(now, root)
  {
    PageOfLeaf(now, mid, root, base, pa - off, off, attrs);
    PagePaints(now, mid, was, root, lo, base, pa - off, IMAGE_DELTA, attrs);
  }

  lemma PageAddresses(va: nat, base: nat, off: nat, pa: nat)
    requires base % KIB4 == 0 && KERNEL_IMAGE_BASE <= base + KERNEL_LINEAR_BASE && off < KIB4
    requires va == base + KERNEL_LINEAR_BASE + off < VA_END && pa == va - KERNEL_IMAGE_BASE + IMAGE_PA_BASE
    ensures FromRaw(va) == UpperVa(base + off) && LINEAR_SPAN <= base < UPPER_HALF
    ensures LINEAR_SPAN <= Offset(UpperVa(base + off))
    ensures off <= pa && pa - off == base + IMAGE_DELTA && (pa - off) % KIB4 == 0 && pa - off + KIB4 <= VA_SPAN
  {
    OffsetOf(base + off);
    PageOfImage(base);
  }

  lemma PageOfImage(base: nat)
    requires base % KIB4 == 0 && KERNEL_IMAGE_BASE <= base + KERNEL_LINEAR_BASE < VA_END
    ensures base + IMAGE_DELTA >= 0 && (base + IMAGE_DELTA) % KIB4 == 0 && base + IMAGE_DELTA + KIB4 <= VA_SPAN
  {
    var n := (base - (KERNEL_IMAGE_BASE - KERNEL_LINEAR_BASE)) / KIB4;
    DivModUnique(base + IMAGE_DELTA, KIB4, n + IMAGE_PA_BASE / KIB4, 0);
  }

  // ---------- build_image ----------

  /** No later section maps the offset. */
  ghost predicate LastOver(sections: seq<Section>, i: nat, offset: int)
    requires SectionsOk(sections)
  {
    && i < |sections| && InSection(sections[i], offset)
    && forall j :: i < j < |sections| ==> !InSection(sections[j], offset)
  }

  lemma {:induction false} SomeLast(sections: seq<Section>, i: nat, offset: int) returns (j: nat)
    requires SectionsOk(sections) && i < |sections| && InSection(sections[i], offset)
    ensures LastOver(sections, j, offset)
    decreases |sections| - i
  {
    if k: nat :| i < k < |sections| && InSection(sections[k], offset) {
      j := SomeLast(sections, k, offset);
    } else {
      j := i;
    }
  }

  /** Addresses of a section lead through `image_va_to_pa` with its attributes, those
      of the last one where sections overlap; addresses of none translate as in `was`. */
  ghost predicate SectionsMapped(now: Tables, was: Tables, root: nat, sections: seq<Section>)
    requires SectionsOk(sections)
  {
    && (forall va: Va, i: nat :: LastOver(sections, i, Offset(va)) ==>
          Translates(Walk(now, root, L0, va), Offset(va) + IMAGE_DELTA, sections[i].attrs))
    && (forall va: Va :: (forall i :: 0 <= i < |sections| ==> !InSection(sections[i], Offset(va))) ==>
          Walk(now, root, L0, va) == Walk(was, root, L0, va))
  }

  /** The first n sections are mapped, in pages, and nothing is both writable and
      executable: behind a key. */
  ghost predicate MappedSoFar(now: Tables, was: Tables, root: nat, sections: seq<Section>, n: nat)
    requires SectionsOk(sections) && n <= |sections|
  {
    forall z: nat :: Key(z) ==>
      PagesOnly(now, root) && WriteXorExecute(now, root) && SectionsMapped(now, was, root, sections[..n])
  }

  lemma PagesSoFar(now: Tables, was: Tables, root: nat, sections: seq<Section>, n: nat)
    requires SectionsOk(sections) && n <= |sections| && MappedSoFar(now, was, root, sections, n)
    ensures PagesOnly(now, root)
  {
    assert Key(0);
  }

  lemma AllMapped(now: Tables, was: Tables, root: nat, sections: seq<Section>, n: nat)
    requires SectionsOk(sections) && n == |sections| && MappedSoFar(now, was, root, sections, n)
    ensures PagesOnly(now, root) && WriteXorExecute(now, root) && SectionsMapped(now, was, root, sections)
  {
    assert sections[..n] == sections;
    assert Key(0);
  }

  lemma SectionsMappedMore(now: Tables, mid: Tables, was: Tables, root: nat, sections: seq<Section>, n: nat)
    requires SectionsOk(sections) && n < |sections| && MappedSoFar(mid, was, root, sections, n)
    requires Painted(now, mid, root, Lo(sections[n]), Hi(sections[n]), IMAGE_DELTA, sections[n].attrs)
    requires PagesOnly(now, root)
    ensures MappedSoFar(now, was, root, sections, n + 1)
  {
    assert Key(0);
    var before, after := sections[..n], sections[..n + 1];
    PaintKeepsWX(now, mid, root, Lo(sections[n]), Hi(sections[n]), IMAGE_DELTA, sections[n].attrs);
    forall va: Va, i: nat | LastOver(after, i, Offset(va))
      ensures Translates(Walk(now, root, L0, va), Offset(va) + IMAGE_DELTA, after[i].attrs)
    {
      if i < n {
        assert !InSection(after[n], Offset(va));
        assert LastOver(before, i, Offset(va)) by {
          forall j | i < j < n ensures !InSection(before[j], Offset(va)) { assert !InSection(after[j], Offset(va)); }
        }
      }
    }
    forall va: Va | forall i :: 0 <= i < |after| ==> !InSection(after[i], Offset(va))
      ensures Walk(now, root, L0, va) == Walk(was, root, L0, va)
    {
      assert !InSection(after[n], Offset(va));
      forall i | 0 <= i < n ensures !InSection(before[i], Offset(va)) {
        assert !InSection(after[i], Offset(va));
      }
    }
  }

  /** The tables of all sections together. */
  function ImageTables(sections: seq<Section>): set<Node>
    requires SectionsOk(sections)
  {
    if sections == [] then {}
    else ImageTables(sections[..|sections| - 1]) + SectionTables(sections[|sections| - 1])
  }

  lemma {:induction false} ImageTablesGrow(sections: seq<Section>, n: nat)
    requires SectionsOk(sections) && n <= |sections|
    ensures ImageTables(sections[..n]) <= ImageTables(sections)
    decreases |sections|
  {
    if n < |sections| {
      ImageTablesGrow(sections[..|sections| - 1], n);
      assert sections[..|sections| - 1][..n] == sections[..n];
    } else {
      assert sections[..n] == sections;
    }
  }

  lemma ImageTablesNext(sections: seq<Section>, n: nat)
    requires SectionsOk(sections) && n < |sections|
    ensures ImageTables(sections[..n + 1]) == ImageTables(sections[..n]) + SectionTables(sections[n])
    ensures SectionTables(sections[n]) <= ImageTables(sections) && ImageTables(sections[..n]) <= ImageTables(sections)
  {
    assert sections[..n + 1][..n] == sections[..n];
    ImageTablesGrow(sections, n);
    ImageTablesGrow(sections, n + 1);
  }

  /** The tables of the image, behind a key. */
  ghost predicate ImagePlan(sections: seq<Section>, way: set<Node>)
    requires SectionsOk(sections)
  {
    forall z: nat :: Key(z) ==> way == ImageTables(sections)
  }

  ghost predicate ImageSoFar(sections: seq<Section>, n: nat, done: set<Node>)
    requires SectionsOk(sections) && n <= |sections|
  {
    ImagePlan(sections[..n], done)
  }

  lemma ImageStart(now: Tables, root: nat, sections: seq<Section>)
    requires SectionsOk(sections) && PagesOnly(now, root) && WriteXorExecute(now, root)
    ensures ImageSoFar(sections, 0, {}) && MappedSoFar(now, now, root, sections, 0)
  {
  }

  lemma ImageNext(sections: seq<Section>, n: nat, done: set<Node>, way: set<Node>) returns (more: set<Node>)
    requires SectionsOk(sections) && n < |sections| && ImageSoFar(sections, n, done) && ImagePlan(sections, way)
    ensures SectionPlan(sections[n], more) && more <= way && done <= way && ImageSoFar(sections, n + 1, done + more)
  {
    more := SectionTables(sections[n]);
    assert Key(0);
    ImageTablesNext(sections, n);
  }

  lemma ImageDone(sections: seq<Section>, n: nat, done: set<Node>, way: set<Node>)
    requires SectionsOk(sections) && n == |sections| && ImageSoFar(sections, n, done) && ImagePlan(sections, way)
    ensures done == way
  {
    assert sections[..n] == sections;
    assert Key(0);
  }

  /** All sections. The image is built exactly when the pool can hold the tables its
      pages are missing. */
  method BuildImage(space: Space, sections: seq<Section>, ghost way: set<Node>) returns (r: BuildResult)
    requires space.Valid() && SectionsOk(sections) && ImagePlan(sections, way)
    requires PagesOnly(space.tables, space.root) && WriteXorExecute(space.tables, space.root)
    modifies space
    ensures r == Built || r == Failed(PanicNoFrame)
    ensures r == Built <==> |old(space.pool)| >= |way - old(space.Nodes())|
    ensures r == Built ==>
      && space.Valid() && PagesOnly(space.tables, space.root) && WriteXorExecute(space.tables, space.root)
      && SectionsMapped(space.tables, old(space.tables), space.root, sections)
      && Gains(old(space.at), way, space.at, old(space.pool), space.pool)
  {
    var n := 0;
    ghost var done: set<Node>, more: set<Node> := {}, {};
    r := Built;
    space.Counts();
    ImageStart(space.tables, space.root, sections);
    while n < |sections|
      invariant 0 <= n <= |sections| && r == Built && space.Valid()
      invariant MappedSoFar(space.tables, old(space.tables), space.root, sections, n)
      invariant Gains(old(space.at), done, space.at, old(space.pool), space.pool) && ImageSoFar(sections, n, done)
    {
      more := ImageNext(sections, n, done, way);
      r := ImageSection(space, sections, n, old(space.tables), old(space.at), old(space.pool), done, more, way);
      if r != Built { return; }
      n, done := n + 1, done + more;
    }
    AllMapped(space.tables, old(space.tables), space.root, sections, n);
    ImageDone(sections, n, done, way);
    space.Counts();
    FramesSpent(old(space.at), way, space.at, old(space.pool), space.pool);
  }

  /** One call of `map_section` in `build_image`. */
  method ImageSection(space: Space, sections: seq<Section>, n: nat, ghost was: Tables, ghost at0: map<nat, Node>,
                      ghost pool0: seq<nat>, ghost done: set<Node>, ghost more: set<Node>, ghost way: set<Node>)
    returns (r: BuildResult)
    requires space.Valid() && SectionsOk(sections) && n < |sections| && |at0| == |at0.Values|
    requires MappedSoFar(space.tables, was, space.root, sections, n) && SectionPlan(sections[n], more)
    requires Gains(at0, done, space.at, pool0, space.pool) && done <= way && more <= way
    modifies space
    ensures r == Built || (r == Failed(PanicNoFrame) && |pool0| < |way - at0.Values|)
    ensures r == Built ==>
      && space.Valid() && MappedSoFar(space.tables, was, space.root, sections, n + 1)
      && Gains(at0, done + more, space.at, pool0, space.pool)
  {
    var s := sections[n];
    space.Counts();
    PagesSoFar(space.tables, was, space.root, sections, n);
    r := MapSection(space, s, more);
    if r == Built {
      GainsTogether(at0, old(space.at), space.at, pool0, old(space.pool), space.pool, done, more);
      SectionsMappedMore(space.tables, old(space.tables), was, space.root, sections, n);
    } else {
      PartNotEnough(at0, old(space.at), pool0, old(space.pool), done, more, way);
    }
  }

  // ---------- how many tables ----------

  /** The level-1 table of the image window, the level-2 tables of its two GiB, and
      the level-3 table of its m-th 2 MiB. */
  function TopTable(): Node { Sub(Root, 511) }
  function TableOfImageGiB(g: nat): Node { Sub(TopTable(), 510 + g) }
  function TableOf2M(m: nat): Node { Sub(TableOfImageGiB(m / 512), m % 512) }

  function SharedTables(): set<Node> { {TopTable(), TableOfImageGiB(0), TableOfImageGiB(1)} }

  function PieceTables(lo: nat, hi: nat): set<Node> {
    set m: nat | lo <= m < hi :: TableOf2M(m)
  }

  /** The 2 MiB piece of the image window that holds the offset. */
  function Piece(offset: nat): nat
    requires KERNEL_IMAGE_BASE <= offset + KERNEL_LINEAR_BASE
  {
    (offset + KERNEL_LINEAR_BASE - KERNEL_IMAGE_BASE) / MIB2
  }

  lemma PieceMono(a: nat, b: nat)
    requires KERNEL_IMAGE_BASE <= a + KERNEL_LINEAR_BASE && a <= b
    ensures Piece(a) <= Piece(b)
  {
    DivMono(a + KERNEL_LINEAR_BASE - KERNEL_IMAGE_BASE, b + KERNEL_LINEAR_BASE - KERNEL_IMAGE_BASE, MIB2);
  }

  /** How many pieces a section touches. */
  function Pieces(s: Section): nat
    requires SectionOk(s)
  {
    if Lo(s) < Hi(s) then PieceMono(Lo(s), Hi(s) - 1); Piece(Hi(s) - 1) + 1 - Piece(Lo(s)) else 0
  }

  lemma ImagePath(base: nat, y: nat)
    requires base + KERNEL_LINEAR_BASE == KERNEL_IMAGE_BASE + y && y < VA_END - KERNEL_IMAGE_BASE
    ensures NodeOf(L1, UpperVa(base)) == TopTable()
    ensures NodeOf(L2, UpperVa(base)) == TableOfImageGiB(y / GIB) && y / GIB <= 1
    ensures NodeOf(L3, UpperVa(base)) == TableOf2M(y / MIB2)
  {
    var x := KERNEL_IMAGE_BASE + y;
    DivModUnique(x, GIB512, 0x1FF_FFFF, 0x7F_8000_0000 + y);
    DivModUnique(x, GIB, y / GIB + 0x3_FFFF_FFFE, y % GIB);
    DivModUnique(x, MIB2, y / MIB2 + 0x7FF_FFFF_FC00, y % MIB2);
    DivDiv(y, MIB2, 512, GIB);
    DivModUnique(y / GIB + 0x3_FFFF_FFFE, 512, 0x1FF_FFFF, 510 + y / GIB);
    DivModUnique(y / MIB2 + 0x7FF_FFFF_FC00, 512, 0x3_FFFF_FFFE + y / GIB, y / MIB2 % 512);
  }

  lemma {:induction false} PageTablesIn(lo: nat, hi: nat, m: nat, n: nat)
    requires KERNEL_IMAGE_BASE <= lo + KERNEL_LINEAR_BASE && hi + KERNEL_LINEAR_BASE <= VA_END
    requires lo < hi ==> m <= Piece(lo) && Piece(hi - 1) < n
    ensures PageTables(lo, hi) <= SharedTables() + PieceTables(m, n)
    decreases hi - lo
  {
    if lo < hi {
      ImagePath(lo, lo + KERNEL_LINEAR_BASE - KERNEL_IMAGE_BASE);
      PieceMono(lo, hi - 1);
      PieceMono(lo, lo + KIB4);
      PageWay(UpperVa(lo));
      PageTablesIn(lo + KIB4, hi, m, n);
    }
  }

  lemma SectionTablesIn(s: Section)
    requires SectionOk(s)
    ensures Lo(s) < Hi(s) ==> SectionTables(s) <= SharedTables() + PieceTables(Piece(Lo(s)), Piece(Hi(s) - 1) + 1)
  {
    if Lo(s) < Hi(s) { PageTablesIn(Lo(s), Hi(s), Piece(Lo(s)), Piece(Hi(s) - 1) + 1); }
  }

  lemma {:induction false} PieceTablesSize(lo: nat, hi: nat)
    requires lo <= hi
    ensures |PieceTables(lo, hi)| <= hi - lo
    decreases hi - lo
  {
    if lo < hi {
      PieceTablesSize(lo, hi - 1);
      assert PieceTables(lo, hi) == PieceTables(lo, hi - 1) + {TableOf2M(hi - 1)};
    } else {
      assert PieceTables(lo, hi) == {};
    }
  }

  /** Frames that are enough for the image: three, and one for each 2 MiB a section
      touches. */
  function ImageCost(sections: seq<Section>): nat
    requires SectionsOk(sections)
  {
    if sections == [] then 3
    else ImageCost(sections[..|sections| - 1]) + Pieces(sections[|sections| - 1])
  }

  lemma {:induction false} ImagePieces(sections: seq<Section>) returns (x: set<Node>)
    requires SectionsOk(sections)
    ensures ImageTables(sections) <= SharedTables() + x && |x| + 3 <= ImageCost(sections)
  {
    x := {};
    if sections != [] {
      var n := |sections| - 1;
      x := ImagePieces(sections[..n]);
      x := SectionPieces(sections[n], x);
    }
  }

  lemma SectionPieces(s: Section, x: set<Node>) returns (y: set<Node>)
    requires SectionOk(s)
    ensures x <= y && SectionTables(s) <= SharedTables() + y && |y| <= |x| + Pieces(s)
  {
    y := x;
    if Lo(s) < Hi(s) {
      SectionTablesIn(s);
      PieceMono(Lo(s), Hi(s) - 1);
      var more := PieceTables(Piece(Lo(s)), Piece(Hi(s) - 1) + 1);
      PieceTablesSize(Piece(Lo(s)), Piece(Hi(s) - 1) + 1);
      UnionSize(x, more);
      y := x + more;
    }
  }

  /** The image takes at most one level-1 and two level-2 tables, and one level-3
      table for each 2 MiB its sections touch. */
  lemma ImageTablesFew(sections: seq<Section>)
    requires SectionsOk(sections)
    ensures |ImageTables(sections)| <= ImageCost(sections)
  {
    var x := ImagePieces(sections);
    UnionSize(SharedTables(), x);
    assert |SharedTables()| <= 3 by {
      UnionSize({TopTable()}, {TableOfImageGiB(0)});
      assert SharedTables() == {TopTable()} + {TableOfImageGiB(0)} + {TableOfImageGiB(1)};
    }
    SubsetSize(ImageTables(sections), SharedTables() + x);
  }
}
