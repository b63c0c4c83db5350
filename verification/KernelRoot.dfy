/** `build`: the whole kernel translation tree, from the RAM regions of the
    device tree and the sections of the kernel image. */
module KernelRoot {
  import opened Arith
  import opened Wrappers
  import opened PageTable
  import opened PageWalk
  import opened PageMap
  import opened AddressSpace
  import opened Layout
  import opened KernelMap
  import opened KernelBuild
  import opened KernelImage
  import opened KernelLinear
  import opened KernelView

  // ---------- the device page ----------

  lemma DeviceAddress()
    ensures FromRaw(PaToDeviceVa(UART_PA)) == UpperVa(UART_OFFSET) && Offset(UpperVa(UART_OFFSET)) == UART_OFFSET
    ensures UART_OFFSET % KIB4 == 0 && UART_PA % KIB4 == 0 && LINEAR_SPAN <= UART_OFFSET < UPPER_HALF
  {
    OffsetOf(UART_OFFSET);
  }

  /** The tables of the device page: one of each level. */
  function DeviceTables(): set<Node> { Below(L0, L3, UpperVa(UART_OFFSET)) }

  lemma DeviceTablesFew(known: set<Node>)
    ensures |DeviceTables() - known| <= |DeviceTables()| <= 3
  {
    var va := UpperVa(UART_OFFSET);
    assert Below(L3, L3, va) == {};
    assert Below(L2, L3, va) == {NodeOf(L3, va)};
    UnionSize({NodeOf(L2, va)}, Below(L2, L3, va));
    UnionSize({NodeOf(L1, va)}, Below(L1, L3, va));
    SubsetSize(DeviceTables() - known, DeviceTables());
  }

  /** Only the page of the UART changed, and it leads to the UART. */
  ghost predicate DevicePainted(now: Tables, was: Tables, root: nat) {
    Painted(now, was, root, UART_OFFSET, UART_OFFSET + KIB4, UART_PA - UART_OFFSET, DEVICE_ATTRS)
  }

  lemma DeviceMapped(now: Tables, was: Tables, root: nat)
    requires WriteXorExecute(was, root) && OneLeaf(now, was, root, UpperVa(UART_OFFSET), UART_PA, L3, DEVICE_ATTRS)
    ensures WriteXorExecute(now, root) && DevicePainted(now, was, root)
  {
    DeviceAddress();
    LeafPaints(now, was, root, UART_OFFSET, UART_PA, L3, DEVICE_ATTRS);
    PaintKeepsWX(now, was, root, UART_OFFSET, UART_OFFSET + KIB4, UART_PA - UART_OFFSET, DEVICE_ATTRS);
  }

  /** Built exactly when the pool can hold the missing ones of its tables. */
  method BuildDevice(space: Space, ghost way: set<Node>) returns (r: BuildResult)
    requires space.Valid() && PagesOnly(space.tables, space.root) && WriteXorExecute(space.tables, space.root)
    requires way == DeviceTables()
    modifies space
    ensures r == Built || r == Failed(PanicNoFrame)
    ensures r == Built <==> |old(space.pool)| >= |way - old(space.Nodes())|
    ensures r == Built ==>
      && space.Valid() && WriteXorExecute(space.tables, space.root)
      && DevicePainted(space.tables, old(space.tables), space.root)
      && Gains(old(space.at), way, space.at, old(space.pool), space.pool)
  {
    DeviceAddress();
    space.Counts();
    var status := space.Map(FromRaw(PaToDeviceVa(UART_PA)), UART_PA, L3, DEVICE_ATTRS);
    if status != Done { return Failed(status); }
    space.Counts();
    FramesSpent(old(space.at), way, space.at, old(space.pool), space.pool);
    DeviceMapped(space.tables, old(space.tables), space.root);
    r := Built;
  }

  // ---------- build ----------

  /** The tables of the whole map below the root. */
  function KernelTables(regions: seq<Region>, sections: seq<Section>): set<Node>
    requires SectionsOk(sections)
  {
    RamTables(regions) + ImageTables(sections) + DeviceTables()
  }

  /** Frames that are enough for the whole map, root included. */
  function FramesFor(regions: seq<Region>, sections: seq<Section>): nat
    requires SectionsOk(sections)
  {
    1 + TotalCost(regions) + ImageCost(sections) + 3
  }

  lemma FramesForIsEnough(regions: seq<Region>, sections: seq<Section>)
    requires RegionsOk(regions) && SectionsOk(sections)
    ensures 1 + |KernelTables(regions, sections) - {Root}| <= FramesFor(regions, sections)
  {
    RamTablesFew(regions);
    ImageTablesFew(sections);
    DeviceTablesFew({});
    UnionSize(RamTables(regions), ImageTables(sections));
    UnionSize(RamTables(regions) + ImageTables(sections), DeviceTables());
    SubsetSize(KernelTables(regions, sections) - {Root}, KernelTables(regions, sections));
  }

  /** `build`: a root, then the linear map, the image and the device page. Without
      overlapping regions it is built exactly when every non-empty region is made of
      2 MiB pieces and there is a frame for the root and for each table. */
  method Build(regions: seq<Region>, layout: ImageLayout, frames: seq<nat>) returns (r: BuildResult, space: Space?)
    requires RegionsOk(regions) && SectionsOk(Sections(layout)) && PoolOk(map[], frames)
    ensures r == Built ==>
      && space != null && fresh(space) && space.Valid() && (forall i :: 0 <= i < |regions| ==> Mappable(regions[i]))
      && AsLaidOut(space.tables, space.root, regions, layout)
      && KernelMapped(space.tables, space.root, regions, Sections(layout))
      && |frames| == |space.pool| + 1 + |KernelTables(regions, Sections(layout)) - {Root}|
    ensures r == Unaligned ==> exists i :: 0 <= i < |regions| && !Mappable(regions[i])
    ensures r.Failed? ==> r.why == PanicBlock || r.why == PanicNoFrame
    ensures r == Failed(PanicBlock) ==> Overlap(regions)
    ensures r == Failed(PanicNoFrame) ==> |frames| < 1 + |KernelTables(regions, Sections(layout)) - {Root}|
    ensures !Overlap(regions) ==>
      (r == Built <==>
         && (forall i :: 0 <= i < |regions| ==> Mappable(regions[i]))
         && |frames| >= 1 + |KernelTables(regions, Sections(layout)) - {Root}|)
  {
    if frames == [] { return Failed(PanicNoFrame), null; }
    FramesAfterRoot(frames);
    ghost var ram, image := RamTables(regions), ImageTables(Sections(layout));
    space := new Space(frames[0], frames[1..]);
    r := BuildAll(space, regions, Sections(layout), ram, image, DeviceTables());
    if r == Built { MappedAsLaidOut(space.tables, space.root, regions, layout); }
  }

  /** The three parts, in the tables of each. */
  method BuildAll(space: Space, regions: seq<Region>, sections: seq<Section>,
                  ghost ram: set<Node>, ghost image: set<Node>, ghost device: set<Node>)
    returns (r: BuildResult)
    requires space.Valid() && RegionsOk(regions) && SectionsOk(sections) && Blank(space.tables, space.root)
    requires RamPlan(regions, ram) && ImagePlan(sections, image) && device == DeviceTables()
    modifies space
    ensures r == Unaligned ==> exists i :: 0 <= i < |regions| && !Mappable(regions[i])
    ensures r.Failed? ==> r.why == PanicBlock || r.why == PanicNoFrame
    ensures r == Failed(PanicBlock) ==> Overlap(regions)
    ensures r == Failed(PanicNoFrame) ==> |old(space.pool)| < |ram + image + device - old(space.Nodes())|
    ensures r == Built ==>
      && (forall i :: 0 <= i < |regions| ==> Mappable(regions[i]))
      && space.Valid() && KernelMapped(space.tables, space.root, regions, sections)
      && |old(space.pool)| == |space.pool| + |ram + image + device - old(space.Nodes())|
  {
    ghost var t0, at0, pool0, way := space.tables, space.at, space.pool, ram + image + device;
    space.Counts();
    r := BuildLinear(space, regions, ram);
    if r == Failed(PanicNoFrame) { SubsetSize(ram - at0.Values, way - at0.Values); }
    if r != Built { return; }
    ghost var t1 := space.tables;
    LinearOnly(t1, t0, space.root, regions);
    r := ImageThenDevice(space, sections, ram, image, device, at0, pool0, way);
    if r == Built {
      ghost var t2 :| SectionsMapped(t2, t1, space.root, sections) && DevicePainted(space.tables, t2, space.root);
      WholeKernel(t0, t1, t2, space.tables, space.root, regions, sections);
    }
  }

  /** After the linear map: the image and the device page. */
  method ImageThenDevice(space: Space, sections: seq<Section>, ghost ram: set<Node>, ghost image: set<Node>,
                         ghost device: set<Node>, ghost at0: map<nat, Node>, ghost pool0: seq<nat>,
                         ghost way: set<Node>)
    returns (r: BuildResult)
    requires space.Valid() && SectionsOk(sections) && ImagePlan(sections, image) && device == DeviceTables()
    requires PagesOnly(space.tables, space.root) && WriteXorExecute(space.tables, space.root)
    requires |at0| == |at0.Values| && Gains(at0, ram, space.at, pool0, space.pool) && way == ram + image + device
    modifies space
    ensures r == Built || (r == Failed(PanicNoFrame) && |pool0| < |way - at0.Values|)
    ensures r == Built ==>
      && space.Valid() && WriteXorExecute(space.tables, space.root) && |pool0| == |space.pool| + |way - at0.Values|
      && exists t: Tables ::
           SectionsMapped(t, old(space.tables), space.root, sections) && DevicePainted(space.tables, t, space.root)
  {
    space.Counts();
    r := BuildImage(space, sections, image);
    if r != Built {
      PartNotEnough(at0, old(space.at), pool0, old(space.pool), ram, image, way);
      return;
    }
    ghost var t, at, pool := space.tables, space.at, space.pool;
    GainsTogether(at0, old(space.at), at, pool0, old(space.pool), pool, ram, image);
    space.Counts();
    r := BuildDevice(space, device);
    if r != Built {
      PartNotEnough(at0, at, pool0, pool, ram + image, device, way);
      return;
    }
    GainsTogether(at0, at, space.at, pool0, pool, space.pool, ram + image, device);
    space.Counts();
    FramesSpent(at0, way, space.at, pool0, space.pool);
    assert DevicePainted(space.tables, t, space.root);
  }

  lemma FramesAfterRoot(frames: seq<nat>)
    requires PoolOk(map[], frames) && frames != []
    ensures FreshFrame(map[], frames[0]) && PoolOk(map[frames[0] := Zeros()], frames[1..])
  {
  }

  lemma LinearOnly(now: Tables, was: Tables, root: nat, regions: seq<Region>)
    requires RegionsOk(regions) && RamMapped(now, was, root, regions)
    requires Blank(was, root)
    ensures PagesOnly(now, root) && WriteXorExecute(now, root)
  {
  }

  lemma WholeKernel(t0: Tables, t1: Tables, t2: Tables, t3: Tables, root: nat, regions: seq<Region>,
                    sections: seq<Section>)
    requires RegionsOk(regions) && SectionsOk(sections)
    requires Blank(t0, root)
    requires RamMapped(t1, t0, root, regions) && SectionsMapped(t2, t1, root, sections)
    requires DevicePainted(t3, t2, root)
    requires WriteXorExecute(t3, root)
    ensures KernelMapped(t3, root, regions, sections)
  {
    forall va: Va
      ensures AddressMapped(Walk(t3, root, L0, va), Offset(va), regions, sections)
    {
      WholeAddress(t0, t1, t2, t3, root, regions, sections, va);
    }
  }

  /** The three parts lie in different windows. */
  lemma WholeAddress(t0: Tables, t1: Tables, t2: Tables, t3: Tables, root: nat, regions: seq<Region>,
                     sections: seq<Section>, va: Va)
    requires RegionsOk(regions) && SectionsOk(sections) && Blank(t0, root)
    requires RamMapped(t1, t0, root, regions) && SectionsMapped(t2, t1, root, sections) && DevicePainted(t3, t2, root)
    ensures AddressMapped(Walk(t3, root, L0, va), Offset(va), regions, sections)
  {
    var p := Offset(va);
    if UART_OFFSET <= p < UART_OFFSET + KIB4 {
      assert forall i :: 0 <= i < |sections| ==> !InSection(sections[i], p);
    } else {
      assert Walk(t3, root, L0, va) == Walk(t2, root, L0, va);
      if !InSomeSection(sections, p) {
        assert Walk(t2, root, L0, va) == Walk(t1, root, L0, va);
      } else {
        var k :| 0 <= k < |sections| && InSection(sections[k], p);
        assert !InRam(regions, p);
      }
    }
  }
}
