/** `build_linear`: every RAM region of the device tree at its linear address, and
    the tables that takes. */
module KernelLinear {
  import opened Arith
  import opened Wrappers
  import opened PageTable
  import opened PageWalk
  import opened PageMap
  import opened AddressSpace
  import opened Layout
  import opened KernelMap
  import opened KernelBuild

  const LINEAR_RAM := LeafAttrs(Normal, KernelReadWrite, InnerShareable, Nobody)

  datatype Region = Region(base: nat, size: nat) {
    function End(): nat { base + size }
  }

  predicate InRegion(r: Region, p: int) { r.base <= p < r.End() }

  ghost predicate InRam(regions: seq<Region>, p: int) {
    exists i :: 0 <= i < |regions| && InRegion(regions[i], p)
  }

  /** The regions of the device tree end in the linear window. */
  predicate RegionsOk(regions: seq<Region>) {
    forall i :: 0 <= i < |regions| ==> regions[i].End() <= LINEAR_SPAN
  }

  /** Two of them share a byte. */
  ghost predicate Overlap(regions: seq<Region>) {
    exists i, j, p: int :: 0 <= i < j < |regions| && InRegion(regions[i], p) && InRegion(regions[j], p)
  }

  predicate Mappable(r: Region) {
    r.size == 0 || MadeOfPieces(r.base, r.End())
  }

  /** RAM is mapped with the linear attributes; everything else as in `was`. */
  ghost predicate RamMapped(now: Tables, was: Tables, root: nat, regions: seq<Region>) {
    forall va: Va ::
      if InRam(regions, Offset(va)) then Translates(Walk(now, root, L0, va), Offset(va), LINEAR_RAM)
      else Walk(now, root, L0, va) == Walk(was, root, L0, va)
  }

  /** Frames that are enough for the tables of a region, and of all of them. */
  function Cost(r: Region): nat {
    if r.size == 0 then 0 else DivMono(r.base, r.End() - 1, GIB512); (r.End() - 1) / GIB512 - r.base / GIB512 + 3
  }

  function TotalCost(regions: seq<Region>): nat {
    if regions == [] then 0 else TotalCost(regions[..|regions| - 1]) + Cost(regions[|regions| - 1])
  }

  /** The tables the regions go through. */
  function RamTables(regions: seq<Region>): set<Node> {
    if regions == [] then {}
    else RamTables(regions[..|regions| - 1]) + RoundTables(regions[|regions| - 1].base, regions[|regions| - 1].End())
  }

  lemma {:induction false} RamTablesFew(regions: seq<Region>)
    requires RegionsOk(regions)
    ensures |RamTables(regions)| <= TotalCost(regions)
  {
    if regions != [] {
      var n := |regions| - 1;
      var last := regions[n];
      RamTablesFew(regions[..n]);
      if last.size > 0 { RoundTablesFew(last.base, last.End()); }
      UnionSize(RamTables(regions[..n]), RoundTables(last.base, last.End()));
    }
  }

  lemma {:induction false} RamTablesGrow(regions: seq<Region>, n: nat)
    requires n <= |regions|
    ensures RamTables(regions[..n]) <= RamTables(regions)
    decreases |regions|
  {
    if n < |regions| {
      RamTablesGrow(regions[..|regions| - 1], n);
      assert regions[..|regions| - 1][..n] == regions[..n];
    } else {
      assert regions[..n] == regions;
    }
  }

  lemma RamTablesNext(regions: seq<Region>, n: nat)
    requires n < |regions|
    ensures var more := RoundTables(regions[n].base, regions[n].End());
      RamTables(regions[..n + 1]) == RamTables(regions[..n]) + more && more <= RamTables(regions)
    ensures RamTables(regions[..n]) <= RamTables(regions)
  {
    assert regions[..n + 1][..n] == regions[..n];
    RamTablesGrow(regions, n);
    RamTablesGrow(regions, n + 1);
  }

  /** The first i regions are mappable and mapped, behind a key. */
  ghost predicate RamSoFar(now: Tables, was: Tables, root: nat, regions: seq<Region>, i: nat)
    requires i <= |regions|
  {
    forall z: nat :: Key(z) ==>
      (forall k :: 0 <= k < i ==> Mappable(regions[k])) && RamMapped(now, was, root, regions[..i])
  }

  lemma RamMappedMore(now: Tables, mid: Tables, was: Tables, root: nat, regions: seq<Region>, i: nat)
    requires i < |regions| && RamSoFar(mid, was, root, regions, i) && Mappable(regions[i])
    requires Painted(now, mid, root, regions[i].base, regions[i].End(), 0, LINEAR_RAM)
    ensures RamSoFar(now, was, root, regions, i + 1)
  {
    assert Key(0);
    forall va: Va
      ensures if InRam(regions[..i + 1], Offset(va)) then Translates(Walk(now, root, L0, va), Offset(va), LINEAR_RAM)
        else Walk(now, root, L0, va) == Walk(was, root, L0, va)
    {
      InRamStep(regions, i, Offset(va));
    }
  }

  lemma InRamStep(regions: seq<Region>, i: nat, p: int)
    requires i < |regions|
    ensures InRam(regions[..i + 1], p) <==> InRam(regions[..i], p) || InRegion(regions[i], p)
  {
  }

  /** What is translated in a region not mapped yet belongs to an earlier one. */
  lemma MappedMeansOverlap(now: Tables, was: Tables, root: nat, regions: seq<Region>, i: nat, p: nat)
    requires RegionsOk(regions) && i < |regions| && RamSoFar(now, was, root, regions, i) && Blank(was, root)
    requires InRegion(regions[i], p) && Walk(now, root, L0, UpperVa(p)).Some?
    ensures Overlap(regions)
  {
    assert Key(0);
    OffsetOf(p);
    var k :| 0 <= k < i && InRegion(regions[..i][k], p);
    assert InRegion(regions[k], p);
  }

  /** The tables of the linear map, behind a key. */
  ghost predicate RamPlan(regions: seq<Region>, way: set<Node>) {
    forall z: nat :: Key(z) ==> way == RamTables(regions)
  }

  /** The tables of the first n regions. */
  ghost predicate TablesSoFar(regions: seq<Region>, n: nat, done: set<Node>)
    requires n <= |regions|
  {
    RamPlan(regions[..n], done)
  }

  lemma RamStart(now: Tables, root: nat, regions: seq<Region>)
    ensures TablesSoFar(regions, 0, {}) && RamSoFar(now, now, root, regions, 0)
  {
  }

  lemma RamNext(now: Tables, root: nat, regions: seq<Region>, n: nat, done: set<Node>, way: set<Node>)
    returns (more: set<Node>, blocked: bool)
    requires n < |regions| && TablesSoFar(regions, n, done) && RamPlan(regions, way)
    ensures RegionPlan(now, root, regions[n].base, regions[n].End(), more, blocked)
    ensures more <= way && done <= way && TablesSoFar(regions, n + 1, done + more)
  {
    more, blocked := PlanRegion(now, root, regions[n].base, regions[n].End());
    assert Key(0);
    RamTablesNext(regions, n);
  }

  lemma RamDone(now: Tables, was: Tables, root: nat, regions: seq<Region>, i: nat, done: set<Node>, way: set<Node>)
    requires i == |regions| && TablesSoFar(regions, i, done) && RamPlan(regions, way)
    requires RamSoFar(now, was, root, regions, i)
    ensures done == way && RamMapped(now, was, root, regions)
    ensures forall k :: 0 <= k < |regions| ==> Mappable(regions[k])
  {
    assert regions[..i] == regions;
    assert Key(0);
  }

  /** Without overlapping regions, the linear map is built exactly when every
      non-empty region is made of 2 MiB pieces and the pool can hold the tables that
      are missing. */
  method BuildLinear(space: Space, regions: seq<Region>, ghost way: set<Node>) returns (r: BuildResult)
    requires space.Valid() && RegionsOk(regions) && Blank(space.tables, space.root) && RamPlan(regions, way)
    modifies space
    ensures r == Built ==>
      && (forall i :: 0 <= i < |regions| ==> Mappable(regions[i]))
      && space.Valid() && RamMapped(space.tables, old(space.tables), space.root, regions)
      && Gains(old(space.at), way, space.at, old(space.pool), space.pool)
      && |old(space.pool)| == |space.pool| + |way - old(space.Nodes())|
    ensures r == Unaligned ==> exists i :: 0 <= i < |regions| && !Mappable(regions[i])
    ensures r.Failed? ==> r.why == PanicBlock || r.why == PanicNoFrame
    ensures r == Failed(PanicBlock) ==> Overlap(regions)
    ensures r == Failed(PanicNoFrame) ==> |old(space.pool)| < |way - old(space.Nodes())|
  {
    var i := 0;
    ghost var done: set<Node>, more: set<Node>, blocked := {}, {}, false;
    r := Built;
    space.Counts();
    RamStart(space.tables, space.root, regions);
    while i < |regions|
      invariant 0 <= i <= |regions| && r == Built && space.Valid()
      invariant RamSoFar(space.tables, old(space.tables), space.root, regions, i)
      invariant Gains(old(space.at), done, space.at, old(space.pool), space.pool) && TablesSoFar(regions, i, done)
    {
      more, blocked := RamNext(space.tables, space.root, regions, i, done, way);
      r := LinearRegion(space, regions, i, old(space.tables), old(space.at), old(space.pool), done, more, blocked, way);
      if r != Built { return; }
      i, done := i + 1, done + more;
    }
    RamDone(space.tables, old(space.tables), space.root, regions, i, done, way);
    space.Counts();
    FramesSpent(old(space.at), way, space.at, old(space.pool), space.pool);
  }

  /** One round of `build_linear`. */
  method LinearRegion(space: Space, regions: seq<Region>, i: nat, ghost was: Tables, ghost at0: map<nat, Node>,
                      ghost pool0: seq<nat>, ghost done: set<Node>, ghost more: set<Node>, ghost blocked: bool,
                      ghost way: set<Node>)
    returns (r: BuildResult)
    requires space.Valid() && RegionsOk(regions) && i < |regions| && |at0| == |at0.Values|
    requires Blank(was, space.root) && RamSoFar(space.tables, was, space.root, regions, i)
    requires RegionPlan(space.tables, space.root, regions[i].base, regions[i].End(), more, blocked)
    requires Gains(at0, done, space.at, pool0, space.pool) && done <= way && more <= way
    modifies space
    ensures r == Built ==>
      && space.Valid() && RamSoFar(space.tables, was, space.root, regions, i + 1)
      && Gains(at0, done + more, space.at, pool0, space.pool)
    ensures r == Unaligned ==> !Mappable(regions[i])
    ensures r.Failed? ==> r.why == PanicBlock || r.why == PanicNoFrame
    ensures r == Failed(PanicBlock) ==> Overlap(regions)
    ensures r == Failed(PanicNoFrame) ==> |pool0| < |way - at0.Values|
  {
    var region := regions[i];
    space.Counts();
    r := MapRegion(space, region.base, region.size, LINEAR_RAM, region.End(), more, blocked);
    if r == Built {
      GainsTogether(at0, old(space.at), space.at, pool0, old(space.pool), space.pool, done, more);
      RamMappedMore(space.tables, old(space.tables), was, space.root, regions, i);
    } else if r == Failed(PanicBlock) {
      ghost var p := PlanBlocked(old(space.tables), space.root, region.base, region.End(), more, blocked);
      MappedMeansOverlap(old(space.tables), was, space.root, regions, i, p);
    } else if r == Failed(PanicNoFrame) {
      PartNotEnough(at0, old(space.at), pool0, old(space.pool), done, more, way);
    }
  }
}
