/** `map_region`: a physical range into the linear window in the largest blocks
    that fit, and the tables that takes. */
module KernelBuild {
  import opened Arith
  import opened Wrappers
  import opened PageTable
  import opened PageWalk
  import opened PageMap
  import opened AddressSpace
  import opened Layout
  import opened KernelMap

  /** Only tables of `way` were added, one frame for each. */
  ghost predicate Spent(at: map<nat, Node>, way: set<Node>, at': map<nat, Node>, pool: seq<nat>, pool': seq<nat>) {
    at.Values <= at'.Values <= at.Values + way && |at'| + |pool'| == |at| + |pool|
  }

  // ---------- counting frames ----------

  /** If the walk to the next leaf lacks frames, the pool could not cover all
      the tables of the region to begin with. */
  lemma NotEnough(at0: map<nat, Node>, at: map<nat, Node>, pool0: seq<nat>, pool: seq<nat>, way: set<Node>,
                  below: set<Node>)
    requires Spent(at0, way, at, pool0, pool) && |at0| == |at0.Values| && |at| == |at.Values|
    requires below <= way && |pool| < |below - at.Values|
    ensures |pool0| < |way - at0.Values|
  {
    GainedAndMissing(at0.Values, at.Values, way, below);
  }

  lemma GainedAndMissing<T>(known: set<T>, now: set<T>, way: set<T>, below: set<T>)
    requires known <= now <= known + way && below <= way
    ensures |now| - |known| + |below - now| <= |way - known|
  {
    var gained, missing := now - known, below - now;
    DisjointSize(known, gained, now);
    DisjointSize(gained, missing, gained + missing);
    SubsetSize(gained + missing, way - known);
  }

  lemma DisjointSize<T>(a: set<T>, b: set<T>, c: set<T>)
    requires a !! b && c == a + b
    ensures |c| == |a| + |b|
  {
  }

  lemma SubsetSize<T>(a: set<T>, b: set<T>)
    requires a <= b
    ensures |a| <= |b|
  {
    assert b == a + (b - a);
  }

  lemma SpentMore(at0: map<nat, Node>, at: map<nat, Node>, at': map<nat, Node>, pool0: seq<nat>, pool: seq<nat>,
                  pool': seq<nat>, way: set<Node>, below: set<Node>)
    requires Spent(at0, way, at, pool0, pool) && Gains(at, below, at', pool, pool') && below <= way
    ensures Spent(at0, way, at', pool0, pool')
  {
  }

  lemma GainsTogether(at0: map<nat, Node>, at: map<nat, Node>, at': map<nat, Node>,
                      pool0: seq<nat>, pool: seq<nat>, pool': seq<nat>, done: set<Node>, more: set<Node>)
    requires Gains(at0, done, at, pool0, pool) && Gains(at, more, at', pool, pool')
    ensures Gains(at0, done + more, at', pool0, pool')
  {
  }

  /** A part of the way that lacks frames leaves too few for the whole. */
  lemma PartNotEnough(at0: map<nat, Node>, at: map<nat, Node>, pool0: seq<nat>, pool: seq<nat>,
                      done: set<Node>, more: set<Node>, way: set<Node>)
    requires Gains(at0, done, at, pool0, pool) && done <= way && more <= way
    requires |at0| == |at0.Values| && |at| == |at.Values| && |pool| < |more - at.Values|
    ensures |pool0| < |way - at0.Values|
  {
    NotEnough(at0, at, pool0, pool, way, more);
  }

  /** A build that added the tables of `way` spent a frame for each that was missing. */
  lemma FramesSpent(at: map<nat, Node>, way: set<Node>, at': map<nat, Node>, pool: seq<nat>, pool': seq<nat>)
    requires Gains(at, way, at', pool, pool') && |at| == |at.Values| && |at'| == |at'.Values|
    ensures |pool| == |pool'| + |way - at.Values|
  {
    DisjointSize(at.Values, way - at.Values, at'.Values);
  }

  // ---------- choosing a block ----------

  /** The largest block that `map_region` may put at pa. */
  function BlockAt(pa: nat, end: nat): Option<Level>
    requires pa < end
  {
    if pa % GIB == 0 && end - pa >= GIB then Some(L1)
    else if pa % MIB2 == 0 && end - pa >= MIB2 then Some(L2)
    else None
  }

  /** How far the region has got: 2 MiB blocks lie only in the GiB it starts in
      and the GiB it ends in. */
  predicate Reached(base: nat, pa: nat, end: nat) {
    && base <= pa <= end
    && (pa > base ==> base % MIB2 == 0 && pa % MIB2 == 0)
    && (pa / GIB == base / GIB || pa % GIB == 0 || pa / GIB == end / GIB)
  }

  lemma BlockFits(base: nat, pa: nat, end: nat)
    requires pa < end && Reached(base, pa, end)
    ensures var b := BlockAt(pa, end);
      && (b.Some? ==> pa % Span(b.value) == 0 && pa + Span(b.value) <= end && pa % MIB2 == 0)
      && (b.None? ==> base % MIB2 != 0 || end % MIB2 != 0)
  {
    DivDiv(pa, MIB2, 512, GIB);
  }

  lemma BlockReaches(base: nat, pa: nat, end: nat, pa': nat)
    requires pa < end && Reached(base, pa, end) && BlockAt(pa, end).Some? && pa' == pa + Span(BlockAt(pa, end).value)
    ensures Reached(base, pa', end)
  {
    BlockFits(base, pa, end);
    var n := Span(BlockAt(pa, end).value);
    DivModUnique(pa + n, MIB2, pa / MIB2 + n / MIB2, 0);
    if n == GIB {
      DivModUnique(pa + n, GIB, pa / GIB + 1, 0);
    } else {
      NextPiece(pa);
      if pa % GIB == 0 { DivModUnique(end, GIB, pa / GIB, end - pa); }
    }
  }

  /** The 2 MiB piece after pa is in the same GiB, or starts the next one. */
  lemma NextPiece(pa: nat)
    requires pa % MIB2 == 0
    ensures (pa + MIB2) / GIB == pa / GIB || (pa + MIB2) % GIB == 0
  {
  }

  /** The tables a region may take; none for an empty one. */
  function TablesFor(base: nat, end: nat): set<Node> {
    if base < end then RegionTables(base, end) else {}
  }

  lemma BlockTables(base: nat, pa: nat, end: nat)
    requires pa < end <= LINEAR_SPAN && Reached(base, pa, end) && BlockAt(pa, end).Some?
    ensures Below(L0, BlockAt(pa, end).value, UpperVa(pa)) <= TablesFor(base, end)
  {
    LinearTables(pa);
    DivMono(base, pa, GIB512);
    DivMono(pa, end - 1, GIB512);
    assert TableOf512G(pa / GIB512) in Tables512G(base / GIB512, (end - 1) / GIB512 + 1);
    if BlockAt(pa, end).value == L2 {
      assert pa / GIB == base / GIB || pa / GIB == end / GIB;
    }
  }

  lemma RegionDone(base: nat, end: nat, pa: nat)
    requires Reached(base, pa, end) && pa >= end
    ensures pa == end && (base == end || MadeOfPieces(base, end))
  {
  }

  /** The tables the rounds from pa on go through. */
  function RoundTables(pa: nat, end: nat): set<Node>
    decreases end - pa
  {
    if pa < end && BlockAt(pa, end).Some? then
      var l := BlockAt(pa, end).value;
      Below(L0, l, UpperVa(pa)) + RoundTables(pa + Span(l), end)
    else {}
  }

  lemma {:induction false} RoundTablesIn(base: nat, pa: nat, end: nat)
    requires end <= LINEAR_SPAN && Reached(base, pa, end)
    ensures RoundTables(pa, end) <= TablesFor(base, end)
    decreases end - pa
  {
    if pa < end && BlockAt(pa, end).Some? {
      var pa' := pa + Span(BlockAt(pa, end).value);
      BlockPlan(base, pa, end, pa');
      RoundTablesIn(base, pa', end);
    }
  }

  /** However large the region, it takes at most two level-2 tables and one level-1
      table per 512 GiB touched. */
  lemma RoundTablesFew(base: nat, end: nat)
    requires base < end <= LINEAR_SPAN
    ensures |RoundTables(base, end)| <= (end - 1) / GIB512 - base / GIB512 + 3
  {
    RoundTablesIn(base, base, end);
    SubsetSize(RoundTables(base, end), RegionTables(base, end));
    RegionTablesFew(base, end);
  }

  // ---------- blocks in the way ----------

  /** The round at pa meets a leaf above its own level. */
  ghost predicate BlockedAt(was: Tables, root: nat, pa: nat, l: Level) {
    var x := Walk(was, root, L0, UpperVa(pa));
    x.Some? && Depth(x.value.level) < Depth(l)
  }

  /** So does some round from pa on. */
  ghost predicate Blocked(was: Tables, root: nat, pa: nat, end: nat)
    decreases end - pa
  {
    pa < end && BlockAt(pa, end).Some? &&
    var l := BlockAt(pa, end).value;
    BlockedAt(was, root, pa, l) || Blocked(was, root, pa + Span(l), end)
  }

  lemma {:induction false} BlockedIsMapped(was: Tables, root: nat, pa: nat, end: nat) returns (p: nat)
    requires Blocked(was, root, pa, end)
    ensures pa <= p < end && Walk(was, root, L0, UpperVa(p)).Some?
    decreases end - pa
  {
    var l := BlockAt(pa, end).value;
    if BlockedAt(was, root, pa, l) { p := pa; } else { p := BlockedIsMapped(was, root, pa + Span(l), end); }
  }

  // ---------- map_region ----------

  /** What lies ahead of `map_region`: the tables its rounds go through, and whether
      one of them meets a leaf above its level. Kept behind a key. */
  ghost predicate RegionPlan(was: Tables, root: nat, base: nat, end: nat, way: set<Node>, blocked: bool) {
    forall z: nat :: Key(z) ==> way == RoundTables(base, end) && (blocked <==> Blocked(was, root, base, end))
  }

  lemma PlanRegion(was: Tables, root: nat, base: nat, end: nat) returns (way: set<Node>, blocked: bool)
    ensures RegionPlan(was, root, base, end, way, blocked)
  {
    way, blocked := RoundTables(base, end), Blocked(was, root, base, end);
  }

  /** Map the physical range [base, base + size) into the linear window. */
  method MapRegion(space: Space, base: nat, size: nat, attrs: LeafAttrs, ghost end: nat,
                   ghost way: set<Node>, ghost blocked: bool)
    returns (r: BuildResult)
    requires space.Valid() && end == base + size <= LINEAR_SPAN
    requires RegionPlan(space.tables, space.root, base, end, way, blocked)
    modifies space
    // the region is mapped only if it is made of 2 MiB pieces
    ensures r == Built ==> size == 0 || MadeOfPieces(base, end)
    ensures r == Unaligned ==> size > 0 && !MadeOfPieces(base, end)
    // it stops on a block exactly when a round meets a leaf above its level, if it
    // does not lack frames before that
    ensures r.Failed? ==> r.why == PanicBlock || r.why == PanicNoFrame
    ensures r != Failed(PanicNoFrame) ==> (r == Failed(PanicBlock) <==> blocked)
    // it lacks frames only if the pool cannot hold the tables its rounds are missing
    ensures r == Failed(PanicNoFrame) ==> |old(space.pool)| < |way - old(space.Nodes())|
    ensures r == Built ==>
      && space.Valid() && Painted(space.tables, old(space.tables), space.root, base, end, 0, attrs)
      && Gains(old(space.at), way, space.at, old(space.pool), space.pool)
      && |old(space.pool)| == |space.pool| + |way - old(space.Nodes())|
  {
    AheadStart(space.tables, space.root, space.at, base, end, way, blocked);
    var pa: nat := base;
    r := Built;
    space.Counts();
    while pa < base + size
      invariant r == Built && space.Valid() && Reached(base, pa, end)
      invariant Painted(space.tables, old(space.tables), space.root, base, pa, 0, attrs)
      invariant Spent(old(space.at), way, space.at, old(space.pool), space.pool)
      invariant Ahead(old(space.tables), space.root, old(space.at), way, blocked, space.at, pa, end)
    {
      AheadRound(old(space.tables), space.root, old(space.at), way, blocked, space.at, pa, end);
      ghost var at, from := space.at, pa;
      r, pa := MapNextBlock(space, base, pa, base + size, attrs, end, way, old(space.tables), old(space.at),
                            old(space.pool));
      if r != Built { return; }
      AheadTaken(old(space.tables), space.root, old(space.at), way, blocked, at, space.at, from, pa, end);
    }
    RegionDone(base, end, pa);
    AheadDone(old(space.tables), space.root, old(space.at), way, blocked, space.at, pa, end);
    space.Counts();
    FramesSpent(old(space.at), way, space.at, old(space.pool), space.pool);
  }

  predicate MadeOfPieces(base: nat, end: nat) {
    base % MIB2 == 0 && end % MIB2 == 0
  }

  // ---------- the rounds ahead ----------

  /** Tables so far and tables of the rounds to come make up the whole, and a block
      is in the way of the whole if it is in the way of the rounds to come. */
  ghost predicate RoundsLeft(was: Tables, root: nat, at0: map<nat, Node>, way: set<Node>, blocked: bool,
                             at: map<nat, Node>, pa: nat, end: nat) {
    && RoundTables(pa, end) <= way && at.Values + RoundTables(pa, end) == at0.Values + way
    && (blocked <==> Blocked(was, root, pa, end))
  }

  /** The same, behind a key. */
  ghost predicate Ahead(was: Tables, root: nat, at0: map<nat, Node>, way: set<Node>, blocked: bool,
                        at: map<nat, Node>, pa: nat, end: nat) {
    forall z: nat :: Key(z) ==> RoundsLeft(was, root, at0, way, blocked, at, pa, end)
  }

  lemma AheadStart(was: Tables, root: nat, at: map<nat, Node>, base: nat, end: nat, way: set<Node>, blocked: bool)
    requires RegionPlan(was, root, base, end, way, blocked)
    ensures Ahead(was, root, at, way, blocked, at, base, end)
  {
    assert Key(0);
  }

  /** Some byte of a blocked region was mapped before. */
  lemma PlanBlocked(was: Tables, root: nat, base: nat, end: nat, way: set<Node>, blocked: bool) returns (p: nat)
    requires RegionPlan(was, root, base, end, way, blocked) && blocked
    ensures base <= p < end && Walk(was, root, L0, UpperVa(p)).Some?
  {
    assert Key(0);
    p := BlockedIsMapped(was, root, base, end);
  }

  lemma AheadRound(was: Tables, root: nat, at0: map<nat, Node>, way: set<Node>, blocked: bool,
                   at: map<nat, Node>, pa: nat, end: nat)
    requires Ahead(was, root, at0, way, blocked, at, pa, end) && pa < end
    ensures var b := BlockAt(pa, end);
      && (b.None? ==> !blocked)
      && (b.Some? ==> Below(L0, b.value, UpperVa(pa)) <= way && (BlockedAt(was, root, pa, b.value) ==> blocked))
  {
    assert Key(0);
  }

  lemma AheadTaken(was: Tables, root: nat, at0: map<nat, Node>, way: set<Node>, blocked: bool,
                   at: map<nat, Node>, at': map<nat, Node>, pa: nat, pa': nat, end: nat)
    requires Ahead(was, root, at0, way, blocked, at, pa, end) && pa < end && BlockAt(pa, end).Some?
    requires pa' == pa + Span(BlockAt(pa, end).value) && !BlockedAt(was, root, pa, BlockAt(pa, end).value)
    requires at'.Values == at.Values + Below(L0, BlockAt(pa, end).value, UpperVa(pa))
    ensures Ahead(was, root, at0, way, blocked, at', pa', end)
  {
    assert Key(0);
  }

  lemma AheadDone(was: Tables, root: nat, at0: map<nat, Node>, way: set<Node>, blocked: bool,
                  at: map<nat, Node>, pa: nat, end: nat)
    requires Ahead(was, root, at0, way, blocked, at, pa, end) && pa >= end
    ensures at.Values == at0.Values + way && !blocked
  {
    assert Key(0);
  }

  /** One round of `map_region`. */
  method MapNextBlock(space: Space, base: nat, pa: nat, stop: nat, attrs: LeafAttrs, ghost end: nat,
                      ghost way: set<Node>, ghost was: Tables, ghost at0: map<nat, Node>, ghost pool0: seq<nat>)
    returns (r: BuildResult, pa': nat)
    requires space.Valid() && pa < end <= LINEAR_SPAN && Reached(base, pa, end) && |at0| == |at0.Values| && stop == end
    requires Painted(space.tables, was, space.root, base, pa, 0, attrs) && Spent(at0, way, space.at, pool0, space.pool)
    requires BlockAt(pa, end).Some? ==> Below(L0, BlockAt(pa, end).value, UpperVa(pa)) <= way
    modifies space
    ensures r == Unaligned ==> !MadeOfPieces(base, end)
    ensures r.Failed? ==> r.why == PanicBlock || r.why == PanicNoFrame
    ensures r == Unaligned <==> BlockAt(pa, end).None?
    ensures r == Failed(PanicBlock) ==> BlockedAt(was, space.root, pa, BlockAt(pa, end).value)
    ensures r == Failed(PanicNoFrame) ==> |pool0| < |way - at0.Values|
    ensures r == Built ==>
      && pa' == pa + Span(BlockAt(pa, end).value) && !BlockedAt(was, space.root, pa, BlockAt(pa, end).value)
      && space.Valid() && Reached(base, pa', end) && Painted(space.tables, was, space.root, base, pa', 0, attrs)
      && Spent(at0, way, space.at, pool0, space.pool)
      && space.at.Values == old(space.at.Values) + Below(L0, BlockAt(pa, end).value, UpperVa(pa))
  {
    BlockFits(base, pa, end);
    var block := BlockAt(pa, stop);
    if block.None? { return Unaligned, pa; }
    pa' := pa + Span(block.value);
    ghost var below := Below(L0, block.value, UpperVa(pa));
    BlockPlan(base, pa, end, pa');
    space.Counts();
    var status := space.Map(UpperVa(pa), pa, block.value, attrs);
    if status != Done {
      if status == PanicNoFrame { NotEnough(at0, old(space.at), pool0, old(space.pool), way, below); }
      return Failed(status), pa;
    }
    SpentMore(at0, old(space.at), space.at, pool0, old(space.pool), space.pool, way, below);
    BlockPaints(space.tables, old(space.tables), was, space.root, base, pa, end, pa', attrs);
    r := Built;
  }

  lemma BlockPlan(base: nat, pa: nat, end: nat, pa': nat)
    requires pa < end <= LINEAR_SPAN && Reached(base, pa, end) && BlockAt(pa, end).Some?
    requires pa' == pa + Span(BlockAt(pa, end).value)
    ensures Reached(base, pa', end) && Offset(UpperVa(pa)) == pa
    ensures Below(L0, BlockAt(pa, end).value, UpperVa(pa)) <= TablesFor(base, end)
  {
    BlockReaches(base, pa, end, pa');
    BlockTables(base, pa, end);
    OffsetOf(pa);
  }

  lemma BlockPaints(now: Tables, mid: Tables, was: Tables, root: nat, base: nat, pa: nat, end: nat, pa': nat,
                    attrs: LeafAttrs)
    requires pa < end <= LINEAR_SPAN && Reached(base, pa, end) && BlockAt(pa, end).Some?
    requires pa' == pa + Span(BlockAt(pa, end).value)
    requires OneLeaf(now, mid, root, UpperVa(pa), pa, BlockAt(pa, end).value, attrs)
    requires Painted(mid, was, root, base, pa, 0, attrs)
    ensures Painted(now, was, root, base, pa', 0, attrs)
  {
    BlockFits(base, pa, end);
    LeafPaints(now, mid, root, pa, pa, BlockAt(pa, end).value, attrs);
    PaintedTogether(now, mid, was, root, base, pa, pa', 0, attrs);
  }
}
