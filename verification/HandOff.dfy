/** The hand-off from the boot allocator to the buddy allocator: which frames
    become free, when the hand-off is legal at all, and when it leaves no pair
    of free buddies unmerged. */
module HandOff {
  import opened Wrappers
  import opened BuddyModel
  import opened BuddySteps
  import opened BuddyFrames
  import opened BuddyCarve
  import opened BuddyRuns
  import opened BootMem

  /** (p, k) is a block carved from the i-th hole; `base` is the frame that the
      buddy allocator counts from. */
  ghost predicate CarvedFrom(base: nat, hs: seq<Region>, i: nat, p: nat, k: nat) {
    i < |hs| && base <= hs[i].base && CarveBlock(hs[i].base - base, hs[i].frames, p, k)
  }

  /** The free blocks are those that the carve of each hole gives. */
  ghost predicate SameBlocks(s: State, base: nat, hs: seq<Region>) {
    forall p: nat, k: nat :: FreeBlock(s, p, k) <==> exists i: nat :: CarvedFrom(base, hs, i, p, k)
  }

  /** The same, behind a key. */
  ghost predicate BlocksOf(s: State, base: nat, hs: seq<Region>) {
    forall z: nat :: Key(z) ==> SameBlocks(s, base, hs)
  }

  /** Every frame outside the holes is reserved, and none inside. */
  ghost predicate RestReserved(s: State, base: nat, hs: seq<Region>) {
    forall f: nat :: f in s.reserved <==> f < s.nr && !InSome(base + f, hs)
  }

  ghost predicate Sound(s: State) {
    |s.lists| == MAX_ORDER && forall z: nat :: Key(z) ==> WF(s) && Covered(s)
  }

  lemma SoundFacts(s: State)
    requires Sound(s)
    ensures WF(s) && Covered(s)
  {
    assert Key(0);
  }

  /** The frames of the holes are free and the others reserved. */
  ghost predicate HandedOver(s: State, base: nat, hs: seq<Region>) {
    Sound(s) && s.live == map[] && RestReserved(s, base, hs) && BlocksOf(s, base, hs)
  }

  ghost predicate Inside(h: Region, base: nat, nr: nat) {
    base <= h.base && h.End() <= base + nr
  }

  lemma NothingHandedOver(nr: nat, base: nat)
    ensures HandedOver(Initial(nr), base, [])
  {
  }

  /** The next hole may be freed exactly when no earlier hole holds one of its frames. */
  lemma NextHoleLegal(s: State, base: nat, hs: seq<Region>, h: Region)
    requires HandedOver(s, base, hs) && Inside(h, base, s.nr)
    ensures AllReserved(s, h.base - base, h.frames) <==> forall f: int :: In(f, h) ==> !InSome(f, hs)
  {
    if forall f: int :: In(f, h) ==> !InSome(f, hs) {
      forall g: nat | h.base - base <= g < h.base - base + h.frames
        ensures g in s.reserved
      {
        assert In(base + g, h);
      }
    }
    if AllReserved(s, h.base - base, h.frames) {
      forall f: int | In(f, h)
        ensures !InSome(f, hs)
      {
        var g: nat := f - base;
        assert g in s.reserved && base + g == f;
      }
    }
  }

  /** t is s after the hole h is freed. */
  ghost predicate Frees(s: State, t: State, base: nat, h: Region) {
    && |s.lists| == MAX_ORDER && Inside(h, base, s.nr)
    && AllReserved(s, h.base - base, h.frames) && t == FreeRange(s, h.base - base, h.frames)
  }

  lemma HandOverHole(s: State, t: State, base: nat, hs: seq<Region>, h: Region)
    requires HandedOver(s, base, hs) && Frees(s, t, base, h)
    ensures HandedOver(t, base, hs + [h]) && t.nr == s.nr
  {
    SoundHole(s, t, base, h);
    RestReservedHole(s, t, base, hs, h);
    BlocksOfHole(s, t, base, hs, h);
  }

  lemma SoundHole(s: State, t: State, base: nat, h: Region)
    requires Sound(s) && Frees(s, t, base, h)
    ensures Sound(t) && t.live == s.live && t.nr == s.nr
  {
    var op := DoFreeRange(h.base - base, h.frames);
    SoundFacts(s);
    StepWF(s, op);
    StepCovered(s, op);
    FreeRangeCount(s, op.start, op.count);
  }

  lemma RestReservedHole(s: State, t: State, base: nat, hs: seq<Region>, h: Region)
    requires RestReserved(s, base, hs) && Frees(s, t, base, h)
    ensures RestReserved(t, base, hs + [h])
  {
    var start, hs' := h.base - base, hs + [h];
    FreeRangeCount(s, start, h.frames);
    forall f: nat
      ensures f in t.reserved <==> f < s.nr && !InSome(base + f, hs')
    {
      FreeRangeFrames(s, start, h.frames, f);
      InSomeLast(base + f, hs');
      assert hs'[..|hs|] == hs;
    }
  }

  lemma BlocksOfHole(s: State, t: State, base: nat, hs: seq<Region>, h: Region)
    requires BlocksOf(s, base, hs) && Frees(s, t, base, h)
    ensures BlocksOf(t, base, hs + [h])
  {
    FreeRangeBlocks(s, h.base - base, h.frames);
    assert Key(0);
    forall p: nat, k: nat
      ensures FreeBlock(t, p, k) <==> exists i: nat :: CarvedFrom(base, hs + [h], i, p, k)
    {
      CarvedFromLast(base, hs, h, p, k);
    }
  }

  lemma CarvedFromLast(base: nat, hs: seq<Region>, h: Region, p: nat, k: nat)
    requires base <= h.base
    ensures (exists i: nat :: CarvedFrom(base, hs + [h], i, p, k)) <==>
      (exists i: nat :: CarvedFrom(base, hs, i, p, k)) || CarveBlock(h.base - base, h.frames, p, k)
  {
    var hs' := hs + [h];
    if i: nat :| CarvedFrom(base, hs, i, p, k) { assert CarvedFrom(base, hs', i, p, k); }
    if CarveBlock(h.base - base, h.frames, p, k) { assert CarvedFrom(base, hs', |hs|, p, k); }
    if i: nat :| CarvedFrom(base, hs', i, p, k) {
      if i < |hs| { assert CarvedFrom(base, hs, i, p, k); }
    }
  }

  // ---------- when the hand-off is legal ----------

  /** The calls of `free_range` that the hand-off makes. */
  function FreeOps(base: nat, hs: seq<Region>): seq<Op>
    requires forall i :: 0 <= i < |hs| ==> base <= hs[i].base
  {
    seq(|hs|, i requires 0 <= i < |hs| => DoFreeRange(hs[i].base - base, hs[i].frames))
  }

  lemma {:induction false} FreeOpsLegal(s: State, base: nat, done: seq<Region>, hs: seq<Region>)
    requires WF(s) && HandedOver(s, base, done) && Apart(done)
    requires forall i :: 0 <= i < |hs| ==> base <= hs[i].base && Inside(hs[i], base, s.nr)
    ensures LegalRun(s, FreeOps(base, hs)) <==> Apart(done + hs)
    ensures Apart(done + hs) ==> HandedOver(Run(s, FreeOps(base, hs)), base, done + hs)
    decreases |hs|
  {
    if hs == [] {
      assert done + hs == done;
    } else {
      var h, ops := hs[0], FreeOps(base, hs);
      assert ops[1..] == FreeOps(base, hs[1..]) && done + hs == done + [h] + hs[1..];
      NextHoleLegal(s, base, done, h);
      ApartOneMore(done, h, hs[1..]);
      if Legal(s, ops[0]) {
        var t := FreeRange(s, h.base - base, h.frames);
        HandOverHole(s, t, base, done, h);
        StepWF(s, ops[0]);
        FreeOpsLegal(t, base, done + [h], hs[1..]);
      }
    }
  }

  lemma ApartOneMore(done: seq<Region>, h: Region, rest: seq<Region>)
    requires Apart(done)
    ensures Apart(done + [h]) <==> forall f: int :: In(f, h) ==> !InSome(f, done)
    ensures Apart(done + [h] + rest) ==> Apart(done + [h])
  {
    ApartConcat(done, [h]);
    assert forall f: int :: InSome(f, [h]) <==> In(f, h) by {
      forall f: int ensures InSome(f, [h]) <==> In(f, h) {
        if In(f, h) { assert In(f, [h][0]); }
      }
    }
    var all := done + [h] + rest;
    if Apart(all) {
      forall i, j, f: int | 0 <= i < j < |done + [h]| && In(f, (done + [h])[i])
        ensures !In(f, (done + [h])[j])
      {
        assert In(f, all[i]) && all[j] == (done + [h])[j];
      }
    }
  }

  /** Every call of `free_range` in the hand-off gets reserved frames, as it must,
      exactly when every frame that two RAM regions share is reserved. */
  lemma HandOffLegal(mem: seq<Region>, rs: seq<Region>, base: nat, nr: nat)
    requires Sorted(rs) && AllOk(rs)
    requires forall i :: 0 <= i < |mem| ==> Inside(mem[i], base, nr)
    ensures var hs := Holes(mem, rs);
      && (forall i :: 0 <= i < |hs| ==> Inside(hs[i], base, nr))
      && WF(Initial(nr))
      && (LegalRun(Initial(nr), FreeOps(base, hs)) <==> ApartOutside(mem, rs))
      && (ApartOutside(mem, rs) ==> HandedOver(Run(Initial(nr), FreeOps(base, hs)), base, hs))
  {
    var hs := Holes(mem, rs);
    HolesInside(mem, rs, base, nr);
    InitialWF(nr);
    NothingHandedOver(nr, base);
    FreeOpsLegal(Initial(nr), base, [], hs);
    assert [] + hs == hs;
    HolesApart(mem, rs);
  }

  /** Two regions that share frame 1, nothing reserved: the second call gets a
      frame that is already free. */
  lemma SharedFrameFreedTwice()
    ensures var hs := Holes([Region(0, 2), Region(1, 2)], []);
      hs == [Region(0, 2), Region(1, 2)] && WF(Initial(3)) && !LegalRun(Initial(3), FreeOps(0, hs))
  {
    var mem := [Region(0, 2), Region(1, 2)];
    assert mem[..1] == [Region(0, 2)];
    assert Holes(mem[..1], []) == [Region(0, 2)];
    assert In(1, mem[0]) && In(1, mem[1]) && !InSome(1, []);
    assert !ApartOutside(mem, []);
    HandOffLegal(mem, [], 0, 3);
  }

  lemma HolesInside(mem: seq<Region>, rs: seq<Region>, base: nat, nr: nat)
    requires Sorted(rs) && AllOk(rs)
    requires forall i :: 0 <= i < |mem| ==> Inside(mem[i], base, nr)
    ensures forall i :: 0 <= i < |Holes(mem, rs)| ==> Inside(Holes(mem, rs)[i], base, nr)
  {
    HolesWithinRegions(mem, rs);
    forall k | 0 <= k < |Holes(mem, rs)|
      ensures Inside(Holes(mem, rs)[k], base, nr)
    {
      assert HoleOf(Holes(mem, rs)[k], mem, rs);
    }
  }

  // ---------- unmerged buddies ----------

  /** Hole b starts where hole a ends, and the last block of a and the first
      block of b are buddies of one order below the top. */
  ghost predicate Splits(a: Region, b: Region, base: nat) {
    base <= a.base && a.frames > 0 && b.frames > 0 && a.End() == b.base &&
    var e := b.base - base;
    var k := GreatestOrder(e, a.frames);
    k == GreatestOrder(e, b.frames) && k < MAX_ORDER - 1 && Buddy(e, k) < e
  }

  lemma PairMeets(base: nat, hs: seq<Region>, i: nat, j: nat, p: nat, k: nat)
    requires Apart(hs) && CarvedFrom(base, hs, i, p, k) && CarvedFrom(base, hs, j, Buddy(p, k), k)
    requires p < Buddy(p, k) && k < MAX_ORDER - 1
    ensures hs[i].End() == hs[j].base == base + Buddy(p, k)
  {
    var a, b, q := hs[i], hs[j], Buddy(p, k);
    CarveBlockFacts(a.base - base, a.frames, p, k);
    CarveBlockFacts(b.base - base, b.frames, q, k);
    BuddyFacts(p, k);
    CarveNeverMergeable(a.base - base, a.frames, p, k);
    NeighboursMeet(hs, i, j, base + q);
  }

  lemma PairAcrossHoles(base: nat, hs: seq<Region>, i: nat, j: nat, p: nat, k: nat)
    requires Apart(hs) && CarvedFrom(base, hs, i, p, k) && CarvedFrom(base, hs, j, Buddy(p, k), k)
    requires p < Buddy(p, k) && k < MAX_ORDER - 1
    ensures Splits(hs[i], hs[j], base)
  {
    PairMeets(base, hs, i, j, p, k);
    BlocksAtTheSeam(hs[i].base - base, hs[i].frames, hs[j].base - base, hs[j].frames, p, k);
  }

  lemma BlocksAtTheSeam(start: nat, m: nat, e: nat, n: nat, p: nat, k: nat)
    requires e == start + m && Buddy(p, k) == e && p < e
    requires CarveBlock(start, m, p, k) && CarveBlock(e, n, e, k)
    ensures m > 0 && n > 0 && k == GreatestOrder(e, m) && k == GreatestOrder(e, n) && Buddy(e, k) == p
  {
    CarveBlockFacts(start, m, p, k);
    CarveBlockFacts(e, n, e, k);
    BuddyFacts(p, k);
    LastBlockIsAboveEdge(start, m, e, p, k);
  }

  lemma SeamOfBlocks(start: nat, m: nat, n: nat, k: nat)
    requires m > 0 && n > 0 && k == GreatestOrder(start + m, m) == GreatestOrder(start + m, n)
    requires Buddy(start + m, k) < start + m
    ensures CarveBlock(start, m, Buddy(start + m, k), k) && CarveBlock(start + m, n, start + m, k)
  {
    CarveEnds(start, m);
    CarveEnds(start + m, n);
    BuddyFacts(start + m, k);
  }

  /** Frame f - 1 is in one hole and frame f in another: they meet at f. */
  lemma NeighboursMeet(hs: seq<Region>, i: nat, j: nat, f: nat)
    requires Apart(hs) && i < |hs| && j < |hs| && i != j && In(f - 1, hs[i]) && In(f, hs[j])
    ensures hs[i].End() == f == hs[j].base
  {
  }

  lemma SplitMakesAPair(s: State, base: nat, hs: seq<Region>, i: nat, j: nat)
    requires BlocksOf(s, base, hs) && i < |hs| && j < |hs| && Splits(hs[i], hs[j], base)
    ensures !NoMergeable(s)
  {
    var a, b := hs[i], hs[j];
    var e := b.base - base;
    var k := GreatestOrder(e, a.frames);
    SeamOfBlocks(a.base - base, a.frames, b.frames, k);
    assert Key(0);
    assert CarvedFrom(base, hs, i, Buddy(e, k), k) && CarvedFrom(base, hs, j, e, k);
    assert FreeBlock(s, e, k) && FreeBlock(s, Buddy(e, k), k);
  }

  /** The hand-off leaves no mergeable pair, so allocation from it is complete,
      exactly when no two holes split a pair of buddies between them. */
  lemma HandOffMerged(s: State, base: nat, hs: seq<Region>)
    requires HandedOver(s, base, hs) && Apart(hs)
    ensures NoMergeable(s) <==> forall i, j :: 0 <= i < |hs| && 0 <= j < |hs| ==> !Splits(hs[i], hs[j], base)
  {
    if i, j :| 0 <= i < |hs| && 0 <= j < |hs| && Splits(hs[i], hs[j], base) {
      SplitMakesAPair(s, base, hs, i, j);
    } else {
      forall p: nat, k: nat | FreeBlock(s, p, k) && k < MAX_ORDER - 1
        ensures !FreeBlock(s, Buddy(p, k), k)
      {
        NoPairAt(s, base, hs, p, k);
      }
    }
  }

  lemma NoPairAt(s: State, base: nat, hs: seq<Region>, p: nat, k: nat)
    requires HandedOver(s, base, hs) && Apart(hs) && FreeBlock(s, p, k) && k < MAX_ORDER - 1
    requires forall i, j :: 0 <= i < |hs| && 0 <= j < |hs| ==> !Splits(hs[i], hs[j], base)
    ensures !FreeBlock(s, Buddy(p, k), k)
  {
    var q := Buddy(p, k);
    SoundFacts(s);
    assert IsBlock(s, p, k);
    BuddyFacts(p, k);
    assert Key(0);
    if FreeBlock(s, q, k) {
      var i: nat :| CarvedFrom(base, hs, i, p, k);
      var j: nat :| CarvedFrom(base, hs, j, q, k);
      if p < q { PairAcrossHoles(base, hs, i, j, p, k); } else { PairAcrossHoles(base, hs, j, i, q, k); }
      assert false;
    }
  }

  /** One RAM region starts where another ends. */
  ghost predicate Adjacent(mem: seq<Region>) {
    exists i, j :: 0 <= i < |mem| && 0 <= j < |mem| && mem[i].End() == mem[j].base
  }

  /** Holes are as large as they can be, so only adjacent RAM regions split buddies. */
  lemma HolesTouchOnlyAtRegions(mem: seq<Region>, rs: seq<Region>, i: nat, j: nat)
    requires Sorted(rs) && AllOk(rs) && i < |Holes(mem, rs)| && j < |Holes(mem, rs)|
    requires Holes(mem, rs)[i].End() == Holes(mem, rs)[j].base
    ensures Adjacent(mem)
  {
    var hs := Holes(mem, rs);
    HolesWithinRegions(mem, rs);
    var a :| 0 <= a < |mem| && Maximal(hs[i], mem[a].base, mem[a].End(), rs);
    var b :| 0 <= b < |mem| && Maximal(hs[j], mem[b].base, mem[b].End(), rs);
    assert In(hs[i].End() - 1, hs[i]) && In(hs[j].base, hs[j]);
    HolesExact(mem, rs, hs[i].End() - 1);
    HolesExact(mem, rs, hs[j].base);
    assert mem[a].End() == mem[b].base;
  }

  lemma HandOffMergedWhenApart(s: State, base: nat, mem: seq<Region>, rs: seq<Region>)
    requires Sorted(rs) && AllOk(rs) && HandedOver(s, base, Holes(mem, rs)) && ApartOutside(mem, rs) && !Adjacent(mem)
    ensures NoMergeable(s)
  {
    var hs := Holes(mem, rs);
    HolesApart(mem, rs);
    forall i, j | 0 <= i < |hs| && 0 <= j < |hs|
      ensures !Splits(hs[i], hs[j], base)
    {
      if hs[i].End() == hs[j].base { HolesTouchOnlyAtRegions(mem, rs, i, j); }
    }
    HandOffMerged(s, base, hs);
  }
}
