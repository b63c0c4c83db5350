/** The global allocator: slab and buddy together, over any sequence of requests
    and of other users' calls to the same buddy allocator. */
module Heap {
  import opened Bits
  import opened Wrappers
  import B = BuddyModel
  import BuddySteps
  import T = BuddyTheorems
  import R = BuddyRuns
  import opened SlabLayout
  import opened SlabModel

  datatype Heap = Heap(slab: Slab, buddy: B.State)

  /** Carved pages and large runs are live blocks of the buddy allocator. */
  ghost predicate Owned(s: Slab, b: B.State) {
    && (forall p: nat :: p in s.pages ==> B.LiveBlock(b, p, 0))
    && (forall p: nat :: p in s.large ==> B.LiveBlock(b, p, s.large[p]))
    && (forall p: nat :: p in s.large ==> p !in s.pages)
  }

  ghost predicate Inv(h: Heap) {
    WF(h.slab) && B.WF(h.buddy) && Owned(h.slab, h.buddy)
  }

  /** Inv, behind a key. */
  ghost predicate Ok(h: Heap) {
    |h.slab.free| == NR_CLASSES && |h.buddy.lists| == B.MAX_ORDER && forall z: nat :: Key(z) ==> Inv(h)
  }

  lemma Open(h: Heap)
    requires Ok(h)
    ensures Inv(h)
  {
    assert Key(0);
  }

  // ---------- requests ----------

  function AllocSmall(h: Heap, i: nat): (Heap, Option<nat>)
    requires i < NR_CLASSES && |h.slab.free| == NR_CLASSES && |h.buddy.lists| == B.MAX_ORDER
  {
    if h.slab.free[i] != [] then (h.(slab := Pop(h.slab, i)), Some(h.slab.free[i][0]))
    else
      match B.Alloc(h.buddy, 0)
      case (_, None) => (h, None)
      case (b, Some(p)) =>
        var t := Refill(h.slab, i, p);
        PageFilled(i);
        (Heap(Pop(t, i), b), Some(t.free[i][0]))
  }

  function AllocLarge(h: Heap, size: nat): (Heap, Option<nat>)
    requires |h.buddy.lists| == B.MAX_ORDER
  {
    var o := PagesOrder(size);
    match B.Alloc(h.buddy, o)
    case (_, None) => (h, None)
    case (b, Some(p)) => (Heap(h.slab.(large := h.slab.large[p := o]), b), Some(PageAddr(h.slab.base, p)))
  }

  function Alloc(h: Heap, size: nat, align: nat): (Heap, Option<nat>)
    requires |h.slab.free| == NR_CLASSES && |h.buddy.lists| == B.MAX_ORDER
  {
    match SizeClass(size, align)
    case Some(i) => SmallestFit(size, align); AllocSmall(h, i)
    case None => AllocLarge(h, size)
  }

  /** The frame at an address. */
  function FrameAt(base: nat, a: nat): nat
    requires base <= a
  {
    (a - base) / PAGE_SIZE
  }

  /** The address was handed out for a request of this size and alignment. */
  predicate Freeable(h: Heap, a: nat, size: nat, align: nat) {
    match SizeClass(size, align)
    case Some(i) => LiveObj(h.slab, a, i)
    case None =>
      && h.slab.base <= a && FrameAt(h.slab.base, a) in h.slab.large
      && a == PageAddr(h.slab.base, FrameAt(h.slab.base, a))
      && h.slab.large[FrameAt(h.slab.base, a)] == PagesOrder(size)
  }

  ghost function Free(h: Heap, a: nat, size: nat, align: nat): Heap
    requires Ok(h) && Freeable(h, a, size, align)
  {
    match SizeClass(size, align)
    case Some(i) => SmallestFit(size, align); h.(slab := Push(h.slab, a))
    case None =>
      var p := FrameAt(h.slab.base, a);
      Open(h);
      BuddySteps.FreeWF(h.buddy, p);
      Heap(h.slab.(large := h.slab.large - {p}), B.Free(h.buddy, p))
  }

  // ---------- the invariant ----------

  lemma SameCarvings(s: Slab, t: Slab)
    requires WF(s) && t == s.(large := t.large)
    ensures WF(t)
  {
    forall a: nat, i: nat
      ensures Carved(t, a, i) <==> Carved(s, a, i)
    {
      SameCarved(s, t, a, i);
    }
    assert SortedOut(t) by {
      assert forall a: nat, i: nat :: FreeObj(t, a, i) <==> FreeObj(s, a, i);
      assert forall a: nat, i: nat :: LiveObj(t, a, i) <==> LiveObj(s, a, i);
    }
    forall i | 0 <= i < NR_CLASSES ensures NoDup(t.free[i]) && Conserved(t, i) {
      assert NoDup(s.free[i]) && Conserved(s, i);
      assert LiveOf(t, i) == LiveOf(s, i) && PagesOf(t, i) == PagesOf(s, i);
    }
  }

  /** A block the buddy allocator hands out was not live before, and is the only
      change to the live blocks. */
  lemma BuddyGives(b: B.State, o: nat)
    requires B.WF(b)
    ensures var (b', r) := B.Alloc(b, o);
      && B.WF(b')
      && (r.Some? ==> r.value !in b.live && b'.live == b.live[r.value := o] && o < B.MAX_ORDER && Aligned(r.value, o))
      && (r.None? ==> b' == b)
  {
    BuddySteps.AllocWF(b, o);
    R.StepRefines(b, R.DoAlloc(o));
  }

  lemma BuddyTakes(b: B.State, p: nat)
    requires B.WF(b) && p in b.live
    ensures B.Holds(b, p) && B.WF(B.Free(b, p)) && B.Free(b, p).live == b.live - {p}
  {
    BuddySteps.FreeWF(b, p);
    R.StepRefines(b, R.DoFree(p));
  }

  lemma AllocSmallInv(h: Heap, t: Heap, i: nat)
    requires Inv(h) && i < NR_CLASSES && t == AllocSmall(h, i).0
    ensures Inv(t)
  {
    if h.slab.free[i] != [] {
      PopWF(h.slab, t.slab, i);
    } else {
      var (b, r) := B.Alloc(h.buddy, 0);
      if r.Some? {
        var s := Refill(h.slab, i, r.value);
        PageFilled(i);
        RefillInv(h, Heap(s, b), i, r.value);
        PopWF(s, t.slab, i);
      }
    }
  }

  lemma RefillInv(h: Heap, t: Heap, i: nat, p: nat)
    requires Inv(h) && i < NR_CLASSES && B.Alloc(h.buddy, 0) == (t.buddy, Some(p)) && t.slab == Refill(h.slab, i, p)
    ensures Inv(t) && p !in h.slab.pages
  {
    BuddyGives(h.buddy, 0);
    RefillWF(h.slab, t.slab, i, p);
  }

  lemma AllocLargeInv(h: Heap, t: Heap, size: nat)
    requires Inv(h) && t == AllocLarge(h, size).0
    ensures Inv(t)
  {
    BuddyGives(h.buddy, PagesOrder(size));
    SameCarvings(h.slab, t.slab);
  }

  lemma FreeInv(h: Heap, t: Heap, a: nat, size: nat, align: nat)
    requires Inv(h) && Freeable(h, a, size, align) && t == Free(h, a, size, align)
    ensures Inv(t)
  {
    SmallestFit(size, align);
    if SizeClass(size, align).Some? {
      PushWF(h.slab, t.slab, a);
    } else {
      BuddyTakes(h.buddy, FrameAt(h.slab.base, a));
      SameCarvings(h.slab, t.slab);
    }
  }

  // ---------- what the live allocations are worth ----------

  function LargeBytes(s: Slab, p: nat): nat
    requires p in s.large
  {
    Pow2(s.large[p]) * PAGE_SIZE
  }

  lemma BlocksApart(base: nat, p: nat, j: nat, q: nat, k: nat)
    requires Disjoint(p, j, q, k)
    ensures ApartBytes(PageAddr(base, p), Pow2(j) * PAGE_SIZE, PageAddr(base, q), Pow2(k) * PAGE_SIZE)
  {
  }

  /** A carved object lies inside its page. */
  lemma CarvedInPage(s: Slab, a: nat, i: nat) returns (p: nat)
    requires Carved(s, a, i)
    ensures i < NR_CLASSES && p in s.pages && PageAddr(s.base, p) <= a
    ensures a + CLASSES[i] <= PageAddr(s.base, p) + PAGE_SIZE
  {
    var k: nat;
    p, k :| IsSlot(s, a, i, p, k);
    SlotInPage(i, k);
  }

  lemma CarvedApartFromLarge(h: Heap, a: nat, i: nat, q: nat)
    requires Inv(h) && Carved(h.slab, a, i) && q in h.slab.large
    ensures i < NR_CLASSES && ApartBytes(a, CLASSES[i], PageAddr(h.slab.base, q), LargeBytes(h.slab, q))
  {
    var p := CarvedInPage(h.slab, a, i);
    assert B.IsBlock(h.buddy, p, 0) && B.IsBlock(h.buddy, q, h.slab.large[q]);
    BlocksApart(h.slab.base, p, 0, q, h.slab.large[q]);
  }

  lemma LargeApart(h: Heap, p: nat, q: nat)
    requires Inv(h) && p in h.slab.large && q in h.slab.large && p != q
    ensures ApartBytes(PageAddr(h.slab.base, p), LargeBytes(h.slab, p), PageAddr(h.slab.base, q), LargeBytes(h.slab, q))
  {
    assert B.IsBlock(h.buddy, p, h.slab.large[p]) && B.IsBlock(h.buddy, q, h.slab.large[q]);
    BlocksApart(h.slab.base, p, h.slab.large[p], q, h.slab.large[q]);
  }

  /** Live objects and large runs are pairwise disjoint, and none of them meets an
      object on a free list. */
  ghost predicate AllApart(s: Slab) {
    && (forall a: nat, i: nat, b: nat, j: nat ::
          LiveObj(s, a, i) && (LiveObj(s, b, j) || FreeObj(s, b, j)) && a != b ==>
          i < NR_CLASSES && j < NR_CLASSES && ApartBytes(a, CLASSES[i], b, CLASSES[j]))
    && (forall a: nat, i: nat, q: nat :: (LiveObj(s, a, i) || FreeObj(s, a, i)) && q in s.large ==>
          i < NR_CLASSES && ApartBytes(a, CLASSES[i], PageAddr(s.base, q), LargeBytes(s, q)))
    && (forall p: nat, q: nat :: p in s.large && q in s.large && p != q ==>
          ApartBytes(PageAddr(s.base, p), LargeBytes(s, p), PageAddr(s.base, q), LargeBytes(s, q)))
    && (forall a: nat, i: nat :: FreeObj(s, a, i) ==> a !in s.live)
  }

  lemma LiveApart(h: Heap)
    requires Inv(h)
    ensures AllApart(h.slab)
  {
    var s := h.slab;
    forall a: nat, i: nat, b: nat, j: nat | LiveObj(s, a, i) && (LiveObj(s, b, j) || FreeObj(s, b, j)) && a != b
      ensures i < NR_CLASSES && j < NR_CLASSES && ApartBytes(a, CLASSES[i], b, CLASSES[j])
    {
      CarvedApart(s, a, i, b, j);
    }
    forall a: nat, i: nat, q: nat | (LiveObj(s, a, i) || FreeObj(s, a, i)) && q in s.large
      ensures i < NR_CLASSES && ApartBytes(a, CLASSES[i], PageAddr(s.base, q), LargeBytes(s, q))
    {
      CarvedApartFromLarge(h, a, i, q);
    }
    forall p: nat, q: nat | p in s.large && q in s.large && p != q
      ensures ApartBytes(PageAddr(s.base, p), LargeBytes(s, p), PageAddr(s.base, q), LargeBytes(s, q))
    {
      LargeApart(h, p, q);
    }
  }

  // ---------- what a request gets ----------

  /** A small request gets an object that was not live, large enough and aligned. */
  lemma SmallServed(h: Heap, t: Heap, size: nat, e: nat, i: nat, a: nat)
    requires Inv(h) && Aligned(h.slab.base, PAGE_SHIFT) && SizeClass(size, Pow2(e)) == Some(i) && i < NR_CLASSES
    requires AllocSmall(h, i) == (t, Some(a))
    ensures a !in h.slab.live && t.slab.live == h.slab.live[a := i] && t.slab.large == h.slab.large
    ensures size <= CLASSES[i] && Aligned(a, e) && Freeable(t, a, size, Pow2(e))
  {
    SmallestFit(size, Pow2(e));
    if h.slab.free[i] != [] {
      FrontServes(h.slab, i, e);
    } else {
      BuddyGives(h.buddy, 0);
      var p := B.Alloc(h.buddy, 0).1.value;
      var s := Refill(h.slab, i, p);
      PageFilled(i);
      RefillWF(h.slab, s, i, p);
      FrontServes(s, i, e);
    }
  }

  /** The front object of a list is not live and is aligned as its class can be. */
  lemma FrontServes(s: Slab, i: nat, e: nat)
    requires WF(s) && Aligned(s.base, PAGE_SHIFT) && i < NR_CLASSES && s.free[i] != [] && Pow2(e) <= CLASSES[i]
    ensures s.free[i][0] !in s.live && Aligned(s.free[i][0], e)
  {
    var a := s.free[i][0];
    assert FreeObj(s, a, i);
    var p: nat, k: nat :| IsSlot(s, a, i, p, k);
    SlotAligned(s.base, p, i, k, e);
  }

  /** A large request gets a run of frames that was not live and is large enough;
      it is aligned to at most a page, or as far as its own size and the start of
      DRAM go. */
  lemma LargeServed(h: Heap, t: Heap, size: nat, e: nat, a: nat)
    requires Inv(h) && SizeClass(size, Pow2(e)).None? && AllocLarge(h, size) == (t, Some(a))
    ensures t.slab.live == h.slab.live && h.slab.base <= a
    ensures var p := FrameAt(h.slab.base, a);
      && p !in h.slab.large && t.slab.large == h.slab.large[p := PagesOrder(size)]
      && size <= LargeBytes(t.slab, p) && Freeable(t, a, size, Pow2(e))
    ensures Aligned(h.slab.base, e) && e <= PagesOrder(size) + PAGE_SHIFT ==> Aligned(a, e)
  {
    var o := PagesOrder(size);
    BuddyGives(h.buddy, o);
    var p := B.Alloc(h.buddy, o).1.value;
    assert FrameAt(h.slab.base, a) == p;
    PagesOrderLeast(size, o);
    if Aligned(h.slab.base, e) && e <= o + PAGE_SHIFT { PageAddrAligned(h.slab.base, p, o, e); }
  }

  /** A request fails exactly when its list is empty and the buddy allocator has
      no page, or, if large, has no run of its order. */
  lemma AllocFails(h: Heap, size: nat, align: nat)
    requires Inv(h)
    ensures Alloc(h, size, align).1.None? <==>
      match SizeClass(size, align)
      case Some(i) => i < NR_CLASSES && h.slab.free[i] == [] && B.Alloc(h.buddy, 0).1.None?
      case None => B.Alloc(h.buddy, PagesOrder(size)).1.None?
    ensures Alloc(h, size, align).1.None? ==> Alloc(h, size, align).0 == h
    ensures size > 1024 * PAGE_SIZE ==> Alloc(h, size, align).1.None?
  {
    SmallestFit(size, align);
    if size > 1024 * PAGE_SIZE {
      assert Pow2(10) == 1024 by { assert Pow2(5) == 32; }
      PagesOrderLeast(size, 10);
    }
  }

  /** A heap whose only free block is the largest serves a request of 4 MiB with it. */
  lemma LargestServed(base: nat)
    ensures var h := Heap(Fresh(base), OneBlock(0, 10));
      Inv(h) && PagesOrder(1024 * PAGE_SIZE) == 10 && Alloc(h, 1024 * PAGE_SIZE, 1).1 == Some(base)
  {
    assert Pow2(10) == 1024 && Pow2(9) == 512 by { assert Pow2(5) == 32; }
    PagesOrderLeast(1024 * PAGE_SIZE, 10);
    PagesOrderLeast(1024 * PAGE_SIZE, 9);
    SmallestFit(1024 * PAGE_SIZE, 1);
    ZeroAligned(10);
    OneBlockGiven(base, 1024 * PAGE_SIZE, 1, 0, 10);
  }

  /** Releasing what was just given restores the whole state exactly when nothing
      had to be carved, or for a large run when the buddy allocator's own round
      trip restores it. */
  lemma PutUndoesGet(h: Heap, t: Heap, size: nat, align: nat, a: nat)
    requires Inv(h) && Alloc(h, size, align) == (t, Some(a))
    ensures Inv(t) && Freeable(t, a, size, align)
    ensures Free(t, a, size, align) == h <==>
      match SizeClass(size, align)
      case Some(i) => i < NR_CLASSES && h.slab.free[i] != []
      case None =>
        var k := B.FirstNonEmpty(h.buddy.lists, PagesOrder(size)).value;
        !(k < B.MAX_ORDER - 1 && B.FreeBlock(h.buddy, B.Buddy(h.buddy.lists[k][0], k), k))
  {
    SmallestFit(size, align);
    match SizeClass(size, align) {
      case Some(i) => PutUndoesSmall(h, t, i, a);
      case None => PutUndoesLarge(h, t, size, a);
    }
  }

  lemma PutUndoesSmall(h: Heap, t: Heap, i: nat, a: nat)
    requires Inv(h) && i < NR_CLASSES && AllocSmall(h, i) == (t, Some(a))
    ensures Inv(t) && LiveObj(t.slab, a, i) && (t.(slab := Push(t.slab, a)) == h <==> h.slab.free[i] != [])
  {
    AllocSmallInv(h, t, i);
    if h.slab.free[i] != [] {
      assert FreeObj(h.slab, a, i);
      assert [a] + h.slab.free[i][1..] == h.slab.free[i];
      assert Push(t.slab, a).free == h.slab.free;
      assert Push(t.slab, a).live == h.slab.live;
    } else {
      BuddyGives(h.buddy, 0);
      assert B.Alloc(h.buddy, 0).1.value in t.slab.pages;
    }
  }

  lemma PutUndoesLarge(h: Heap, t: Heap, size: nat, a: nat)
    requires Inv(h) && AllocLarge(h, size) == (t, Some(a))
    ensures Inv(t) && h.slab.base <= a
    ensures var p, k := FrameAt(h.slab.base, a), B.FirstNonEmpty(h.buddy.lists, PagesOrder(size)).value;
      && p in t.slab.large && a == PageAddr(h.slab.base, p) && t.slab.large[p] == PagesOrder(size)
      && B.Holds(t.buddy, p)
      && (Heap(t.slab.(large := t.slab.large - {p}), B.Free(t.buddy, p)) == h <==>
            !(k < B.MAX_ORDER - 1 && B.FreeBlock(h.buddy, B.Buddy(h.buddy.lists[k][0], k), k)))
  {
    var o := PagesOrder(size);
    AllocLargeInv(h, t, size);
    BuddyGives(h.buddy, o);
    T.FreeUndoesAlloc(h.buddy, o);
    var p := FrameAt(h.slab.base, a);
    assert Some(p) == B.Alloc(h.buddy, o).1;
    assert p !in h.slab.large;
    assert t.slab.large - {p} == h.slab.large;
  }

  // ---------- whole runs ----------

  /** A request, a release, or a call of another user of the buddy allocator. */
  datatype HeapOp = Get(size: nat, align: nat) | Put(addr: nat, size: nat, align: nat) | Other(op: R.Op)

  /** A release names a live allocation and the layout it was made with; other
      users free only blocks of their own. */
  ghost predicate Legal(h: Heap, op: HeapOp) {
    match op
    case Get(_, _) => true
    case Put(a, size, align) => Freeable(h, a, size, align)
    case Other(op) => R.Legal(h.buddy, op) && (op.DoFree? ==> op.pfn !in h.slab.pages && op.pfn !in h.slab.large)
  }

  ghost function Step(h: Heap, op: HeapOp): Heap
    requires Inv(h) && Legal(h, op)
  {
    match op
    case Get(size, align) => Alloc(h, size, align).0
    case Put(a, size, align) => Free(h, a, size, align)
    case Other(op) => h.(buddy := R.Step(h.buddy, op))
  }

  lemma StepInv(h: Heap, t: Heap, op: HeapOp)
    requires Inv(h) && Legal(h, op) && t == Step(h, op)
    ensures Inv(t)
  {
    match op {
      case Get(size, align) =>
        SmallestFit(size, align);
        match SizeClass(size, align) {
          case Some(i) => AllocSmallInv(h, t, i);
          case None => AllocLargeInv(h, t, size);
        }
      case Put(a, size, align) => FreeInv(h, t, a, size, align);
      case Other(op) => OtherInv(h, t, op);
    }
  }

  lemma OtherInv(h: Heap, t: Heap, op: R.Op)
    requires Inv(h) && Legal(h, Other(op)) && t == Step(h, Other(op))
    ensures Inv(t)
  {
    R.StepWF(h.buddy, op);
    R.StepRefines(h.buddy, op);
  }

  ghost predicate LegalRun(h: Heap, ops: seq<HeapOp>)
    requires Inv(h)
    decreases |ops|
  {
    ops == [] ||
    (Legal(h, ops[0]) && (StepInv(h, Step(h, ops[0]), ops[0]); LegalRun(Step(h, ops[0]), ops[1..])))
  }

  ghost function Run(h: Heap, ops: seq<HeapOp>): Heap
    requires Inv(h) && LegalRun(h, ops)
    decreases |ops|
  {
    if ops == [] then h else (StepInv(h, Step(h, ops[0]), ops[0]); Run(Step(h, ops[0]), ops[1..]))
  }

  /** In every state of every run, live allocations are disjoint from each other
      and from everything on a free list, and per class the free and the live
      objects add up to the pages carved times the objects in a page. */
  lemma {:induction false} RunSafe(h: Heap, ops: seq<HeapOp>)
    requires Inv(h) && LegalRun(h, ops)
    ensures var t := Run(h, ops);
      Inv(t) && AllApart(t.slab) && forall i :: 0 <= i < NR_CLASSES ==> Conserved(t.slab, i)
    decreases |ops|
  {
    if ops == [] {
      LiveApart(h);
      assert Counted(h.slab);
    } else {
      StepInv(h, Step(h, ops[0]), ops[0]);
      RunSafe(Step(h, ops[0]), ops[1..]);
    }
  }

  /** The slab before its first request. */
  function Fresh(base: nat): Slab {
    Slab(base, seq(NR_CLASSES, _ => []), map[], map[], map[])
  }

  lemma FreshInv(base: nat, b: B.State)
    requires B.WF(b)
    ensures Inv(Heap(Fresh(base), b))
  {
  }

  /** One page asked for with an alignment of two: the frame given may be odd. */
  lemma LargeMisaligned()
    ensures var b := B.FreeRange(R.Initial(2), 1, 1);
      && B.WF(b) && Inv(Heap(Fresh(0), b))
      && Alloc(Heap(Fresh(0), b), PAGE_SIZE, 2 * PAGE_SIZE).1 == Some(PAGE_SIZE)
  {
    var s0 := R.Initial(2);
    R.InitialWF(2);
    assert BuddySteps.AllReserved(s0, 1, 1) by { assert 1 in B.Range(0, 2); }
    var b := B.FreeRange(s0, 1, 1);
    BuddySteps.FreeRangeWF(s0, 1, 1);
    FreshInv(0, b);
    assert B.GreatestOrder(1, 1) == 0;
    assert b == B.Seed(s0, 1, 0);
    assert b.lists[0] == [1];
    SmallestFit(PAGE_SIZE, 2 * PAGE_SIZE);
    PagesOrderLeast(PAGE_SIZE, 0);
    assert B.FirstNonEmpty(b.lists, 0) == Some(0);
  }

  /** A buddy allocator whose only free block is the one of order o at frame p. */
  function OneBlock(p: nat, o: nat): B.State
    requires o < B.MAX_ORDER
  {
    B.Seed(R.Initial(p + Pow2(o)), p, o)
  }

  lemma OneBlockGiven(base: nat, size: nat, align: nat, p: nat, o: nat)
    requires o == PagesOrder(size) < B.MAX_ORDER && SizeClass(size, align).None? && Aligned(p, o)
    ensures var h := Heap(Fresh(base), OneBlock(p, o));
      Inv(h) && Alloc(h, size, align).1 == Some(PageAddr(base, p))
  {
    var s0 := R.Initial(p + Pow2(o));
    R.InitialWF(p + Pow2(o));
    assert BuddySteps.AllReserved(s0, p, Pow2(o)) by {
      forall f: nat | p <= f < p + Pow2(o) ensures f in s0.reserved { assert f in B.Range(0, p + Pow2(o)); }
    }
    BuddySteps.SeedWF(s0, p, o);
    var b := OneBlock(p, o);
    FreshInv(base, b);
    assert b.lists[o] == [p];
    assert B.FirstNonEmpty(b.lists, o) == Some(o);
  }

  /** Every large request of this size and alignment that is served gets an aligned
      address exactly when the start of DRAM is aligned and the run is at least that
      large; a request beyond the top order is never served. */
  lemma LargeAlignedExactly(base: nat, size: nat, e: nat)
    requires SizeClass(size, Pow2(e)).None?
    ensures (forall h: Heap :: Inv(h) && h.slab.base == base && Alloc(h, size, Pow2(e)).1.Some? ==>
               Aligned(Alloc(h, size, Pow2(e)).1.value, e))
      <==> PagesOrder(size) >= B.MAX_ORDER || (Aligned(base, e) && e <= PagesOrder(size) + PAGE_SHIFT)
  {
    var o := PagesOrder(size);
    if o < B.MAX_ORDER && !(Aligned(base, e) && e <= o + PAGE_SHIFT) {
      LargeAligned(base, o, e);
      var p: nat :| Aligned(p, o) && !Aligned(PageAddr(base, p), e);
      OneBlockGiven(base, size, Pow2(e), p, o);
    } else {
      forall h: Heap | Inv(h) && h.slab.base == base && Alloc(h, size, Pow2(e)).1.Some?
        ensures Aligned(Alloc(h, size, Pow2(e)).1.value, e)
      {
        var (t, r) := AllocLarge(h, size);
        LargeServed(h, t, size, e, r.value);
        BuddyGives(h.buddy, o);
      }
    }
  }
}
