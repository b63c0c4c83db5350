/** What the callers of the global allocator hold: over whole runs, the size and the
    alignment of every live request, and what they got for it. */
module HeapLayouts {
  import opened Bits
  import opened Wrappers
  import B = BuddyModel
  import R = BuddyRuns
  import opened SlabLayout
  import opened SlabModel
  import H = Heap

  /** A request of `size` bytes at a multiple of 2^exp. */
  datatype Layout = Layout(size: nat, exp: nat)

  /** The heap, and for each address handed out and not released the request it was
      handed out for. */
  datatype Clients = Clients(heap: H.Heap, asked: map<nat, Layout>)

  datatype Op = Ask(layout: Layout) | Release(addr: nat) | Other(op: R.Op)

  /** A release gives an address back, with the layout of its request. */
  ghost predicate Legal(c: Clients, op: Op) {
    match op
    case Ask(_) => true
    case Release(a) => a in c.asked
    case Other(op) => H.Legal(c.heap, H.Other(op))
  }

  ghost predicate Tracked(c: Clients) {
    && H.Inv(c.heap) && Aligned(c.heap.slab.base, PAGE_SHIFT)
    && forall a: nat :: a in c.asked ==> H.Freeable(c.heap, a, c.asked[a].size, Pow2(c.asked[a].exp))
  }

  /** The call of the allocator this is. */
  ghost function Call(c: Clients, op: Op): H.HeapOp
    requires Legal(c, op)
  {
    match op
    case Ask(l) => H.Get(l.size, Pow2(l.exp))
    case Release(a) => H.Put(a, c.asked[a].size, Pow2(c.asked[a].exp))
    case Other(op) => H.Other(op)
  }

  ghost function Step(c: Clients, op: Op): Clients
    requires Tracked(c) && Legal(c, op)
  {
    var h := H.Step(c.heap, Call(c, op));
    match op
    case Ask(l) =>
      (match H.Alloc(c.heap, l.size, Pow2(l.exp)).1
       case Some(a) => Clients(h, c.asked[a := l])
       case None => Clients(h, c.asked))
    case Release(a) => Clients(h, c.asked - {a})
    case Other(_) => Clients(h, c.asked)
  }

  // ---------- what an address is worth ----------

  /** The bytes from the address on that are its own. */
  function Room(h: H.Heap, a: nat, l: Layout): nat
    requires H.Freeable(h, a, l.size, Pow2(l.exp))
  {
    match SizeClass(l.size, Pow2(l.exp))
    case Some(i) => SmallestFit(l.size, Pow2(l.exp)); CLASSES[i]
    case None => H.LargeBytes(h.slab, H.FrameAt(h.slab.base, a))
  }

  /** Every request of a size class is aligned as asked; one beyond is when the start
      of DRAM is and the run is at least that large. */
  predicate AlignsFor(base: nat, l: Layout) {
    SizeClass(l.size, Pow2(l.exp)).Some? || (Aligned(base, l.exp) && l.exp <= PagesOrder(l.size) + PAGE_SHIFT)
  }

  lemma Serves(h: H.Heap, a: nat, l: Layout)
    requires H.Inv(h) && Aligned(h.slab.base, PAGE_SHIFT) && H.Freeable(h, a, l.size, Pow2(l.exp))
    ensures l.size <= Room(h, a, l) && (AlignsFor(h.slab.base, l) ==> Aligned(a, l.exp))
  {
    SmallestFit(l.size, Pow2(l.exp));
    match SizeClass(l.size, Pow2(l.exp)) {
      case Some(i) =>
        var p: nat, k: nat :| IsSlot(h.slab, a, i, p, k);
        SlotAligned(h.slab.base, p, i, k, l.exp);
      case None =>
        var o, p := PagesOrder(l.size), H.FrameAt(h.slab.base, a);
        PagesOrderLeast(l.size, o);
        assert B.IsBlock(h.buddy, p, o);
        if AlignsFor(h.slab.base, l) { PageAddrAligned(h.slab.base, p, o, l.exp); }
    }
  }

  lemma RoomsApart(h: H.Heap, a: nat, l: Layout, b: nat, m: Layout)
    requires H.Inv(h) && a != b && H.Freeable(h, a, l.size, Pow2(l.exp)) && H.Freeable(h, b, m.size, Pow2(m.exp))
    ensures ApartBytes(a, Room(h, a, l), b, Room(h, b, m))
  {
    SmallestFit(l.size, Pow2(l.exp));
    SmallestFit(m.size, Pow2(m.exp));
    H.LiveApart(h);
  }

  /** Each address is that of a run or of an object, not both. */
  lemma NotBoth(h: H.Heap, a: nat, i: nat)
    requires H.Inv(h) && LiveObj(h.slab, a, i) && h.slab.base <= a
    requires a == PageAddr(h.slab.base, H.FrameAt(h.slab.base, a))
    ensures H.FrameAt(h.slab.base, a) !in h.slab.large
  {
    var p := H.FrameAt(h.slab.base, a);
    if p in h.slab.large { H.CarvedApartFromLarge(h, a, i, p); }
  }

  // ---------- every step keeps track ----------

  lemma AskTracked(c: Clients, l: Layout)
    requires Tracked(c)
    ensures Tracked(Step(c, Ask(l)))
    ensures var r := H.Alloc(c.heap, l.size, Pow2(l.exp)).1; r.Some? ==> r.value !in c.asked
  {
    var (t, r) := H.Alloc(c.heap, l.size, Pow2(l.exp));
    H.StepInv(c.heap, t, H.Get(l.size, Pow2(l.exp)));
    H.AllocFails(c.heap, l.size, Pow2(l.exp));
    SmallestFit(l.size, Pow2(l.exp));
    if r.Some? {
      match SizeClass(l.size, Pow2(l.exp)) {
        case Some(i) =>
          H.SmallServed(c.heap, t, l.size, l.exp, i, r.value);
          SmallIsNew(c, t, l, i, r.value);
        case None =>
          H.LargeServed(c.heap, t, l.size, l.exp, r.value);
          LargeIsNew(c, t, l, r.value);
      }
    }
  }

  lemma SmallIsNew(c: Clients, t: H.Heap, l: Layout, i: nat, a: nat)
    requires Tracked(c) && H.Inv(t) && H.Freeable(t, a, l.size, Pow2(l.exp)) && t.slab.base == c.heap.slab.base
    requires a !in c.heap.slab.live && t.slab.live == c.heap.slab.live[a := i] && t.slab.large == c.heap.slab.large
    ensures a !in c.asked && Tracked(Clients(t, c.asked[a := l]))
  {
    if a in c.asked && t.slab.base <= a && a == PageAddr(t.slab.base, H.FrameAt(t.slab.base, a)) { NotBoth(t, a, i); }
  }

  lemma LargeIsNew(c: Clients, t: H.Heap, l: Layout, a: nat)
    requires Tracked(c) && H.Inv(t) && H.Freeable(t, a, l.size, Pow2(l.exp)) && t.slab.base == c.heap.slab.base <= a
    requires SizeClass(l.size, Pow2(l.exp)).None? && t.slab.live == c.heap.slab.live
    requires var p := H.FrameAt(t.slab.base, a);
      p !in c.heap.slab.large && t.slab.large == c.heap.slab.large[p := PagesOrder(l.size)]
    ensures a !in c.asked && Tracked(Clients(t, c.asked[a := l]))
  {
    if a in t.slab.live { NotBoth(t, a, t.slab.live[a]); }
  }

  lemma ReleaseTracked(c: Clients, a: nat)
    requires Tracked(c) && a in c.asked
    ensures Tracked(Step(c, Release(a)))
  {
    var l := c.asked[a];
    var t := H.Free(c.heap, a, l.size, Pow2(l.exp));
    H.StepInv(c.heap, t, H.Put(a, l.size, Pow2(l.exp)));
    forall b: nat | b in c.asked && b != a
      ensures H.Freeable(t, b, c.asked[b].size, Pow2(c.asked[b].exp))
    {
      StillHeld(c.heap, t, a, l, b, c.asked[b]);
    }
  }

  lemma StillHeld(h: H.Heap, t: H.Heap, a: nat, l: Layout, b: nat, m: Layout)
    requires H.Inv(h) && H.Freeable(h, a, l.size, Pow2(l.exp)) && t == H.Free(h, a, l.size, Pow2(l.exp))
    requires b != a && H.Freeable(h, b, m.size, Pow2(m.exp))
    ensures H.Freeable(t, b, m.size, Pow2(m.exp))
  {
    SmallestFit(l.size, Pow2(l.exp));
  }

  lemma StepTracked(c: Clients, op: Op)
    requires Tracked(c) && Legal(c, op)
    ensures Tracked(Step(c, op))
  {
    match op {
      case Ask(l) => AskTracked(c, l);
      case Release(a) => ReleaseTracked(c, a);
      case Other(o) => H.OtherInv(c.heap, Step(c, op).heap, o);
    }
  }

  // ---------- whole runs ----------

  ghost predicate LegalRun(c: Clients, ops: seq<Op>)
    requires Tracked(c)
    decreases |ops|
  {
    ops == [] || (Legal(c, ops[0]) && (StepTracked(c, ops[0]); LegalRun(Step(c, ops[0]), ops[1..])))
  }

  ghost function Run(c: Clients, ops: seq<Op>): Clients
    requires Tracked(c) && LegalRun(c, ops)
    decreases |ops|
  {
    if ops == [] then c else (StepTracked(c, ops[0]); Run(Step(c, ops[0]), ops[1..]))
  }

  /** Every address out holds as many bytes as were asked for, aligned as asked where
      the request can be, and shares none of them with another. */
  ghost predicate AllServed(c: Clients) {
    && (forall a: nat :: a in c.asked && AlignsFor(c.heap.slab.base, c.asked[a]) ==> Aligned(a, c.asked[a].exp))
    && (forall a: nat, b: nat :: a in c.asked && b in c.asked && a != b ==>
          ApartBytes(a, c.asked[a].size, b, c.asked[b].size))
    && (forall a: nat :: a in c.asked ==>
          && H.Freeable(c.heap, a, c.asked[a].size, Pow2(c.asked[a].exp))
          && c.asked[a].size <= Room(c.heap, a, c.asked[a]))
  }

  lemma TrackedServes(c: Clients)
    requires Tracked(c)
    ensures AllServed(c)
  {
    forall a: nat | a in c.asked
      ensures c.asked[a].size <= Room(c.heap, a, c.asked[a])
      ensures AlignsFor(c.heap.slab.base, c.asked[a]) ==> Aligned(a, c.asked[a].exp)
    {
      Serves(c.heap, a, c.asked[a]);
    }
    forall a: nat, b: nat | a in c.asked && b in c.asked && a != b
      ensures ApartBytes(a, c.asked[a].size, b, c.asked[b].size)
    {
      RoomsApart(c.heap, a, c.asked[a], b, c.asked[b]);
      Serves(c.heap, a, c.asked[a]);
      Serves(c.heap, b, c.asked[b]);
    }
  }

  /** In every state of every run, whatever other users of the buddy allocator do in
      between, each caller has what it asked for, and no two share a byte. */
  lemma {:induction false} RunServes(c: Clients, ops: seq<Op>)
    requires Tracked(c) && LegalRun(c, ops)
    ensures Tracked(Run(c, ops)) && AllServed(Run(c, ops))
    decreases |ops|
  {
    if ops == [] {
      TrackedServes(c);
    } else {
      StepTracked(c, ops[0]);
      RunServes(Step(c, ops[0]), ops[1..]);
    }
  }

  /** It starts with nothing handed out. */
  lemma FreshTracked(base: nat, b: B.State)
    requires B.WF(b) && Aligned(base, PAGE_SHIFT)
    ensures Tracked(Clients(H.Heap(H.Fresh(base), b), map[]))
  {
    H.FreshInv(base, b);
  }
}
