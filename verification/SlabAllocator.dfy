/** The slab as the kernel keeps it: one list head per class, and the links in
    the first word of each free object. */
module SlabAllocator {
  import opened Bits
  import opened Wrappers
  import B = BuddyModel
  import R = BuddyRuns
  import opened Buddy
  import Layout
  import opened SlabLayout
  import opened SlabModel
  import opened H = Heap

  type Links = map<nat, Option<nat>>

  /** From its head, following the links visits the list and ends. */
  ghost predicate Chain(links: Links, head: Option<nat>, l: seq<nat>) {
    head == HeadOf(l) && forall x :: 0 <= x < |l| ==> l[x] in links && links[l[x]] == HeadOf(l[x + 1..])
  }

  ghost predicate Chains(links: Links, heads: seq<Option<nat>>, free: seq<seq<nat>>) {
    |heads| == |free| == NR_CLASSES && forall i :: 0 <= i < NR_CLASSES ==> Chain(links, heads[i], free[i])
  }

  ghost predicate OffLists(free: seq<seq<nat>>, a: nat) {
    forall i :: 0 <= i < |free| ==> a !in free[i]
  }

  /** A word written outside the lists does not change them. */
  lemma ChainKeeps(links: Links, head: Option<nat>, l: seq<nat>, a: nat, v: Option<nat>)
    requires Chain(links, head, l) && a !in l
    ensures Chain(links[a := v], head, l)
  {
  }

  lemma ChainsPush(links: Links, heads: seq<Option<nat>>, free: seq<seq<nat>>, i: nat, a: nat)
    requires Chains(links, heads, free) && i < NR_CLASSES && OffLists(free, a)
    ensures Chains(links[a := heads[i]], heads[i := Some(a)], free[i := [a] + free[i]])
  {
  }

  lemma ChainsPop(links: Links, heads: seq<Option<nat>>, free: seq<seq<nat>>, i: nat)
    requires Chains(links, heads, free) && i < NR_CLASSES && free[i] != []
    ensures heads[i] == Some(free[i][0]) && free[i][0] in links
    ensures Chains(links, heads[i := links[free[i][0]]], free[i := free[i][1..]])
  {
  }

  class LockedSlab {
    const freeLists: array<Option<nat>>
    const dramBase: nat
    var links: Links
    /** The `BUDDY` cell: null until the hand-off. */
    var buddy: BuddyAllocator?
    ghost var s: Slab

    ghost function BuddyRepr(): set<object>
      reads this
    {
      if buddy == null then {} else {buddy, buddy.pages, buddy.freeArea}
    }

    ghost function State(): Heap
      reads this, buddy
    {
      Heap(s, if buddy == null then R.Initial(0) else buddy.s)
    }

    /** The allocator covers DRAM from its base, and the linear map covers that. */
    predicate Fits(b: BuddyAllocator) {
      && b.dramBase == dramBase && b.freeArea != freeLists
      && dramBase + b.nrFrames * PAGE_SIZE <= Layout.LINEAR_SPAN
    }

    ghost predicate Valid()
      reads this, freeLists, BuddyRepr()
    {
      && freeLists.Length == NR_CLASSES && Ok(State()) && Chains(links, freeLists[..], s.free)
      && s.base == Layout.PaToLinearVa(dramBase) && Aligned(s.base, PAGE_SHIFT)
      && (buddy != null ==> buddy.Valid() && Fits(buddy))
    }

    constructor (dramBase: nat)
      requires Aligned(Layout.PaToLinearVa(dramBase), PAGE_SHIFT)
      ensures Valid() && fresh(freeLists) && buddy == null && s == Fresh(Layout.PaToLinearVa(dramBase))
    {
      freeLists := new Option<nat>[NR_CLASSES](_ => None);
      this.dramBase := dramBase;
      links := map[];
      buddy := null;
      s := Fresh(Layout.PaToLinearVa(dramBase));
      new;
      R.InitialWF(0);
      FreshInv(s.base, R.Initial(0));
    }

    // ---------- the intrusive lists ----------

    method Push(i: nat, a: nat, ghost free: seq<seq<nat>>)
      requires freeLists.Length == NR_CLASSES && Chains(links, freeLists[..], free) && i < NR_CLASSES
      requires OffLists(free, a)
      modifies this`links, freeLists
      ensures Chains(links, freeLists[..], free[i := [a] + free[i]])
    {
      ChainsPush(links, freeLists[..], free, i, a);
      links := links[a := freeLists[i]];
      freeLists[i] := Some(a);
    }

    method Pop(i: nat, ghost free: seq<seq<nat>>) returns (r: Option<nat>)
      requires freeLists.Length == NR_CLASSES && Chains(links, freeLists[..], free) && i < NR_CLASSES
      modifies freeLists
      ensures r == HeadOf(free[i])
      ensures Chains(links, freeLists[..], if r.None? then free else free[i := free[i][1..]])
    {
      assert Chain(links, freeLists[i], free[i]);
      if freeLists[i].None? { return None; }
      ChainsPop(links, freeLists[..], free, i);
      var node := freeLists[i].value;
      freeLists[i] := links[node];
      r := Some(node);
    }

    /** The loop of `refill`: push the objects of the page one by one. */
    method CarvePage(i: nat, ghost p: nat, base: nat, ghost free: seq<seq<nat>>)
      requires freeLists.Length == NR_CLASSES && Chains(links, freeLists[..], free) && i < NR_CLASSES
      requires base == PageAddr(s.base, p)
      requires forall a: nat :: a in Slots(s.base, p, i, PerPage(i)) ==> OffLists(free, a)
      modifies this`links, freeLists
      ensures Chains(links, freeLists[..], WithSlots(free, s.base, p, i, PerPage(i)))
    {
      var size, n, k := CLASSES[i], PerPage(i), 0;
      NoSlots(free, s.base, p, i);
      while k < n
        invariant 0 <= k <= n && Chains(links, freeLists[..], WithSlots(free, s.base, p, i, k))
      {
        SlotOffsetIsTimes(i, k);
        var a := base + k * size;
        FreshSlot(s.base, p, i, k, free);
        NextSlot(free, s.base, p, i, k);
        Push(i, a, WithSlots(free, s.base, p, i, k));
        k := k + 1;
      }
    }

    /** Carve one page of the buddy allocator for class i. */
    method Refill(i: nat) returns (ok: bool)
      requires Valid() && i < NR_CLASSES
      modifies this`links, this`s, freeLists, BuddyRepr()
      ensures Valid() && buddy == old(buddy)
      ensures ok == B.Alloc(old(State()).buddy, 0).1.Some?
      ensures !ok ==> State() == old(State())
      ensures ok ==> State() == Heap(SlabModel.Refill(old(s), i, B.Alloc(old(State()).buddy, 0).1.value),
                                     B.Alloc(old(State()).buddy, 0).0)
    {
      if buddy == null { return false; }
      ghost var h := State();
      var pa := buddy.AllocPages(0);
      if pa.None? { return false; }
      ghost var p := buddy.PfnOf(pa.value);
      RefillOk(h, Heap(SlabModel.Refill(h.slab, i, p), buddy.s), i, p);
      CarvePage(i, p, Layout.PaToLinearVa(pa.value), s.free);
      s := SlabModel.Refill(s, i, p);
      ok := true;
    }

    // ---------- the global allocator ----------

    /** A request; None stands for the null pointer. */
    method Alloc(size: nat, align: nat) returns (r: Option<nat>)
      requires Valid()
      modifies this`links, this`s, freeLists, BuddyRepr()
      ensures Valid() && buddy == old(buddy)
      ensures (State(), r) == H.Alloc(old(State()), size, align)
    {
      SmallestFit(size, align);
      var found := SizeClassIndex(size, align);
      match found {
        case Some(i) => r := AllocObject(i);
        case None => r := LargeAlloc(size);
      }
    }

    method AllocObject(i: nat) returns (r: Option<nat>)
      requires Valid() && i < NR_CLASSES
      modifies this`links, this`s, freeLists, BuddyRepr()
      ensures Valid() && buddy == old(buddy)
      ensures (State(), r) == AllocSmall(old(State()), i)
    {
      assert Chain(links, freeLists[i], s.free[i]);
      if freeLists[i].None? {
        PageFilled(i);
        var ok := Refill(i);
        if !ok { return None; }
      }
      r := TakeFront(i);
    }

    method TakeFront(i: nat) returns (r: Option<nat>)
      requires Valid() && i < NR_CLASSES && s.free[i] != []
      modifies this`s, freeLists
      ensures Valid() && s == SlabModel.Pop(old(s), i) && r == Some(old(s).free[i][0])
    {
      PopOk(State(), State().(slab := SlabModel.Pop(s, i)), i);
      r := Pop(i, s.free);
      s := SlabModel.Pop(s, i);
    }

    method LargeAlloc(size: nat) returns (r: Option<nat>)
      requires Valid()
      modifies this`s, BuddyRepr()
      ensures Valid() && buddy == old(buddy)
      ensures (State(), r) == AllocLarge(old(State()), size)
    {
      if buddy == null { return None; }
      ghost var h := State();
      var order := PagesOrder(size);
      var pa := buddy.AllocPages(order);
      if pa.None? { return None; }
      AllocLargeOk(h, AllocLarge(h, size).0, size);
      s := s.(large := s.large[buddy.PfnOf(pa.value) := order]);
      r := Some(Layout.PaToLinearVa(pa.value));
    }

    /** The caller gives back a live allocation with the layout it asked for. */
    method Dealloc(a: nat, size: nat, align: nat)
      requires Valid() && Freeable(State(), a, size, align)
      modifies this`links, this`s, freeLists, BuddyRepr()
      ensures Valid() && buddy == old(buddy)
      ensures State() == H.Free(old(State()), a, size, align)
    {
      SmallestFit(size, align);
      var found := SizeClassIndex(size, align);
      match found {
        case Some(i) => GiveBack(i, a);
        case None => LargeDealloc(a, size, align);
      }
    }

    method GiveBack(i: nat, a: nat)
      requires Valid() && i < NR_CLASSES && LiveObj(s, a, i)
      modifies this`links, this`s, freeLists
      ensures Valid() && s == SlabModel.Push(old(s), a)
    {
      PushOk(State(), State().(slab := SlabModel.Push(s, a)), a);
      Push(i, a, s.free);
      s := SlabModel.Push(s, a);
    }

    method LargeDealloc(a: nat, size: nat, ghost align: nat)
      requires Valid() && Freeable(State(), a, size, align) && SizeClass(size, align).None?
      modifies this`s, BuddyRepr()
      ensures Valid() && buddy == old(buddy)
      ensures State() == H.Free(old(State()), a, size, align)
    {
      ghost var h := State();
      ghost var p := FrameAt(s.base, a);
      LargeIsLive(h, p);
      if buddy != null {
        FreeOk(h, H.Free(h, a, size, align), a, size, align);
        var pa := Layout.LinearVaToPa(a);
        buddy.FreePages(pa, PagesOrder(size));
        s := s.(large := s.large - {p});
      }
    }

    /** `BUDDY` is set once, by the hand-off. */
    method Install(b: BuddyAllocator)
      requires Valid() && buddy == null && b.Valid() && Fits(b)
      modifies this`buddy
      ensures Valid() && buddy == b && s == old(s)
    {
      b.Open();
      EmptyOwns(State(), Heap(s, b.s));
      buddy := b;
    }

    /** The owner of a live object writes its first word: no list notices. */
    method OwnerWrites(a: nat, word: Option<nat>)
      requires Valid() && a in s.live
      modifies this`links
      ensures Valid() && State() == old(State()) && links == old(links)[a := word]
    {
      LiveOffLists(State(), a);
      forall i | 0 <= i < NR_CLASSES ensures Chain(links[a := word], freeLists[i], s.free[i]) {
        ChainKeeps(links, freeLists[i], s.free[i], a, word);
      }
      links := links[a := word];
    }
  }

  lemma LiveOffLists(h: Heap, a: nat)
    requires Ok(h) && a in h.slab.live
    ensures OffLists(h.slab.free, a)
  {
    H.Open(h);
    forall i | 0 <= i < |h.slab.free| ensures a !in h.slab.free[i] { assert !FreeObj(h.slab, a, i); }
  }

  lemma LargeIsLive(h: Heap, p: nat)
    requires Ok(h) && p in h.slab.large
    ensures B.LiveBlock(h.buddy, p, h.slab.large[p]) && p < h.buddy.nr
  {
    H.Open(h);
    assert B.IsBlock(h.buddy, p, h.slab.large[p]);
  }

  /** Before the buddy allocator is up the slab owns no block. */
  lemma EmptyOwns(h: Heap, t: Heap)
    requires Ok(h) && h.buddy == R.Initial(0) && t.slab == h.slab && B.WF(t.buddy)
    ensures Ok(t)
  {
    H.Open(h);
    assert forall p: nat, k: nat :: !B.LiveBlock(R.Initial(0), p, k);
  }

  lemma PopOk(h: Heap, t: Heap, i: nat)
    requires Ok(h) && i < NR_CLASSES && h.slab.free[i] != [] && t == h.(slab := SlabModel.Pop(h.slab, i))
    ensures Ok(t)
  {
    H.Open(h);
    PopWF(h.slab, t.slab, i);
  }

  lemma PushOk(h: Heap, t: Heap, a: nat)
    requires Ok(h) && a in h.slab.live && h.slab.live[a] < NR_CLASSES && t == h.(slab := SlabModel.Push(h.slab, a))
    ensures Ok(t) && OffLists(h.slab.free, a)
  {
    H.Open(h);
    PushWF(h.slab, t.slab, a);
    LiveOffLists(h, a);
  }

  lemma RefillOk(h: Heap, t: Heap, i: nat, p: nat)
    requires Ok(h) && i < NR_CLASSES && B.Alloc(h.buddy, 0) == (t.buddy, Some(p))
    requires t.slab == SlabModel.Refill(h.slab, i, p)
    ensures Ok(t) && forall a: nat :: a in Slots(h.slab.base, p, i, PerPage(i)) ==> OffLists(h.slab.free, a)
  {
    H.Open(h);
    RefillInv(h, t, i, p);
    NewSlotsOffLists(h.slab, i, p);
  }

  lemma AllocLargeOk(h: Heap, t: Heap, size: nat)
    requires Ok(h) && t == AllocLarge(h, size).0
    ensures Ok(t)
  {
    H.Open(h);
    AllocLargeInv(h, t, size);
  }

  lemma FreeOk(h: Heap, t: Heap, a: nat, size: nat, align: nat)
    requires Ok(h) && Freeable(h, a, size, align) && t == H.Free(h, a, size, align)
    ensures Ok(t)
  {
    H.Open(h);
    FreeInv(h, t, a, size, align);
  }

  lemma NewSlotsOffLists(s: Slab, i: nat, p: nat)
    requires WF(s) && i < NR_CLASSES && p !in s.pages
    ensures forall a: nat :: a in Slots(s.base, p, i, PerPage(i)) ==> OffLists(s.free, a)
  {
    forall a: nat, j: nat | a in Slots(s.base, p, i, PerPage(i)) && j < NR_CLASSES
      ensures a !in s.free[j]
    {
      RefillCarves(s, SlabModel.Refill(s, i, p), i, p, a, j);
      assert !FreeObj(s, a, j);
    }
  }

  /** The lists once k objects of the page are pushed. */
  function WithSlots(free: seq<seq<nat>>, base: nat, p: nat, i: nat, k: nat): seq<seq<nat>>
    requires i < NR_CLASSES == |free|
  {
    free[i := Slots(base, p, i, k) + free[i]]
  }

  lemma NoSlots(free: seq<seq<nat>>, base: nat, p: nat, i: nat)
    requires i < NR_CLASSES == |free|
    ensures WithSlots(free, base, p, i, 0) == free
  {
    assert [] + free[i] == free[i];
  }

  lemma NextSlot(free: seq<seq<nat>>, base: nat, p: nat, i: nat, k: nat)
    requires i < NR_CLASSES == |free|
    ensures var now := WithSlots(free, base, p, i, k);
      now[i := [SlotAddr(base, p, i, k)] + now[i]] == WithSlots(free, base, p, i, k + 1)
  {
    assert [SlotAddr(base, p, i, k)] + (Slots(base, p, i, k) + free[i]) == Slots(base, p, i, k + 1) + free[i];
  }

  /** The next object of the page is on no list, nor among those pushed before it. */
  lemma FreshSlot(base: nat, p: nat, i: nat, k: nat, free: seq<seq<nat>>)
    requires i < NR_CLASSES == |free| && k < PerPage(i)
    requires forall a: nat :: a in Slots(base, p, i, PerPage(i)) ==> OffLists(free, a)
    ensures OffLists(WithSlots(free, base, p, i, k), SlotAddr(base, p, i, k))
  {
    var a := SlotAddr(base, p, i, k);
    SlotsAre(base, p, i, PerPage(i));
    SlotsAre(base, p, i, k);
    assert OffLists(free, a);
    forall l: nat | l < k ensures SlotAddr(base, p, i, l) != a { SlotGap(i, l, k); }
    assert a !in Slots(base, p, i, k);
  }
}
