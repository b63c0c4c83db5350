/** The buddy allocator of the kernel: a mem-map updated in place, proved to do
    what the model says. */
module Buddy {
  import opened Bits
  import opened Wrappers
  import opened M = BuddyModel
  import opened BuddySteps
  import opened BuddyFrames
  import opened BuddyTheorems
  import opened BuddyRuns
  import opened MemMap

  /** Two links and a count of four bytes, order and state of one, flags of two. */
  const PAGE_INFO_SIZE: nat := 4 + 4 + 4 + 1 + 1 + 2

  /** The order `free_range` picks, from the trailing zeros of the frame number
      and the highest bit of what is left, is the greatest that fits. */
  function MaxOrderAt(pfn: nat, remaining: nat): (o: nat)
    requires remaining > 0
    ensures o == GreatestOrder(pfn, remaining)
  {
    var cap := MAX_ORDER - 1;
    var align := if TrailingZeros(pfn) < cap then TrailingZeros(pfn) else cap;
    var size := if FloorLog2(remaining) < cap then FloorLog2(remaining) else cap;
    var o := if align < size then align else size;
    MaxOrderFits(pfn, remaining, o);
    o
  }

  lemma MaxOrderFits(pfn: nat, remaining: nat, o: nat)
    requires remaining > 0
    requires o <= TrailingZeros(pfn) && o <= FloorLog2(remaining) && o <= MAX_ORDER - 1
    requires o == TrailingZeros(pfn) || o == FloorLog2(remaining) || o == MAX_ORDER - 1
    ensures o == GreatestOrder(pfn, remaining)
  {
    var g := GreatestOrder(pfn, remaining);
    TrailingZerosAlign(pfn, o);
    FloorLog2Bound(remaining, o);
    TrailingZerosAlign(pfn, g);
    FloorLog2Bound(remaining, g);
  }

  /** Carving the count frames at pfn, all reserved, turns t into goal. */
  ghost predicate Remains(t: State, pfn: nat, count: nat, goal: State) {
    |t.lists| == MAX_ORDER && AllReserved(t, pfn, count) && M.FreeRange(t, pfn, count) == goal
  }

  lemma RoundLeaves(t: State, pfn: nat, count: nat, o: nat, goal: State)
    requires Remains(t, pfn, count, goal) && count > 0 && o == GreatestOrder(pfn, count)
    ensures AllReserved(t, pfn, Pow2(o)) && Remains(Seed(t, pfn, o), pfn + Pow2(o), count - Pow2(o), goal)
  {
  }

  /** Splitting the block in hand, of order k, down to `order` turns t into goal. */
  ghost predicate Halves(t: State, b: nat, k: nat, order: nat, goal: State) {
    Holds(t, b) && t.live[b] == k && order <= k && SplitDown(t, b, order) == goal
  }

  lemma HalvesOnce(t: State, b: nat, k: nat, order: nat, goal: State)
    requires Halves(t, b, k + 1, order, goal) && order <= k
    ensures Halves(SplitStep(t, b), b, k, order, goal)
  {
  }

  /** Coalescing the block in hand, of order k, turns t into goal. */
  ghost predicate Merges(t: State, p: nat, k: nat, goal: State) {
    Holds(t, p) && t.live[p] == k && MergeUp(t, p) == goal
  }

  class BuddyAllocator {
    const pages: array<PageInfo>
    const dramBase: nat
    const nrFrames: nat
    const freeArea: array<Option<nat>>
    var freeFrames: nat
    ghost var s: State

    /** The mem-map stands for t, except at the frame in hand. */
    ghost predicate Shows(t: State, held: Option<nat>)
      reads this, pages, freeArea
    {
      && (pages as object) != (freeArea as object)
      && freeArea.Length == MAX_ORDER
      && t.nr == nrFrames && WF(t)
      && Rep(pages[..], freeArea[..], t, held)
    }

    ghost predicate Consistent()
      reads this, pages, freeArea
    {
      Shows(s, None) && Covered(s) && freeFrames == FreeCount(s.lists)
    }

    /** Consistent, behind a key: callers need not look inside. */
    ghost predicate Valid()
      reads this, pages, freeArea
    {
      && |s.lists| == MAX_ORDER && s.nr == nrFrames <= pages.Length
      && forall k: nat :: Key(k) ==> Consistent()
    }

    lemma Open()
      requires Valid()
      ensures Consistent()
    {
      assert Key(0);
    }

    /** `free_frames` is the number of free frames. */
    lemma CountsFree()
      requires Valid()
      ensures freeFrames == |FreeSet(s)|
    {
      Open();
      FreeCountIsSize(s);
    }

    /** Every frame starts out reserved. */
    constructor (pages: array<PageInfo>, dramBase: nat, nrFrames: nat)
      requires nrFrames <= pages.Length && nrFrames <= RAW_NONE
      modifies pages
      ensures Valid() && s == Initial(nrFrames)
      ensures this.pages == pages && this.dramBase == dramBase && this.nrFrames == nrFrames && fresh(freeArea)
    {
      this.pages := pages;
      this.dramBase := dramBase;
      this.nrFrames := nrFrames;
      freeArea := new Option<nat>[MAX_ORDER](_ => None);
      freeFrames := 0;
      s := Initial(nrFrames);
      new;
      var i := 0;
      while i < pages.Length
        invariant 0 <= i <= pages.Length
        invariant forall p :: 0 <= p < i ==> pages[p].state == Reserved && pages[p].Unlinked()
        invariant freeArea.Length == MAX_ORDER && forall k :: 0 <= k < MAX_ORDER ==> freeArea[k] == None
        invariant s == Initial(nrFrames) && freeFrames == 0
      {
        pages[i] := pages[i].MarkReserved();
        i := i + 1;
      }
      InitialWF(nrFrames);
    }

    // ---------- addresses ----------

    predicate InDram(pa: nat) {
      dramBase <= pa < dramBase + nrFrames * PAGE_SIZE && (pa - dramBase) % PAGE_SIZE == 0
    }

    function PfnOf(pa: nat): (pfn: nat)
      requires InDram(pa)
      ensures pfn < nrFrames && PaOf(pfn) == pa
    {
      (pa - dramBase) / PAGE_SIZE
    }

    function PaOf(pfn: nat): (pa: nat)
      requires pfn < nrFrames
      ensures InDram(pa)
    {
      dramBase + pfn * PAGE_SIZE
    }

    lemma PfnOfPaOf(pfn: nat)
      requires pfn < nrFrames
      ensures PfnOf(PaOf(pfn)) == pfn
    {
    }

    function BuddyPfn(pfn: nat, order: nat): Option<nat> {
      var n := Xor(pfn, Pow2(order));
      if n >= nrFrames then None else Some(n)
    }

    // ---------- free lists ----------

    method PushFront(order: nat, pfn: nat)
      requires (pages as object) != (freeArea as object)
      requires order < freeArea.Length && pfn < pages.Length && pages[pfn].state == Free
      requires freeArea[order].Some? ==> freeArea[order].value < pages.Length
      modifies pages, freeArea
      ensures pages[..] == PushPages(old(pages[..]), old(freeArea[order]), pfn)
      ensures freeArea[..] == old(freeArea[..])[order := Some(pfn)]
    {
      var oldHead := freeArea[order];
      pages[pfn] := pages[pfn].(prev := RAW_NONE);
      pages[pfn] := pages[pfn].(next := Raw(oldHead));
      if oldHead.Some? {
        pages[oldHead.value] := pages[oldHead.value].(prev := pfn);
      }
      freeArea[order] := Some(pfn);
    }

    method Unlink(order: nat, pfn: nat)
      requires (pages as object) != (freeArea as object)
      requires order < freeArea.Length && pfn < pages.Length && pages[pfn].state == Free
      requires Link(pages[pfn].prev).Some? ==> pages[pfn].prev < pages.Length
      requires Link(pages[pfn].next).Some? ==> pages[pfn].next < pages.Length
      modifies pages, freeArea
      ensures pages[..] == UnlinkPages(old(pages[..]), pfn)
      ensures freeArea[..] == UnlinkArea(old(freeArea[..]), order, old(pages[pfn]))
    {
      var prev, next := Link(pages[pfn].prev), Link(pages[pfn].next);
      match prev {
        case Some(p) => pages[p] := pages[p].(next := Raw(next));
        case None => freeArea[order] := next;
      }
      if next.Some? {
        pages[next.value] := pages[next.value].(prev := Raw(prev));
      }
    }

    method PopFront(order: nat) returns (r: Option<nat>)
      requires Consistent() && order < MAX_ORDER
      modifies pages, freeArea
      ensures r == HeadOf(s.lists[order])
      ensures r.None? ==> Consistent() && pages[..] == old(pages[..])
      ensures r.Some? ==> Rep(pages[..], freeArea[..], Take(s, order), r)
    {
      match freeArea[order] {
        case None => r := None;
        case Some(head) =>
          RepTake(pages[..], freeArea[..], s, order);
          FreeMeansListed(pages[..], freeArea[..], s, None, head, order);
          Unlink(order, head);
          r := Some(head);
      }
    }

    // ---------- alloc and free ----------

    method Alloc(order: nat) returns (r: Option<nat>)
      requires Consistent()
      modifies this`freeFrames, this`s, pages, freeArea
      ensures Consistent() && (s, r) == M.Alloc(old(s), order)
    {
      var k := order;
      while k < MAX_ORDER && freeArea[k].None?
        invariant order <= k && (k <= MAX_ORDER || k == order)
        invariant FirstNonEmpty(s.lists, k) == FirstNonEmpty(s.lists, order)
        decreases MAX_ORDER - k
      {
        k := k + 1;
      }
      if k >= MAX_ORDER { return None; }
      TakeWF(s, k);
      AllocCount(s, order);
      StepCovered(s, DoAlloc(order));
      ghost var taken := Take(s, k);
      var head := PopFront(k);
      var block := head.value;
      ghost var t := SplitTo(block, k, order, taken);
      freeFrames := freeFrames - Pow2(order);
      RepAllocated(pages[..], freeArea[..], t, block);
      pages[block] := pages[block].MarkAllocated(order);
      s := t;
      r := Some(block);
    }

    /** The split loop of `alloc`. */
    method SplitTo(block: nat, from: nat, order: nat, ghost taken: State) returns (ghost t: State)
      requires Shows(taken, Some(block)) && LiveBlock(taken, block, from) && order <= from < MAX_ORDER
      modifies pages, freeArea
      ensures Holds(taken, block) && t == SplitDown(taken, block, order)
      ensures Shows(t, Some(block)) && LiveBlock(t, block, order)
    {
      var k := from;
      t := taken;
      ghost var goal := SplitDown(taken, block, order);
      while k > order
        invariant order <= k < MAX_ORDER && Shows(t, Some(block))
        invariant Halves(t, block, k, order, goal)
      {
        k := k - 1;
        t := SplitOnce(block, k, order, t, goal);
      }
    }

    /** One round of that loop: the upper half of the block in hand is pushed. */
    method SplitOnce(block: nat, k: nat, order: nat, ghost t: State, ghost goal: State) returns (ghost t': State)
      requires order <= k < MAX_ORDER - 1 && Shows(t, Some(block)) && Halves(t, block, k + 1, order, goal)
      modifies pages, freeArea
      ensures Shows(t', Some(block)) && Halves(t', block, k, order, goal)
    {
      RepSplit(pages[..], freeArea[..], t, block);
      SplitWF(t, block);
      t' := SplitStep(t, block);
      HalvesOnce(t, block, k, order, goal);
      var buddy := block + Pow2(k);
      pages[buddy] := pages[buddy].MarkFree(k);
      PushFront(k, buddy);
    }

    /** The block must be live and `order` its own: the code checks neither. */
    method FreeBlockOf(pfn: nat, order: nat)
      requires Consistent() && LiveBlock(s, pfn, order)
      modifies this`freeFrames, this`s, pages, freeArea
      ensures Holds(old(s), pfn) && Consistent() && s == M.Free(old(s), pfn)
    {
      FreeWF(s, pfn);
      MergeUpCount(s, pfn);
      StepCovered(s, DoFree(pfn));
      freeFrames := freeFrames + Pow2(order);
      var cur: nat, curOrder: nat := pfn, order;
      ghost var t, goal := s, M.Free(s, pfn);
      while curOrder < MAX_ORDER - 1
        invariant s == old(s) && freeFrames == old(freeFrames) + Pow2(order)
        invariant Shows(t, Some(cur)) && Merges(t, cur, curOrder, goal)
      {
        var merged;
        merged, cur, t := MergeOnce(cur, curOrder, t, goal);
        if !merged { break; }
        curOrder := curOrder + 1;
      }
      RepGive(pages[..], freeArea[..], t, cur);
      GiveWF(t, cur);
      pages[cur] := pages[cur].MarkFree(curOrder);
      PushFront(curOrder, cur);
      s := Give(t, cur);
    }

    /** One round of `free`: join the block in hand with its buddy, if that is a
        free block of the same order. */
    method MergeOnce(cur: nat, curOrder: nat, ghost t: State, ghost goal: State)
      returns (merged: bool, head: nat, ghost t': State)
      requires curOrder < MAX_ORDER - 1 && Shows(t, Some(cur)) && Merges(t, cur, curOrder, goal)
      modifies pages, freeArea
      ensures Shows(t', Some(head))
      ensures if merged then Merges(t', head, curOrder + 1, goal)
        else Merges(t', head, curOrder, goal) && !CanMerge(t', head)
    {
      assert IsBlock(t, cur, curOrder);
      BuddyFacts(cur, curOrder);
      var b := BuddyPfn(cur, curOrder);
      if b.None? { return false, cur, t; }
      var buddy := b.value;
      FreeMeansListed(pages[..], freeArea[..], t, Some(cur), buddy, curOrder);
      if !(pages[buddy].state == Free && pages[buddy].order == curOrder) { return false, cur, t; }
      RepMerge(pages[..], freeArea[..], t, cur);
      MergeWF(t, cur);
      Unlink(curOrder, buddy);
      var tail;
      head, tail := if cur < buddy then cur else buddy, if cur < buddy then buddy else cur;
      pages[tail] := pages[tail].MarkTail();
      merged, t' := true, MergeStep(t, cur);
    }

    method FreeRange(start: nat, count: nat)
      requires Valid() && AllReserved(s, start, count)
      modifies this`freeFrames, this`s, pages, freeArea
      ensures Valid() && s == M.FreeRange(old(s), start, count)
    {
      Open();
      StepCovered(s, DoFreeRange(start, count));
      CarveRange(start, count);
    }

    /** The outer loop of `free_range`. */
    method CarveRange(start: nat, count: nat)
      requires Shows(s, None) && freeFrames == FreeCount(s.lists) && AllReserved(s, start, count)
      modifies this`freeFrames, this`s, pages, freeArea
      ensures Shows(s, None) && freeFrames == FreeCount(s.lists)
      ensures |old(s).lists| == MAX_ORDER && s == M.FreeRange(old(s), start, count)
    {
      var pfn: nat, end: nat := start, start + count;
      ghost var t, goal := s, M.FreeRange(s, start, count);
      while pfn < end
        invariant pfn <= end
        invariant Shows(t, None) && freeFrames == FreeCount(t.lists)
        invariant Remains(t, pfn, end - pfn, goal)
      {
        pfn, t := CarveBlockAt(pfn, end, t, goal);
      }
      s := t;
    }

    /** One round of `free_range`: the body of its outer loop. */
    method CarveBlockAt(pfn: nat, end: nat, ghost t: State, ghost goal: State) returns (pfn': nat, ghost t': State)
      requires pfn < end && Shows(t, None) && freeFrames == FreeCount(t.lists) && Remains(t, pfn, end - pfn, goal)
      modifies this`freeFrames, pages, freeArea
      ensures pfn < pfn' <= end && Shows(t', None) && freeFrames == FreeCount(t'.lists)
      ensures Remains(t', pfn', end - pfn', goal)
    {
      var order := MaxOrderAt(pfn, end - pfn);
      t' := Seed(t, pfn, order);
      pfn' := pfn + Pow2(order);
      RoundLeaves(t, pfn, end - pfn, order, goal);
      assert Remains(t', pfn', end - pfn', goal);
      SeedBlock(pfn, order, t);
    }

    /** Mark the interior of a block tail and its head free, and push it. */
    method SeedBlock(pfn: nat, order: nat, ghost t: State)
      requires Shows(t, None) && freeFrames == FreeCount(t.lists)
      requires order < MAX_ORDER && Aligned(pfn, order) && AllReserved(t, pfn, Pow2(order))
      modifies this`freeFrames, pages, freeArea
      ensures Shows(Seed(t, pfn, order), None) && freeFrames == FreeCount(Seed(t, pfn, order).lists)
    {
      ghost var before := pages[..];
      FreeCountPush(t.lists, order, pfn);
      SeedWF(t, pfn, order);
      var size := Pow2(order);
      assert pfn + size - 1 in t.reserved;
      MarkTails(pfn, size);
      RepSeed(before, pages[..], freeArea[..], t, pfn, order);
      pages[pfn] := pages[pfn].MarkFree(order);
      PushFront(order, pfn);
      freeFrames := freeFrames + size;
    }

    method MarkTails(pfn: nat, size: nat)
      requires pfn + size <= pages.Length
      modifies pages
      ensures forall q :: 0 <= q < pages.Length ==>
        pages[q] == if pfn < q < pfn + size then old(pages[q]).MarkTail() else old(pages[q])
    {
      var i := 1;
      while i < size
        invariant 1 <= i
        invariant forall q :: 0 <= q < pages.Length ==>
          pages[q] == if pfn < q < pfn + size && q < pfn + i then old(pages[q]).MarkTail() else old(pages[q])
      {
        pages[pfn + i] := pages[pfn + i].MarkTail();
        i := i + 1;
      }
    }

    // ---------- public interface ----------

    /** Frames as physical addresses: the block is page-aligned, aligned to its
        own size from the base of DRAM, and wholly inside DRAM. */
    method AllocPages(order: nat) returns (r: Option<nat>)
      requires Valid()
      modifies this`freeFrames, this`s, pages, freeArea
      ensures Valid()
      ensures M.Alloc(old(s), order).1.None? ==> r.None? && s == old(s)
      ensures M.Alloc(old(s), order).1.Some? ==>
        && r.Some? && InDram(r.value) && s == M.Alloc(old(s), order).0
        && M.Alloc(old(s), order).1 == Some(PfnOf(r.value)) && LiveBlock(s, PfnOf(r.value), order)
        && Aligned(PfnOf(r.value), order)
        && r.value + Pow2(order) * PAGE_SIZE <= dramBase + nrFrames * PAGE_SIZE
    {
      Open();
      AllocWF(s, order);
      var pfn := Alloc(order);
      match pfn {
        case None => r := None;
        case Some(b) =>
          assert IsBlock(s, b, order);
          PfnOfPaOf(b);
          r := Some(PaOf(b));
      }
    }

    method FreePages(pa: nat, order: nat)
      requires Valid() && InDram(pa) && LiveBlock(s, PfnOf(pa), order)
      modifies this`freeFrames, this`s, pages, freeArea
      ensures Holds(old(s), PfnOf(pa)) && Valid() && s == M.Free(old(s), PfnOf(pa))
    {
      Open();
      FreeBlockOf(PfnOf(pa), order);
    }

    /** From a state with no mergeable pair, freeing what was just allocated
        restores the free areas, every page state and link, the order of every
        head and the number of free frames. */
    method AllocThenFree(order: nat)
      requires Valid() && NoMergeable(s)
      modifies this`freeFrames, this`s, pages, freeArea
      ensures Valid() && s == old(s) && freeFrames == old(freeFrames)
      ensures freeArea[..] == old(freeArea[..])
      ensures forall p: nat :: p < nrFrames ==>
        && pages[p].state == old(pages[p]).state
        && pages[p].next == old(pages[p]).next && pages[p].prev == old(pages[p]).prev
        && (pages[p].state == Free || pages[p].state == Allocated ==> pages[p] == old(pages[p]))
    {
      ghost var before, area := pages[..], freeArea[..];
      Open();
      if M.Alloc(s, order).1.Some? { FreeUndoesAllocWhenMerged(s, order); }
      AllocWF(s, order);
      var pa := AllocPages(order);
      if pa.Some? { FreePages(pa.value, order); }
      Open();
      SameMemMap(before, area, pages[..], freeArea[..], s);
    }
  }

  lemma SameMemMap(pages: seq<PageInfo>, area: seq<Option<nat>>, pages': seq<PageInfo>, area': seq<Option<nat>>,
                   s: State)
    requires WF(s) && Rep(pages, area, s, None) && Rep(pages', area', s, None)
    ensures area == area'
    ensures forall p: nat :: p < s.nr ==>
      && pages'[p].state == pages[p].state && pages'[p].next == pages[p].next && pages'[p].prev == pages[p].prev
      && (pages'[p].state == Free || pages'[p].state == Allocated ==> pages'[p] == pages[p])
  {
    assert area == area';
    forall p: nat | p < s.nr
      ensures pages'[p].state == pages[p].state && pages'[p].next == pages[p].next && pages'[p].prev == pages[p].prev
      ensures pages'[p].state == Free || pages'[p].state == Allocated ==> pages'[p] == pages[p]
    {
      RepUnique(pages, area, pages', area', s, p);
    }
  }

  /** Frames that hold one descriptor per frame: a frame holds 256 of them, and there
      are just enough. */
  function MemMapFrames(nrFrames: nat): (n: nat)
    ensures nrFrames <= 256 * n
    ensures n > 0 ==> nrFrames > 256 * (n - 1)
  {
    (nrFrames * PAGE_INFO_SIZE + PAGE_SIZE - 1) / PAGE_SIZE
  }
}
