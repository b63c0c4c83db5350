/** Whole runs of the allocator. Every reachable state is well formed and
    accounts for every frame, and each operation is a step of a plain allocator
    that only knows sets of frames. */
module BuddyRuns {
  import opened Bits
  import opened Wrappers
  import opened BuddyModel
  import opened BuddySteps
  import opened BuddyFrames
  import opened BuddyTheorems
  import opened BuddyCarve

  datatype Op = DoAlloc(order: nat) | DoFree(pfn: nat) | DoFreeRange(start: nat, count: nat)

  /** What the code leaves to its callers: `free` gets a live block, `free_range`
      gets reserved frames. */
  ghost predicate Legal(s: State, op: Op) {
    match op
    case DoAlloc(_) => true
    case DoFree(p) => p in s.live
    case DoFreeRange(start, count) => AllReserved(s, start, count)
  }

  ghost function Step(s: State, op: Op): State
    requires WF(s) && Legal(s, op)
  {
    match op
    case DoAlloc(o) => Alloc(s, o).0
    case DoFree(p) => FreeWF(s, p); Free(s, p)
    case DoFreeRange(start, count) => FreeRange(s, start, count)
  }

  /** The state `new` builds: every frame reserved. */
  function Initial(nr: nat): State {
    State(nr, seq(MAX_ORDER, _ => []), map[], Range(0, nr))
  }

  lemma StepWF(s: State, op: Op)
    requires WF(s) && Legal(s, op)
    ensures WF(Step(s, op))
  {
    match op
    case DoAlloc(o) => AllocWF(s, o);
    case DoFree(p) => FreeWF(s, p);
    case DoFreeRange(start, count) => FreeRangeWF(s, start, count);
  }

  lemma StepCovered(s: State, op: Op)
    requires WF(s) && Covered(s) && Legal(s, op)
    ensures Covered(Step(s, op)) && Step(s, op).nr == s.nr
  {
    var t := Step(s, op);
    match op {
      case DoAlloc(o) =>
        if Alloc(s, o).1.Some? { AllocCount(s, o); }
      case DoFree(p) =>
        FreeWF(s, p);
        MergeUpCount(s, p);
      case DoFreeRange(start, count) =>
        FreeRangeCount(s, start, count);
    }
    forall f: nat | f < s.nr
      ensures FreeFrame(t, f) || LiveFrame(t, f) || f in t.reserved
    {
      match op {
        case DoAlloc(o) =>
          if Alloc(s, o).1.Some? { AllocFrames(s, o, f); }
        case DoFree(p) =>
          FreeWF(s, p);
          MergeUpFrames(s, p, f);
        case DoFreeRange(start, count) =>
          FreeRangeFrames(s, start, count, f);
      }
    }
  }

  // ---------- counting frames ----------

  ghost function FreeSet(s: State): set<nat> {
    set f: nat | f < s.nr && FreeFrame(s, f)
  }

  ghost function LiveSet(s: State): set<nat> {
    set f: nat | f < s.nr && LiveFrame(s, f)
  }

  lemma {:induction false} RangeSize(p: nat, n: nat)
    ensures |Range(p, n)| == n
  {
    if n > 0 {
      RangeSize(p, n - 1);
      assert Range(p, n) == Range(p, n - 1) + {p + n - 1};
    } else {
      assert Range(p, n) == {};
    }
  }

  lemma {:induction false} EmptyCount(lists: seq<seq<nat>>)
    requires forall k :: 0 <= k < |lists| ==> lists[k] == []
    ensures FreeCount(lists) == 0
  {
    if lists != [] {
      EmptyCount(lists[..|lists| - 1]);
      ShlIsTimes(0, |lists| - 1);
    }
  }

  /** `free_frames` is the number of free frames. */
  lemma {:induction false} FreeCountIsSize(s: State)
    requires WF(s)
    ensures FreeCount(s.lists) == |FreeSet(s)|
    decreases FreeCount(s.lists)
  {
    var r := FirstNonEmpty(s.lists, 0);
    if r.None? {
      EmptyCount(s.lists);
      assert FreeSet(s) == {};
    } else {
      var k := r.value;
      var b, t := s.lists[k][0], Take(s, k);
      TakeWF(s, k);
      FreeCountDrop(s.lists, k, s.lists[k][1..]);
      FreeCountIsSize(t);
      RangeSize(b, Pow2(k));
      TakeSets(s, k);
    }
  }

  lemma TakeSets(s: State, k: nat)
    requires WF(s) && k < MAX_ORDER && s.lists[k] != []
    ensures var b := s.lists[k][0];
      FreeSet(s) == FreeSet(Take(s, k)) + Range(b, Pow2(k)) && FreeSet(Take(s, k)) !! Range(b, Pow2(k))
  {
    var b, t := s.lists[k][0], Take(s, k);
    assert FreeBlock(s, b, k) && IsBlock(s, b, k);
    forall f: nat
      ensures f in FreeSet(s) <==> f in FreeSet(t) || f in Range(b, Pow2(k))
      ensures !(f in FreeSet(t) && f in Range(b, Pow2(k)))
    {
      TakeFrames(s, k, f);
    }
  }

  /** Free, live and reserved frames are disjoint and add up to all of them. */
  lemma FramesAddUp(s: State)
    requires WF(s) && Covered(s)
    ensures FreeSet(s) !! LiveSet(s) && FreeSet(s) !! s.reserved && LiveSet(s) !! s.reserved
    ensures FreeCount(s.lists) + |LiveSet(s)| + |s.reserved| == s.nr
  {
    forall f: nat
      ensures !(f in FreeSet(s) && f in LiveSet(s)) && !(f in FreeSet(s) && f in s.reserved)
      ensures !(f in LiveSet(s) && f in s.reserved)
    {
      LiveFreeExclusive(s, f);
    }
    assert FreeSet(s) + LiveSet(s) + s.reserved == Range(0, s.nr);
    RangeSize(0, s.nr);
    FreeCountIsSize(s);
    assert |FreeSet(s) + LiveSet(s)| == |FreeSet(s)| + |LiveSet(s)|;
  }

  // ---------- runs ----------

  ghost predicate LegalRun(s: State, ops: seq<Op>)
    requires WF(s)
    decreases |ops|
  {
    ops == [] ||
    (Legal(s, ops[0]) && (StepWF(s, ops[0]); LegalRun(Step(s, ops[0]), ops[1..])))
  }

  ghost function Run(s: State, ops: seq<Op>): State
    requires WF(s) && LegalRun(s, ops)
    decreases |ops|
  {
    if ops == [] then s else (StepWF(s, ops[0]); Run(Step(s, ops[0]), ops[1..]))
  }

  lemma InitialWF(nr: nat)
    ensures WF(Initial(nr)) && Covered(Initial(nr)) && NoMergeable(Initial(nr)) && FreeCount(Initial(nr).lists) == 0
  {
    var s := Initial(nr);
    EmptyCount(s.lists);
    forall f: nat | f < nr ensures f in s.reserved { assert f in Range(0, nr); }
  }

  /** In every state of every run from `new`, each frame is free, live or reserved
      and only one of them, blocks are aligned, in range and disjoint, and the
      counts of free, live and reserved frames add up to `nr_frames`. */
  lemma {:induction false} RunInvariant(s: State, ops: seq<Op>)
    requires WF(s) && Covered(s) && LegalRun(s, ops)
    ensures var t := Run(s, ops);
      && WF(t) && Covered(t) && t.nr == s.nr
      && FreeCount(t.lists) + |LiveSet(t)| + |t.reserved| == s.nr
      && FreeSet(t) !! LiveSet(t) !! t.reserved
    decreases |ops|
  {
    if ops == [] {
      FramesAddUp(s);
    } else {
      StepWF(s, ops[0]);
      StepCovered(s, ops[0]);
      RunInvariant(Step(s, ops[0]), ops[1..]);
    }
  }

  /** A `free_range` of the run takes the frame. */
  predicate TakenIn(ops: seq<Op>, f: nat) {
    exists i :: 0 <= i < |ops| && ops[i].DoFreeRange? && Within(f, ops[i].start, ops[i].count)
  }

  /** A reserved frame that no `free_range` of the run takes is never free, never
      part of a block that `alloc` hands out, and reserved to the end. */
  lemma {:induction false} StaysReserved(s: State, ops: seq<Op>, f: nat)
    requires WF(s) && LegalRun(s, ops) && f in s.reserved && !TakenIn(ops, f)
    ensures var t := Run(s, ops); f in t.reserved && !FreeFrame(t, f) && !LiveFrame(t, f)
    decreases |ops|
  {
    if ops == [] {
      LiveFreeExclusive(s, f);
    } else {
      var op := ops[0];
      StepWF(s, op);
      StepRefines(s, op);
      assert f in Step(s, op).reserved by {
        if op.DoFreeRange? { assert !Within(f, op.start, op.count); }
      }
      forall i | 0 <= i < |ops[1..]| && ops[1..][i].DoFreeRange?
        ensures !Within(f, ops[1..][i].start, ops[1..][i].count)
      {
        assert ops[1..][i] == ops[i + 1];
      }
      StaysReserved(Step(s, op), ops[1..], f);
    }
  }

  /** Each `free_range` of the run stays clear of free blocks it would complete. */
  ghost predicate NeverCompletes(s: State, ops: seq<Op>)
    requires WF(s) && LegalRun(s, ops)
    decreases |ops|
  {
    ops == [] ||
    (StepWF(s, ops[0]);
     && (ops[0].DoFreeRange? ==>
           !MergesBelow(s, ops[0].start, ops[0].count) && !MergesAbove(s, ops[0].start, ops[0].count))
     && NeverCompletes(Step(s, ops[0]), ops[1..]))
  }

  /** Along such a run allocation stays complete: it fails only when no aligned
      free run of the size is left. */
  lemma {:induction false} RunStaysComplete(s: State, ops: seq<Op>, o: nat)
    requires WF(s) && NoMergeable(s) && LegalRun(s, ops) && NeverCompletes(s, ops) && o < MAX_ORDER
    ensures var t := Run(s, ops);
      && NoMergeable(t) && |t.lists| == MAX_ORDER
      && (Alloc(t, o).1.None? <==> !exists p: nat :: FreeRun(t, p, o))
    decreases |ops|
  {
    if ops == [] {
      AllocComplete(s, o);
    } else {
      StepWF(s, ops[0]);
      match ops[0] {
        case DoAlloc(k) => AllocKeepsNoMergeable(s, k);
        case DoFree(p) => FreeKeepsNoMergeable(s, p);
        case DoFreeRange(start, count) => FreeRangeKeepsNoMergeable(s, start, count);
      }
      RunStaysComplete(Step(s, ops[0]), ops[1..], o);
    }
  }

  // ---------- refinement ----------

  /** An allocator with no lists and no splitting: which frames are free, which
      blocks are out, which frames are reserved. */
  datatype FrameSets = FrameSets(free: set<nat>, live: map<nat, nat>, reserved: set<nat>)

  ghost function View(s: State): FrameSets {
    FrameSets(FreeSet(s), s.live, s.reserved)
  }

  ghost predicate SpecStep(a: FrameSets, op: Op, r: Option<nat>, a': FrameSets) {
    match op
    case DoAlloc(o) =>
      if r.None? then a' == a
      else
        && Aligned(r.value, o) && r.value !in a.live
        && Range(r.value, Pow2(o)) <= a.free
        && a' == a.(free := a.free - Range(r.value, Pow2(o)), live := a.live[r.value := o])
    case DoFree(p) =>
      p in a.live && a' == a.(free := a.free + Range(p, Pow2(a.live[p])), live := a.live - {p})
    case DoFreeRange(start, count) =>
      && Range(start, count) <= a.reserved
      && a' == a.(free := a.free + Range(start, count), reserved := a.reserved - Range(start, count))
  }

  ghost function ResultOf(s: State, op: Op): Option<nat>
    requires |s.lists| == MAX_ORDER
  {
    if op.DoAlloc? then Alloc(s, op.order).1 else None
  }

  /** Every operation of the buddy allocator is a step of the plain one. */
  lemma StepRefines(s: State, op: Op)
    requires WF(s) && Legal(s, op)
    ensures SpecStep(View(s), op, ResultOf(s, op), View(Step(s, op)))
  {
    match op {
      case DoAlloc(o) => if Alloc(s, o).1.Some? { AllocRefines(s, o); }
      case DoFree(p) => FreeRefines(s, p);
      case DoFreeRange(start, count) => FreeRangeRefines(s, start, count);
    }
  }

  lemma AllocRefines(s: State, o: nat)
    requires WF(s) && Alloc(s, o).1.Some?
    ensures SpecStep(View(s), DoAlloc(o), Alloc(s, o).1, View(Alloc(s, o).0))
  {
    var (t, r) := Alloc(s, o);
    var b := r.value;
    AllocWF(s, o);
    AllocCount(s, o);
    assert IsBlock(t, b, o);
    forall f: nat
      ensures f in FreeSet(t) <==> f in FreeSet(s) - Range(b, Pow2(o))
      ensures f in Range(b, Pow2(o)) ==> f in FreeSet(s)
    {
      AllocFrames(s, o, f);
      LiveFreeExclusive(s, f);
    }
    assert FreeSet(t) == FreeSet(s) - Range(b, Pow2(o));
  }

  lemma FreeRefines(s: State, p: nat)
    requires WF(s) && p in s.live
    ensures Holds(s, p) && SpecStep(View(s), DoFree(p), None, View(Free(s, p)))
  {
    FreeWF(s, p);
    MergeUpCount(s, p);
    var t, k := Free(s, p), s.live[p];
    assert IsBlock(s, p, k);
    forall f: nat
      ensures f in FreeSet(t) <==> f in FreeSet(s) + Range(p, Pow2(k))
    {
      MergeUpFrames(s, p, f);
    }
    assert FreeSet(t) == FreeSet(s) + Range(p, Pow2(k));
  }

  lemma FreeRangeRefines(s: State, start: nat, count: nat)
    requires WF(s) && AllReserved(s, start, count)
    ensures SpecStep(View(s), DoFreeRange(start, count), None, View(FreeRange(s, start, count)))
  {
    var t, r := FreeRange(s, start, count), Range(start, count);
    FreeRangeCount(s, start, count);
    forall f: nat
      ensures f in FreeSet(t) <==> f in FreeSet(s) + r
      ensures f in t.reserved <==> f in s.reserved - r
      ensures f in r ==> f in s.reserved
    {
      FreeRangeFrames(s, start, count, f);
    }
    assert FreeSet(t) == FreeSet(s) + r && t.reserved == s.reserved - r;
  }

  /** Two adjacent ranges freed one after the other: the run of two frames is
      free, and `alloc` does not find it. */
  lemma AdjacentRangesHideARun()
    ensures var s := FreeRange(FreeRange(Initial(2), 0, 1), 1, 1);
      |s.lists| == MAX_ORDER && FreeRun(s, 0, 1) && Alloc(s, 1).1.None?
  {
    var s0 := Initial(2);
    var s1 := FreeRange(s0, 0, 1);
    var s := FreeRange(s1, 1, 1);
    assert GreatestOrder(0, 1) == 0 && GreatestOrder(1, 1) == 0;
    assert s1 == Seed(s0, 0, 0);
    assert s == Seed(s1, 1, 0);
    assert s.lists[0] == [1, 0];
    forall f: nat | InBlock(f, 0, 1) ensures FreeFrame(s, f) {
      assert FreeBlock(s, f, 0) && InBlock(f, f, 0);
    }
    assert forall j :: 1 <= j < MAX_ORDER ==> s.lists[j] == [];
  }

  /** In that state the block `alloc` takes has a free buddy of its order, so
      freeing it merges the two and does not give the state back. */
  lemma FreeMergesMoreThanAllocSplit()
    ensures var s := FreeRange(FreeRange(Initial(2), 0, 1), 1, 1);
      |s.lists| == MAX_ORDER && Alloc(s, 0).1 == Some(1) && Holds(Alloc(s, 0).0, 1) && Free(Alloc(s, 0).0, 1) != s
  {
    var s1 := FreeRange(Initial(2), 0, 1);
    var s := FreeRange(s1, 1, 1);
    InitialWF(2);
    FreeRangeWF(Initial(2), 0, 1);
    FreeRangeFrames(Initial(2), 0, 1, 1);
    FreeRangeWF(s1, 1, 1);
    assert GreatestOrder(0, 1) == 0 && GreatestOrder(1, 1) == 0;
    assert s1 == Seed(Initial(2), 0, 0) && s == Seed(s1, 1, 0);
    assert s.lists[0] == [1, 0];
    assert FirstNonEmpty(s.lists, 0) == Some(0);
    assert Buddy(1, 0) == 0;
    FreeUndoesAlloc(s, 0);
  }
}
