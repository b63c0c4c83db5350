/** What the allocator's operations promise together: no mergeable pair of free
    buddies is ever left behind, allocation finds every usable run, and `free`
    undoes `alloc`. */
module BuddyTheorems {
  import opened Bits
  import opened Wrappers
  import opened BuddyModel
  import opened BuddySteps
  import opened BuddyFrames

  // ---------- no mergeable pair ----------

  lemma GiveKeepsNoMergeable(s: State, p: nat)
    requires WF(s) && Holds(s, p) && NoMergeable(s) && !CanMerge(s, p)
    ensures NoMergeable(Give(s, p))
  {
    var k, t := s.live[p], Give(s, p);
    GiveBlocks(s, p);
    GiveWF(s, p);
    assert IsBlock(s, p, k);
    forall q: nat, j: nat | FreeBlock(t, q, j) && j < MAX_ORDER - 1
      ensures !FreeBlock(t, Buddy(q, j), j)
    {
      assert IsBlock(t, q, j);
      BuddyFacts(q, j);
      if FreeBlock(t, Buddy(q, j), j) {
        assert IsBlock(t, Buddy(q, j), j);
        assert false;
      }
    }
  }

  lemma {:induction false} MergeUpKeepsNoMergeable(s: State, p: nat)
    requires WF(s) && Holds(s, p) && NoMergeable(s)
    ensures NoMergeable(MergeUp(s, p))
    decreases MAX_ORDER - s.live[p]
  {
    if CanMerge(s, p) {
      MergeBlocks(s, p);
      MergeWF(s, p);
      MergeUpKeepsNoMergeable(MergeStep(s, p), MergedHead(s, p));
    } else {
      GiveKeepsNoMergeable(s, p);
    }
  }

  lemma {:induction false} SplitDownKeepsNoMergeable(s: State, b: nat, o: nat)
    requires WF(s) && Holds(s, b) && NoMergeable(s) && o <= s.live[b]
    ensures NoMergeable(SplitDown(s, b, o))
    decreases s.live[b]
  {
    if s.live[b] > o {
      var k, t := s.live[b] - 1, SplitStep(s, b);
      SplitBlocks(s, b);
      SplitWF(s, b);
      assert IsBlock(s, b, k + 1);
      AlignedHalf(b, k + 1);
      BuddyFacts(b, k);
      forall q: nat, j: nat | FreeBlock(t, q, j) && j < MAX_ORDER - 1
        ensures !FreeBlock(t, Buddy(q, j), j)
      {
        assert IsBlock(t, q, j);
        BuddyFacts(q, j);
        assert !FreeBlock(t, b, k);
      }
      SplitDownKeepsNoMergeable(t, b, o);
    }
  }

  lemma AllocKeepsNoMergeable(s: State, o: nat)
    requires WF(s) && NoMergeable(s)
    ensures NoMergeable(Alloc(s, o).0)
  {
    var r := FirstNonEmpty(s.lists, o);
    if r.Some? {
      TakeBlocks(s, r.value);
      TakeWF(s, r.value);
      SplitDownKeepsNoMergeable(Take(s, r.value), s.lists[r.value][0], o);
    }
  }

  lemma FreeKeepsNoMergeable(s: State, p: nat)
    requires WF(s) && p in s.live && NoMergeable(s)
    ensures Holds(s, p) && NoMergeable(Free(s, p))
  {
    GiveWF(s, p);
    MergeUpKeepsNoMergeable(s, p);
  }

  // ---------- completeness ----------

  /** A 2^o-aligned run of 2^o frames, every one of them free. */
  ghost predicate FreeRun(s: State, p: nat, o: nat) {
    Aligned(p, o) && forall f: nat :: InBlock(f, p, o) ==> FreeFrame(s, f)
  }

  /** A free run lies inside one free block, unless two free buddies wait to be merged. */
  lemma {:induction false} RunInOneBlock(s: State, p: nat, o: nat) returns (q: nat, k: nat)
    requires WF(s) && NoMergeable(s) && o < MAX_ORDER && FreeRun(s, p, o)
    ensures FreeBlock(s, q, k) && o <= k && q <= p && p + Pow2(o) <= q + Pow2(k)
    decreases o
  {
    if o == 0 {
      assert InBlock(p, p, 0);
      q, k :| FreeBlock(s, q, k) && InBlock(p, q, k);
    } else {
      var h := Pow2(o - 1);
      AlignedHalf(p, o);
      assert FreeRun(s, p, o - 1) && FreeRun(s, p + h, o - 1) by {
        assert forall f: nat :: InBlock(f, p, o - 1) || InBlock(f, p + h, o - 1) ==> InBlock(f, p, o);
      }
      q, k := RunInOneBlock(s, p, o - 1);
      assert IsBlock(s, q, k);
      if k == o - 1 {
        var q', k' := RunInOneBlock(s, p + h, o - 1);
        assert IsBlock(s, q', k');
        BuddyFacts(p, o - 1);
        assert k' >= o;
        NestedOrDisjoint(p, o, q', k');
        q, k := q', k';
      } else {
        NestedOrDisjoint(p, o, q, k);
      }
    }
  }

  /** `alloc` fails only when there is nothing to find. */
  lemma AllocComplete(s: State, o: nat)
    requires WF(s) && NoMergeable(s) && o < MAX_ORDER
    ensures Alloc(s, o).1.None? <==> !exists p: nat :: FreeRun(s, p, o)
  {
    var r := FirstNonEmpty(s.lists, o);
    if r.Some? {
      var k := r.value;
      var b := s.lists[k][0];
      assert FreeBlock(s, b, k) && IsBlock(s, b, k);
      AlignedDown(b, o, k);
      Pow2Mono(o, k);
      assert FreeRun(s, b, o);
    } else {
      forall p: nat | FreeRun(s, p, o)
        ensures false
      {
        var q, k := RunInOneBlock(s, p, o);
      }
    }
  }

  // ---------- free undoes alloc ----------

  lemma {:induction false} MergeUpUndoesSplit(s: State, b: nat, o: nat)
    requires WF(s) && Holds(s, b) && o <= s.live[b]
    ensures var t := SplitDown(s, b, o); Holds(t, b) && MergeUp(t, b) == MergeUp(s, b)
    decreases s.live[b]
  {
    if s.live[b] > o {
      var t := SplitStep(s, b);
      SplitWF(s, b);
      MergeUpUndoesSplit(t, b, o);
      MergeUndoesSplit(s, b);
    }
  }

  lemma MergeUndoesSplit(s: State, b: nat)
    requires WF(s) && Holds(s, b) && s.live[b] > 0
    ensures var t := SplitStep(s, b); Holds(t, b) && CanMerge(t, b) && MergedHead(t, b) == b && MergeStep(t, b) == s
  {
    var k, t := s.live[b] - 1, SplitStep(s, b);
    SplitWF(s, b);
    assert IsBlock(s, b, k + 1);
    AlignedHalf(b, k + 1);
    BuddyFacts(b, k);
    assert Buddy(b, k) == b + Pow2(k);
    assert Remove([b + Pow2(k)] + s.lists[k], b + Pow2(k)) == s.lists[k];
    assert MergeStep(t, b).live == s.live;
    assert MergeStep(t, b).lists == s.lists;
  }

  lemma {:induction false} MergeUpKeepsLowerLists(s: State, p: nat, i: nat)
    requires Holds(s, p) && i < s.live[p]
    ensures var t := MergeUp(s, p); |t.lists| == MAX_ORDER && t.lists[i] == s.lists[i]
    decreases MAX_ORDER - s.live[p]
  {
    if CanMerge(s, p) {
      MergeUpKeepsLowerLists(MergeStep(s, p), MergedHead(s, p), i);
    }
  }

  lemma GiveUndoesTake(s: State, k: nat)
    requires WF(s) && k < MAX_ORDER && s.lists[k] != []
    ensures Give(Take(s, k), s.lists[k][0]) == s
  {
    var b := s.lists[k][0];
    assert FreeBlock(s, b, k);
    assert [b] + s.lists[k][1..] == s.lists[k];
  }

  lemma MergeLosesABlock(s: State, p: nat)
    requires WF(s) && Holds(s, p) && CanMerge(s, p)
    ensures var k := s.live[p]; var t := MergeUp(s, p); |t.lists| == MAX_ORDER && |t.lists[k]| < |s.lists[k]|
  {
    var k := s.live[p];
    RemoveMembers(s.lists[k], Buddy(p, k));
    MergeUpKeepsLowerLists(MergeStep(s, p), MergedHead(s, p), k);
  }

  lemma CanMergeIffBuddyFree(s: State, k: nat)
    requires WF(s) && k < MAX_ORDER && s.lists[k] != []
    ensures var b := s.lists[k][0];
      CanMerge(Take(s, k), b) <==> k < MAX_ORDER - 1 && FreeBlock(s, Buddy(b, k), k)
  {
    var b := s.lists[k][0];
    var q := Buddy(b, k);
    TakeBlocks(s, k);
    assert IsBlock(s, b, k);
    BuddyFacts(b, k);
    assert FreeBlock(Take(s, k), q, k) <==> FreeBlock(s, q, k);
    assert FreeBlock(s, q, k) ==> IsBlock(s, q, k);
  }

  /** Freeing a block right after allocating it restores every list as the same
      sequence, the live blocks and the reserved frames, exactly when the block
      the allocation split did not itself have a free buddy of its order. */
  lemma FreeUndoesAlloc(s: State, o: nat)
    requires WF(s) && Alloc(s, o).1.Some?
    ensures var k := FirstNonEmpty(s.lists, o).value; var (t, r) := Alloc(s, o);
      && Holds(t, r.value)
      && (Free(t, r.value) == s <==> !(k < MAX_ORDER - 1 && FreeBlock(s, Buddy(s.lists[k][0], k), k)))
  {
    var k := FirstNonEmpty(s.lists, o).value;
    var b, u := s.lists[k][0], Take(s, k);
    TakeWF(s, k);
    MergeUpUndoesSplit(u, b, o);
    CanMergeIffBuddyFree(s, k);
    if CanMerge(u, b) {
      MergeLosesABlock(u, b);
    } else {
      GiveUndoesTake(s, k);
    }
  }

  lemma FreeUndoesAllocWhenMerged(s: State, o: nat)
    requires WF(s) && NoMergeable(s) && Alloc(s, o).1.Some?
    ensures var (t, r) := Alloc(s, o); Holds(t, r.value) && Free(t, r.value) == s
  {
    FreeUndoesAlloc(s, o);
    var k := FirstNonEmpty(s.lists, o).value;
    assert FreeBlock(s, s.lists[k][0], k);
  }
}
