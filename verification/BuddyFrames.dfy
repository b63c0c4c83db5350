/** The allocator seen frame by frame: which frames each operation moves
    between free, live and reserved, and how many. */
module BuddyFrames {
  import opened Bits
  import opened Wrappers
  import opened BuddyModel
  import opened BuddySteps

  // ---------- single steps ----------

  lemma TakeFrames(s: State, k: nat, f: nat)
    requires WF(s) && k < MAX_ORDER && s.lists[k] != []
    ensures var b := s.lists[k][0]; var t := Take(s, k);
      && (FreeFrame(t, f) <==> FreeFrame(s, f) && !InBlock(f, b, k))
      && (LiveFrame(t, f) <==> LiveFrame(s, f) || InBlock(f, b, k))
      && (InBlock(f, b, k) ==> FreeFrame(s, f))
  {
    var b, t := s.lists[k][0], Take(s, k);
    TakeBlocks(s, k);
    assert IsBlock(s, b, k);
    if FreeFrame(t, f) {
      var q: nat, j: nat :| FreeBlock(t, q, j) && InBlock(f, q, j);
      assert FreeBlock(s, q, j) && IsBlock(s, q, j);
    }
    if FreeFrame(s, f) && !InBlock(f, b, k) {
      var q: nat, j: nat :| FreeBlock(s, q, j) && InBlock(f, q, j);
      assert FreeBlock(t, q, j);
    }
    if LiveFrame(t, f) && !InBlock(f, b, k) {
      var q: nat, j: nat :| LiveBlock(t, q, j) && InBlock(f, q, j);
      assert LiveBlock(s, q, j);
    }
    if LiveFrame(s, f) {
      var q: nat, j: nat :| LiveBlock(s, q, j) && InBlock(f, q, j);
      assert LiveBlock(t, q, j);
    }
    assert LiveBlock(t, b, k);
  }

  lemma GiveFrames(s: State, p: nat, f: nat)
    requires WF(s) && Holds(s, p)
    ensures var k := s.live[p]; var t := Give(s, p);
      && (FreeFrame(t, f) <==> FreeFrame(s, f) || InBlock(f, p, k))
      && (LiveFrame(t, f) <==> LiveFrame(s, f) && !InBlock(f, p, k))
  {
    var k, t := s.live[p], Give(s, p);
    GiveBlocks(s, p);
    assert LiveBlock(s, p, k) && IsBlock(s, p, k) && FreeBlock(t, p, k);
    if FreeFrame(t, f) && !InBlock(f, p, k) {
      var q: nat, j: nat :| FreeBlock(t, q, j) && InBlock(f, q, j);
      assert FreeBlock(s, q, j);
    }
    if FreeFrame(s, f) {
      var q: nat, j: nat :| FreeBlock(s, q, j) && InBlock(f, q, j);
      assert FreeBlock(t, q, j);
    }
    if LiveFrame(t, f) {
      var q: nat, j: nat :| LiveBlock(t, q, j) && InBlock(f, q, j);
      assert LiveBlock(s, q, j) && IsBlock(s, q, j);
    }
    if LiveFrame(s, f) && !InBlock(f, p, k) {
      var q: nat, j: nat :| LiveBlock(s, q, j) && InBlock(f, q, j);
      assert LiveBlock(t, q, j);
    }
  }

  lemma SplitFrames(s: State, b: nat, f: nat)
    requires WF(s) && Holds(s, b) && s.live[b] > 0
    ensures var k := s.live[b] - 1; var t := SplitStep(s, b);
      && (FreeFrame(t, f) <==> FreeFrame(s, f) || InBlock(f, b + Pow2(k), k))
      && (LiveFrame(t, f) <==> LiveFrame(s, f) && !InBlock(f, b + Pow2(k), k))
  {
    var k, t := s.live[b] - 1, SplitStep(s, b);
    var u := b + Pow2(k);
    SplitBlocks(s, b);
    assert LiveBlock(s, b, k + 1) && IsBlock(s, b, k + 1) && FreeBlock(t, u, k) && LiveBlock(t, b, k);
    if FreeFrame(t, f) && !InBlock(f, u, k) {
      var q: nat, j: nat :| FreeBlock(t, q, j) && InBlock(f, q, j);
      assert FreeBlock(s, q, j);
    }
    if FreeFrame(s, f) {
      var q: nat, j: nat :| FreeBlock(s, q, j) && InBlock(f, q, j);
      assert FreeBlock(t, q, j);
    }
    if LiveFrame(t, f) {
      var q: nat, j: nat :| LiveBlock(t, q, j) && InBlock(f, q, j);
      if q != b { assert LiveBlock(s, q, j) && IsBlock(s, q, j); }
    }
    if LiveFrame(s, f) && !InBlock(f, u, k) {
      var q: nat, j: nat :| LiveBlock(s, q, j) && InBlock(f, q, j);
      if q != b { assert LiveBlock(t, q, j); }
    }
  }

  lemma MergeFrames(s: State, p: nat, f: nat)
    requires WF(s) && Holds(s, p) && CanMerge(s, p)
    ensures var k := s.live[p]; var q := Buddy(p, k); var t := MergeStep(s, p);
      && (FreeFrame(t, f) <==> FreeFrame(s, f) && !InBlock(f, q, k))
      && (LiveFrame(t, f) <==> LiveFrame(s, f) || InBlock(f, q, k))
      && (InBlock(f, q, k) ==> FreeFrame(s, f))
  {
    var k, t := s.live[p], MergeStep(s, p);
    var q, h := Buddy(p, k), MergedHead(s, p);
    MergeBlocks(s, p);
    assert LiveBlock(s, p, k) && IsBlock(s, q, k) && LiveBlock(t, h, k + 1);
    if FreeFrame(t, f) {
      var x: nat, j: nat :| FreeBlock(t, x, j) && InBlock(f, x, j);
      assert FreeBlock(s, x, j) && IsBlock(s, x, j);
    }
    if FreeFrame(s, f) && !InBlock(f, q, k) {
      var x: nat, j: nat :| FreeBlock(s, x, j) && InBlock(f, x, j);
      assert FreeBlock(t, x, j);
    }
    if LiveFrame(t, f) && !InBlock(f, q, k) {
      var x: nat, j: nat :| LiveBlock(t, x, j) && InBlock(f, x, j);
      assert LiveBlock(s, x, j) || InBlock(f, p, k);
    }
    if LiveFrame(s, f) {
      var x: nat, j: nat :| LiveBlock(s, x, j) && InBlock(f, x, j);
      assert LiveBlock(t, x, j) || InBlock(f, h, k + 1);
    }
    assert InBlock(f, q, k) ==> InBlock(f, h, k + 1);
  }

  lemma SeedFrames(s: State, p: nat, k: nat, f: nat)
    requires |s.lists| == MAX_ORDER && k < MAX_ORDER
    ensures var t := Seed(s, p, k);
      && (FreeFrame(t, f) <==> FreeFrame(s, f) || InBlock(f, p, k))
      && (LiveFrame(t, f) <==> LiveFrame(s, f))
  {
  }

  // ---------- whole operations ----------

  lemma {:induction false} SplitDownFrames(s: State, b: nat, o: nat, f: nat)
    requires WF(s) && Holds(s, b) && o <= s.live[b]
    ensures var k := s.live[b]; var t := SplitDown(s, b, o);
      && (FreeFrame(t, f) <==> FreeFrame(s, f) || (InBlock(f, b, k) && !InBlock(f, b, o)))
      && (LiveFrame(t, f) <==> LiveFrame(s, f) && (InBlock(f, b, k) ==> InBlock(f, b, o)))
    decreases s.live[b]
  {
    if s.live[b] > o {
      var k, t := s.live[b] - 1, SplitStep(s, b);
      SplitWF(s, b);
      SplitFrames(s, b, f);
      SplitDownFrames(t, b, o, f);
      Pow2Mono(o, k);
    }
  }

  lemma {:induction false} SplitDownCount(s: State, b: nat, o: nat)
    requires Holds(s, b) && o <= s.live[b]
    ensures var t := SplitDown(s, b, o);
      && t.reserved == s.reserved && t.nr == s.nr && t.live == s.live[b := o]
      && FreeCount(t.lists) == FreeCount(s.lists) + Pow2(s.live[b]) - Pow2(o)
    decreases s.live[b]
  {
    if s.live[b] > o {
      var k, t := s.live[b] - 1, SplitStep(s, b);
      SplitDownCount(t, b, o);
      FreeCountPush(s.lists, k, b + Pow2(k));
      assert t.live[b := o] == s.live[b := o];
      assert Pow2(s.live[b]) == 2 * Pow2(k);
    }
  }

  /** `alloc` takes exactly the 2^o frames of the block it returns, all of them
      free before, out of the free frames. */
  lemma AllocFrames(s: State, o: nat, f: nat)
    requires WF(s) && Alloc(s, o).1.Some?
    ensures var (t, r) := Alloc(s, o);
      && (FreeFrame(t, f) <==> FreeFrame(s, f) && !InBlock(f, r.value, o))
      && (LiveFrame(t, f) <==> LiveFrame(s, f) || InBlock(f, r.value, o))
      && (InBlock(f, r.value, o) ==> FreeFrame(s, f))
  {
    var k := FirstNonEmpty(s.lists, o).value;
    var b := s.lists[k][0];
    TakeWF(s, k);
    TakeFrames(s, k, f);
    SplitDownFrames(Take(s, k), b, o, f);
    Pow2Mono(o, k);
    LiveFreeExclusive(s, f);
  }

  lemma AllocCount(s: State, o: nat)
    requires WF(s) && Alloc(s, o).1.Some?
    ensures var (t, r) := Alloc(s, o);
      && t.reserved == s.reserved && t.nr == s.nr && t.live == s.live[r.value := o]
      && r.value !in s.live
      && FreeCount(t.lists) == FreeCount(s.lists) - Pow2(o)
  {
    var k := FirstNonEmpty(s.lists, o).value;
    var b, u := s.lists[k][0], Take(s, k);
    assert b !in s.live by { assert FreeBlock(s, b, k); }
    assert u.live[b := o] == s.live[b := o];
    FreeCountDrop(s.lists, k, s.lists[k][1..]);
    SplitDownCount(u, b, o);
  }

  lemma LiveFreeExclusive(s: State, f: nat)
    requires WF(s)
    ensures !(FreeFrame(s, f) && LiveFrame(s, f))
    ensures f in s.reserved ==> !FreeFrame(s, f) && !LiveFrame(s, f)
    ensures FreeFrame(s, f) || LiveFrame(s, f) ==> f < s.nr
  {
    if FreeFrame(s, f) {
      var p: nat, k: nat :| FreeBlock(s, p, k) && InBlock(f, p, k);
      assert IsBlock(s, p, k);
      if LiveFrame(s, f) {
        var q: nat, j: nat :| LiveBlock(s, q, j) && InBlock(f, q, j);
        assert IsBlock(s, q, j);
        assert false;
      }
    }
    if LiveFrame(s, f) {
      var q: nat, j: nat :| LiveBlock(s, q, j) && InBlock(f, q, j);
      assert IsBlock(s, q, j);
    }
  }

  /** `free` returns exactly the frames of the block to the free frames, however
      far it coalesces. */
  lemma {:induction false} MergeUpFrames(s: State, p: nat, f: nat)
    requires WF(s) && Holds(s, p)
    ensures var k := s.live[p]; var t := MergeUp(s, p);
      && (FreeFrame(t, f) <==> FreeFrame(s, f) || InBlock(f, p, k))
      && (LiveFrame(t, f) <==> LiveFrame(s, f) && !InBlock(f, p, k))
    decreases MAX_ORDER - s.live[p]
  {
    var k := s.live[p];
    if CanMerge(s, p) {
      var t, h := MergeStep(s, p), MergedHead(s, p);
      MergeWF(s, p);
      MergeBlocks(s, p);
      MergeFrames(s, p, f);
      MergeUpFrames(t, h, f);
      LiveFreeExclusive(s, f);
    } else {
      GiveFrames(s, p, f);
    }
  }

  lemma {:induction false} MergeUpCount(s: State, p: nat)
    requires WF(s) && Holds(s, p)
    ensures var t := MergeUp(s, p);
      && t.reserved == s.reserved && t.nr == s.nr && t.live == s.live - {p}
      && FreeCount(t.lists) == FreeCount(s.lists) + Pow2(s.live[p])
    decreases MAX_ORDER - s.live[p]
  {
    var k := s.live[p];
    if CanMerge(s, p) {
      var q, h, t := Buddy(p, k), MergedHead(s, p), MergeStep(s, p);
      MergeWF(s, p);
      MergeBlocks(s, p);
      MergeUpCount(t, h);
      RemoveMembers(s.lists[k], q);
      FreeCountDrop(s.lists, k, Remove(s.lists[k], q));
      assert q !in s.live;
      assert t.live - {h} == s.live - {p};
    } else {
      FreeCountPush(s.lists, k, p);
    }
  }

  /** `free_range` turns exactly the given reserved frames into free ones. */
  lemma {:induction false} FreeRangeFrames(s: State, start: nat, count: nat, f: nat)
    requires |s.lists| == MAX_ORDER
    ensures var t := FreeRange(s, start, count);
      && (f in t.reserved <==> f in s.reserved && !(start <= f < start + count))
      && (FreeFrame(t, f) <==> FreeFrame(s, f) || start <= f < start + count)
      && (LiveFrame(t, f) <==> LiveFrame(s, f))
    decreases count
  {
    if count > 0 {
      var o := GreatestOrder(start, count);
      SeedFrames(s, start, o, f);
      FreeRangeFrames(Seed(s, start, o), start + Pow2(o), count - Pow2(o), f);
    }
  }

  /** `free_range` counts each frame of the range once. */
  lemma {:induction false} FreeRangeCount(s: State, start: nat, count: nat)
    requires |s.lists| == MAX_ORDER
    ensures var t := FreeRange(s, start, count);
      && t.nr == s.nr && t.live == s.live && |t.lists| == MAX_ORDER
      && FreeCount(t.lists) == FreeCount(s.lists) + count
    decreases count
  {
    if count > 0 {
      var o := GreatestOrder(start, count);
      FreeCountPush(s.lists, o, start);
      FreeRangeCount(Seed(s, start, o), start + Pow2(o), count - Pow2(o));
    }
  }
}
