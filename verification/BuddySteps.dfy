/** What one step of the allocator does: every step keeps the state well
    formed, and its effect on the free and live blocks is stated block by block
    and frame by frame. */
module BuddySteps {
  import opened Bits
  import opened Wrappers
  import opened BuddyModel

  lemma OneOrderPerHead(s: State, p: nat)
    requires WF(s)
    ensures forall j: nat, k: nat :: IsBlock(s, p, j) && IsBlock(s, p, k) ==> j == k
  {
  }

  // ---------- Take ----------

  lemma TakeBlocks(s: State, k: nat)
    requires WF(s) && k < MAX_ORDER && s.lists[k] != []
    ensures var b := s.lists[k][0]; var t := Take(s, k);
      && (forall q: nat, j: nat :: FreeBlock(t, q, j) <==> FreeBlock(s, q, j) && !(q == b && j == k))
      && (forall q: nat, j: nat :: LiveBlock(t, q, j) <==> LiveBlock(s, q, j) || (q == b && j == k))
      && FreeBlock(s, b, k)
  {
    var b := s.lists[k][0];
    var l := s.lists[k];
    assert l == [b] + l[1..];
    assert NoDup(l);
    assert b !in l[1..];
    assert FreeBlock(s, b, k);
  }

  lemma TakeWF(s: State, k: nat)
    requires WF(s) && k < MAX_ORDER && s.lists[k] != []
    ensures WF(Take(s, k)) && Holds(Take(s, k), s.lists[k][0])
  {
    TakeBlocks(s, k);
    OneOrderPerHead(s, s.lists[k][0]);
    var t := Take(s, k);
    assert forall q: nat, j: nat :: IsBlock(t, q, j) <==> IsBlock(s, q, j);
    forall q: nat, j: nat | FreeBlock(t, q, j)
      ensures q !in t.live
    {
      assert FreeBlock(s, q, j) && IsBlock(s, q, j) && IsBlock(s, s.lists[k][0], k);
    }
  }

  // ---------- Give ----------

  lemma GiveBlocks(s: State, p: nat)
    requires WF(s) && p in s.live
    ensures Holds(s, p)
    ensures var k := s.live[p]; var t := Give(s, p);
      && (forall q: nat, j: nat :: FreeBlock(t, q, j) <==> FreeBlock(s, q, j) || (q == p && j == k))
      && (forall q: nat, j: nat :: LiveBlock(t, q, j) <==> LiveBlock(s, q, j) && !(q == p && j == k))
  {
    assert IsBlock(s, p, s.live[p]);
  }

  lemma GiveWF(s: State, p: nat)
    requires WF(s) && p in s.live
    ensures Holds(s, p) && WF(Give(s, p))
  {
    GiveBlocks(s, p);
    var t := Give(s, p);
    assert forall q: nat, j: nat :: IsBlock(t, q, j) <==> IsBlock(s, q, j);
    assert !FreeBlock(s, p, s.live[p]);
  }

  // ---------- SplitStep ----------

  lemma SplitBlocks(s: State, b: nat)
    requires WF(s) && b in s.live && s.live[b] > 0
    ensures Holds(s, b)
    ensures var k := s.live[b] - 1; var t := SplitStep(s, b);
      && (forall q: nat, j: nat :: FreeBlock(t, q, j) <==> FreeBlock(s, q, j) || (q == b + Pow2(k) && j == k))
      && (forall q: nat, j: nat :: LiveBlock(t, q, j) <==> (LiveBlock(s, q, j) && q != b) || (q == b && j == k))
      && (forall f :: InBlock(f, b, k + 1) <==> InBlock(f, b, k) || InBlock(f, b + Pow2(k), k))
  {
    assert IsBlock(s, b, s.live[b]);
  }

  lemma SplitWF(s: State, b: nat)
    requires WF(s) && b in s.live && s.live[b] > 0
    ensures Holds(s, b) && WF(SplitStep(s, b)) && Holds(SplitStep(s, b), b)
  {
    SplitBlocks(s, b);
    var t, k := SplitStep(s, b), s.live[b] - 1;
    assert LiveBlock(s, b, k + 1) && IsBlock(s, b, k + 1);
    AlignedHalf(b, k + 1);
    var u := b + Pow2(k);
    forall q: nat, j: nat | IsBlock(s, q, j) && q != b
      ensures Disjoint(q, j, b, k) && Disjoint(q, j, u, k) && q != u
    {
      assert Disjoint(q, j, b, k + 1);
    }
    assert !FreeBlock(s, u, k) by { assert FreeBlock(s, u, k) ==> IsBlock(s, u, k); }
    assert u in s.live ==> IsBlock(s, u, s.live[u]);
    forall q: nat, j: nat | IsBlock(t, q, j)
      ensures (q == b && j == k) || (q == u && j == k) || (IsBlock(s, q, j) && q != b)
    {
      assert !FreeBlock(s, b, j);
    }
    assert NoDup([u] + s.lists[k]);
  }

  // ---------- MergeStep ----------

  lemma MergeBlocks(s: State, p: nat)
    requires WF(s) && Holds(s, p) && CanMerge(s, p)
    ensures var k := s.live[p]; var q := Buddy(p, k); var h := MergedHead(s, p); var t := MergeStep(s, p);
      && (forall x: nat, j: nat :: FreeBlock(t, x, j) <==> FreeBlock(s, x, j) && !(x == q && j == k))
      && (forall x: nat, j: nat :: LiveBlock(t, x, j) <==> (LiveBlock(s, x, j) && x != p) || (x == h && j == k + 1))
      && (forall f :: InBlock(f, h, k + 1) <==> InBlock(f, p, k) || InBlock(f, q, k))
      && FreeBlock(s, q, k) && q != p && (h == p || h == q) && BlockOk(t, h, k + 1)
  {
    var k := s.live[p];
    var q := Buddy(p, k);
    assert LiveBlock(s, p, k) && IsBlock(s, p, k);
    assert FreeBlock(s, q, k) && IsBlock(s, q, k);
    assert q !in s.live;
    BuddyFacts(p, k);
    RemoveMembers(s.lists[k], q);
  }

  lemma MergeWF(s: State, p: nat)
    requires WF(s) && Holds(s, p) && CanMerge(s, p)
    ensures WF(MergeStep(s, p)) && Holds(MergeStep(s, p), MergedHead(s, p))
  {
    MergeBlocks(s, p);
    var k := s.live[p];
    var q, h, t := Buddy(p, k), MergedHead(s, p), MergeStep(s, p);
    assert LiveBlock(s, p, k) && IsBlock(s, p, k) && IsBlock(s, q, k);
    BuddyFacts(p, k);
    OneOrderPerHead(s, q);
    RemoveMembers(s.lists[k], q);
    forall x: nat, j: nat | IsBlock(s, x, j) && x != p && x != q
      ensures Disjoint(x, j, h, k + 1)
    {
      assert Disjoint(x, j, p, k) && Disjoint(x, j, q, k);
    }
    forall x: nat, j: nat | IsBlock(t, x, j)
      ensures (x == h && j == k + 1) || (IsBlock(s, x, j) && x != p && x != q)
    {
      assert !FreeBlock(s, p, j);
      assert FreeBlock(s, q, j) ==> IsBlock(s, q, j);
    }
    forall x: nat, j: nat | FreeBlock(t, x, j)
      ensures x !in t.live
    {
      assert FreeBlock(s, x, j) && IsBlock(s, x, j);
    }
    forall x: nat, j: nat, f: nat | IsBlock(t, x, j) && f in t.reserved
      ensures !InBlock(f, x, j)
    {
      if x == h && j == k + 1 { assert !InBlock(f, p, k) && !InBlock(f, q, k); }
    }
  }

  // ---------- Seed ----------

  ghost predicate AllReserved(s: State, p: nat, count: nat) {
    forall f: nat :: p <= f < p + count ==> f in s.reserved
  }

  lemma SeedBlocks(s: State, p: nat, k: nat)
    requires |s.lists| == MAX_ORDER && k < MAX_ORDER
    ensures var t := Seed(s, p, k);
      && (forall q: nat, j: nat :: FreeBlock(t, q, j) <==> FreeBlock(s, q, j) || (q == p && j == k))
      && (forall q: nat, j: nat :: LiveBlock(t, q, j) <==> LiveBlock(s, q, j))
      && (forall f: nat :: f in t.reserved <==> f in s.reserved && !InBlock(f, p, k))
  {
  }

  lemma SeedWF(s: State, p: nat, k: nat)
    requires WF(s) && k < MAX_ORDER && Aligned(p, k) && AllReserved(s, p, Pow2(k))
    ensures WF(Seed(s, p, k))
  {
    SeedBlocks(s, p, k);
    var t := Seed(s, p, k);
    var last := p + Pow2(k) - 1;
    assert p in s.reserved && last in s.reserved;
    forall q: nat, j: nat | IsBlock(s, q, j)
      ensures Disjoint(q, j, p, k)
    {
      if !Disjoint(q, j, p, k) {
        var f := if q < p then p else q;
        assert InBlock(f, q, j) && f in s.reserved;
      }
    }
    assert p in s.lists[k] ==> IsBlock(s, p, k);
    assert p in s.live ==> IsBlock(s, p, s.live[p]);
    assert NoDup([p] + s.lists[k]);
    assert forall q: nat, j: nat :: IsBlock(t, q, j) <==> IsBlock(s, q, j) || (q == p && j == k);
  }

  // ---------- whole operations keep WF ----------

  lemma {:induction false} SplitDownWF(s: State, b: nat, o: nat)
    requires WF(s) && Holds(s, b) && o <= s.live[b]
    ensures WF(SplitDown(s, b, o)) && LiveBlock(SplitDown(s, b, o), b, o)
    decreases s.live[b]
  {
    if s.live[b] > o {
      SplitWF(s, b);
      SplitDownWF(SplitStep(s, b), b, o);
    }
  }

  lemma {:induction false} MergeUpWF(s: State, p: nat)
    requires WF(s) && Holds(s, p)
    ensures WF(MergeUp(s, p))
    decreases MAX_ORDER - s.live[p]
  {
    if CanMerge(s, p) {
      MergeWF(s, p);
      MergeUpWF(MergeStep(s, p), MergedHead(s, p));
    } else {
      GiveWF(s, p);
    }
  }

  lemma AllocWF(s: State, o: nat)
    requires WF(s)
    ensures WF(Alloc(s, o).0)
    ensures var (t, r) := Alloc(s, o); r.Some? ==> o < MAX_ORDER && LiveBlock(t, r.value, o)
  {
    var r := FirstNonEmpty(s.lists, o);
    if r.Some? {
      TakeWF(s, r.value);
      SplitDownWF(Take(s, r.value), s.lists[r.value][0], o);
    }
  }

  lemma FreeWF(s: State, p: nat)
    requires WF(s) && p in s.live
    ensures Holds(s, p) && WF(Free(s, p))
  {
    GiveWF(s, p);
    MergeUpWF(s, p);
  }

  lemma {:induction false} FreeRangeWF(s: State, start: nat, count: nat)
    requires WF(s) && AllReserved(s, start, count)
    ensures WF(FreeRange(s, start, count))
    decreases count
  {
    if count > 0 {
      var o := GreatestOrder(start, count);
      SeedWF(s, start, o);
      FreeRangeWF(Seed(s, start, o), start + Pow2(o), count - Pow2(o));
    }
  }
}
