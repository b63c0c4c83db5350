/** The slab allocator on values: the free objects of each class, the objects
    handed out, the pages carved, and the large runs, over a buddy allocator. */
module SlabModel {
  import opened Wrappers
  import opened SlabLayout

  /** `free[i]` is the free list of class i, front first; `live` maps an object
      handed out to its class, `pages` a carved frame to its class, and `large`
      the first frame of a page run to its order. Addresses count from `base`,
      where the linear map has the start of DRAM. */
  datatype Slab = Slab(base: nat, free: seq<seq<nat>>, live: map<nat, nat>, pages: map<nat, nat>, large: map<nat, nat>)

  predicate IsSlot(s: Slab, a: nat, i: nat, p: nat, k: nat) {
    i < NR_CLASSES && p in s.pages && s.pages[p] == i && k < PerPage(i) && a == SlotAddr(s.base, p, i, k)
  }

  /** Address a is an object of class i in a page carved for it. */
  ghost predicate Carved(s: Slab, a: nat, i: nat) {
    exists p: nat, k: nat :: IsSlot(s, a, i, p, k)
  }

  predicate FreeObj(s: Slab, a: nat, i: nat) {
    i < |s.free| && a in s.free[i]
  }

  predicate LiveObj(s: Slab, a: nat, i: nat) {
    a in s.live && s.live[a] == i
  }

  function LiveOf(s: Slab, i: nat): set<nat> { set a | a in s.live && s.live[a] == i }
  function PagesOf(s: Slab, i: nat): set<nat> { set p | p in s.pages && s.pages[p] == i }

  /** Per class, free and live objects together are those of the pages carved. */
  predicate Conserved(s: Slab, i: nat)
    requires i < NR_CLASSES && |s.free| == NR_CLASSES
  {
    |s.free[i]| + |LiveOf(s, i)| == |PagesOf(s, i)| * PerPage(i)
  }

  /** Every carved object is on the free list of its class or live, never both;
      lists and live objects hold nothing else, and no list repeats an object. */
  ghost predicate WF(s: Slab) {
    |s.free| == NR_CLASSES && Counted(s) && SortedOut(s)
  }

  ghost predicate Counted(s: Slab)
    requires |s.free| == NR_CLASSES
  {
    forall i :: 0 <= i < NR_CLASSES ==> NoDup(s.free[i]) && Conserved(s, i)
  }

  ghost predicate SortedOut(s: Slab) {
    && (forall a: nat, i: nat :: FreeObj(s, a, i) ==> Carved(s, a, i) && a !in s.live)
    && (forall a: nat, i: nat :: LiveObj(s, a, i) ==> Carved(s, a, i))
    && (forall a: nat, i: nat :: Carved(s, a, i) ==> FreeObj(s, a, i) || LiveObj(s, a, i))
  }

  // ---------- steps ----------

  function Pop(s: Slab, i: nat): Slab
    requires i < |s.free| && s.free[i] != []
  {
    s.(free := s.free[i := s.free[i][1..]], live := s.live[s.free[i][0] := i])
  }

  function Push(s: Slab, a: nat): Slab
    requires a in s.live && s.live[a] < |s.free|
  {
    var i := s.live[a];
    s.(free := s.free[i := [a] + s.free[i]], live := s.live - {a})
  }

  /** The first n objects of a page in the order they end up on the list. */
  function Slots(base: nat, p: nat, i: nat, n: nat): seq<nat>
    requires i < NR_CLASSES
  {
    if n == 0 then [] else [SlotAddr(base, p, i, n - 1)] + Slots(base, p, i, n - 1)
  }

  function Refill(s: Slab, i: nat, p: nat): Slab
    requires i < NR_CLASSES && |s.free| == NR_CLASSES
  {
    s.(free := s.free[i := Slots(s.base, p, i, PerPage(i)) + s.free[i]], pages := s.pages[p := i])
  }

  // ---------- objects do not overlap ----------

  /** Two carved objects, of any classes, are the same or do not overlap. */
  lemma CarvedApart(s: Slab, a: nat, i: nat, b: nat, j: nat)
    requires Carved(s, a, i) && Carved(s, b, j)
    ensures (a == b && i == j) || (a != b && ApartBytes(a, CLASSES[i], b, CLASSES[j]))
  {
    var p: nat, k: nat :| IsSlot(s, a, i, p, k);
    var q: nat, l: nat :| IsSlot(s, b, j, q, l);
    if (p, k) != (q, l) { SlotsApart(s.base, p, i, k, q, j, l); }
  }

  // ---------- every step keeps the slab well formed ----------

  lemma PopWF(s: Slab, t: Slab, i: nat)
    requires WF(s) && i < NR_CLASSES && s.free[i] != [] && t == Pop(s, i)
    ensures WF(t)
  {
    assert FreeObj(s, s.free[i][0], i);
    PopCounted(s, t, i);
    PopSortedOut(s, t, i);
  }

  lemma PopCounted(s: Slab, t: Slab, i: nat)
    requires |s.free| == NR_CLASSES && Counted(s) && i < NR_CLASSES && s.free[i] != [] && t == Pop(s, i)
    requires s.free[i][0] !in s.live
    ensures Counted(t)
  {
    forall j | 0 <= j < NR_CLASSES ensures NoDup(t.free[j]) && Conserved(t, j) {
      assert NoDup(s.free[j]) && Conserved(s, j);
      if j == i {
        NoDupTail(s.free[i]);
        SameTotal(s, t, i);
      } else {
        SameTotal(s, t, j);
      }
    }
  }

  /** Moving an object of a class between its list and its owner keeps the total. */
  lemma SameTotal(s: Slab, t: Slab, i: nat)
    requires |s.free| == NR_CLASSES == |t.free| && i < NR_CLASSES && Conserved(s, i) && t.pages == s.pages
    requires
      || (t.free[i] == s.free[i] && forall a :: (a in t.live && t.live[a] == i) <==> (a in s.live && s.live[a] == i))
      || (s.free[i] != [] && s.free[i][0] !in s.live && t.free[i] == s.free[i][1..]
          && t.live == s.live[s.free[i][0] := i])
      || (t.free[i] != [] && t.free[i][1..] == s.free[i] && LiveObj(s, t.free[i][0], i)
          && t.live == s.live - {t.free[i][0]})
    ensures Conserved(t, i)
  {
    assert PagesOf(t, i) == PagesOf(s, i);
    if t.free[i] == s.free[i] {
      assert LiveOf(t, i) == LiveOf(s, i);
    } else if s.free[i] != [] && t.free[i] == s.free[i][1..] && t.live == s.live[s.free[i][0] := i] {
      assert LiveOf(t, i) == LiveOf(s, i) + {s.free[i][0]};
    } else {
      assert LiveOf(t, i) == LiveOf(s, i) - {t.free[i][0]};
    }
  }

  lemma NoDupTail(l: seq<nat>)
    requires NoDup(l) && l != []
    ensures NoDup(l[1..]) && l[0] !in l[1..]
  {
  }

  lemma PopSortedOut(s: Slab, t: Slab, i: nat)
    requires |s.free| == NR_CLASSES && SortedOut(s) && i < NR_CLASSES && s.free[i] != [] && NoDup(s.free[i])
    requires t == Pop(s, i)
    ensures SortedOut(t)
  {
    var a := s.free[i][0];
    assert FreeObj(s, a, i);
    assert s.free[i] == [a] + s.free[i][1..];
    forall b: nat, j: nat
      ensures FreeObj(t, b, j) <==> FreeObj(s, b, j) && b != a
      ensures LiveObj(t, b, j) <==> LiveObj(s, b, j) || (b == a && j == i)
      ensures Carved(t, b, j) <==> Carved(s, b, j)
    {
      SameCarved(s, t, b, j);
      if FreeObj(s, b, j) && b == a { CarvedApart(s, a, i, b, j); }
    }
  }

  lemma SameCarved(s: Slab, t: Slab, a: nat, i: nat)
    requires t.pages == s.pages && t.base == s.base
    ensures Carved(t, a, i) <==> Carved(s, a, i)
  {
    if p: nat, k: nat :| IsSlot(s, a, i, p, k) { assert IsSlot(t, a, i, p, k); }
    if p: nat, k: nat :| IsSlot(t, a, i, p, k) { assert IsSlot(s, a, i, p, k); }
  }

  lemma PushWF(s: Slab, t: Slab, a: nat)
    requires WF(s) && a in s.live && s.live[a] < NR_CLASSES && t == Push(s, a)
    ensures WF(t)
  {
    assert LiveObj(s, a, s.live[a]) && !FreeObj(s, a, s.live[a]);
    PushCounted(s, t, a);
    PushSortedOut(s, t, a);
  }

  lemma PushCounted(s: Slab, t: Slab, a: nat)
    requires |s.free| == NR_CLASSES && Counted(s) && a in s.live && s.live[a] < NR_CLASSES && t == Push(s, a)
    requires a !in s.free[s.live[a]]
    ensures Counted(t)
  {
    forall j | 0 <= j < NR_CLASSES ensures NoDup(t.free[j]) && Conserved(t, j) {
      assert NoDup(s.free[j]) && Conserved(s, j);
      SameTotal(s, t, j);
    }
  }

  lemma PushSortedOut(s: Slab, t: Slab, a: nat)
    requires |s.free| == NR_CLASSES && SortedOut(s) && a in s.live && s.live[a] < NR_CLASSES && t == Push(s, a)
    ensures SortedOut(t)
  {
    var i := s.live[a];
    assert LiveObj(s, a, i);
    forall b: nat, j: nat
      ensures FreeObj(t, b, j) <==> FreeObj(s, b, j) || (b == a && j == i)
      ensures LiveObj(t, b, j) <==> LiveObj(s, b, j) && b != a
      ensures Carved(t, b, j) <==> Carved(s, b, j)
    {
      SameCarved(s, t, b, j);
    }
  }

  lemma {:induction false} SlotsAre(base: nat, p: nat, i: nat, n: nat)
    requires i < NR_CLASSES && n <= PerPage(i)
    ensures |Slots(base, p, i, n)| == n && NoDup(Slots(base, p, i, n))
    ensures forall a: nat :: a in Slots(base, p, i, n) <==> exists k: nat :: k < n && a == SlotAddr(base, p, i, k)
  {
    if n > 0 {
      SlotsAre(base, p, i, n - 1);
      var top, rest := SlotAddr(base, p, i, n - 1), Slots(base, p, i, n - 1);
      forall k: nat | k < n - 1 ensures SlotAddr(base, p, i, k) != top { SlotGap(i, k, n - 1); }
      assert top !in rest;
      forall a: nat
        ensures a in Slots(base, p, i, n) <==> exists k: nat :: k < n && a == SlotAddr(base, p, i, k)
      {
        assert a in Slots(base, p, i, n) <==> a == top || a in rest;
      }
    }
  }

  /** A fresh page is handed out from its last object down to its first. */
  lemma {:induction false} SlotsDescend(base: nat, p: nat, i: nat, n: nat, x: nat)
    requires i < NR_CLASSES && x < n
    ensures |Slots(base, p, i, n)| == n
    ensures Slots(base, p, i, n)[x] == base + p * PAGE_SIZE + (n - 1 - x) * CLASSES[i]
    decreases n
  {
    if n > 1 { SlotsDescend(base, p, i, n - 1, if x > 0 then x - 1 else 0); }
    SlotOffsetIsTimes(i, n - 1);
  }

  /** The new page holds none of the objects carved before. */
  lemma RefillCarves(s: Slab, t: Slab, i: nat, p: nat, a: nat, j: nat)
    requires i < NR_CLASSES && |s.free| == NR_CLASSES && p !in s.pages && t == Refill(s, i, p)
    ensures Carved(t, a, j) <==> Carved(s, a, j) || (j == i && a in Slots(s.base, p, i, PerPage(i)))
    ensures a in Slots(s.base, p, i, PerPage(i)) ==> !Carved(s, a, j)
  {
    SlotsAre(s.base, p, i, PerPage(i));
    if q: nat, k: nat :| IsSlot(t, a, j, q, k) {
      if q != p { assert IsSlot(s, a, j, q, k); }
    }
    if q: nat, k: nat :| IsSlot(s, a, j, q, k) { assert IsSlot(t, a, j, q, k); }
    if a in Slots(s.base, p, i, PerPage(i)) {
      var k: nat :| k < PerPage(i) && a == SlotAddr(s.base, p, i, k);
      assert IsSlot(t, a, i, p, k);
      forall q: nat, l: nat | IsSlot(s, a, j, q, l) ensures false { SlotsApart(s.base, p, i, k, q, j, l); }
    }
  }

  lemma RefillWF(s: Slab, t: Slab, i: nat, p: nat)
    requires WF(s) && i < NR_CLASSES && p !in s.pages && t == Refill(s, i, p)
    ensures WF(t)
  {
    forall a: nat | a in Slots(s.base, p, i, PerPage(i)) ensures a !in s.free[i] {
      RefillCarves(s, t, i, p, a, i);
      assert !FreeObj(s, a, i);
    }
    RefillCounted(s, t, i, p);
    RefillSortedOut(s, t, i, p);
  }

  lemma RefillCounted(s: Slab, t: Slab, i: nat, p: nat)
    requires |s.free| == NR_CLASSES && Counted(s) && i < NR_CLASSES && p !in s.pages && t == Refill(s, i, p)
    requires forall a: nat :: a in Slots(s.base, p, i, PerPage(i)) ==> a !in s.free[i]
    ensures Counted(t)
  {
    forall j | 0 <= j < NR_CLASSES ensures NoDup(t.free[j]) && Conserved(t, j) {
      assert NoDup(s.free[j]) && Conserved(s, j);
      if j == i {
        RefillCountedHere(s, t, i, p);
      } else {
        assert LiveOf(t, j) == LiveOf(s, j) && PagesOf(t, j) == PagesOf(s, j);
      }
    }
  }

  lemma RefillCountedHere(s: Slab, t: Slab, i: nat, p: nat)
    requires |s.free| == NR_CLASSES && i < NR_CLASSES && NoDup(s.free[i]) && Conserved(s, i)
    requires p !in s.pages && t == Refill(s, i, p)
    requires forall a: nat :: a in Slots(s.base, p, i, PerPage(i)) ==> a !in s.free[i]
    ensures NoDup(t.free[i]) && Conserved(t, i)
  {
    var added := Slots(s.base, p, i, PerPage(i));
    SlotsAre(s.base, p, i, PerPage(i));
    NoDupConcat(added, s.free[i]);
    OnePageMore(s, t, i, p, added);
  }

  lemma OnePageMore(s: Slab, t: Slab, i: nat, p: nat, added: seq<nat>)
    requires |s.free| == NR_CLASSES == |t.free| && i < NR_CLASSES && Conserved(s, i)
    requires p !in s.pages && |added| == PerPage(i)
    requires t.free[i] == added + s.free[i] && t.live == s.live && t.pages == s.pages[p := i]
    ensures Conserved(t, i)
  {
    assert LiveOf(t, i) == LiveOf(s, i) && PagesOf(t, i) == PagesOf(s, i) + {p};
    OneMore(|s.free[i]| + |LiveOf(s, i)|, |PagesOf(s, i)|, PerPage(i));
  }

  lemma OneMore(x: nat, n: nat, c: nat)
    requires x == n * c
    ensures c + x == (n + 1) * c
  {
  }

  lemma RefillSortedOut(s: Slab, t: Slab, i: nat, p: nat)
    requires |s.free| == NR_CLASSES && SortedOut(s) && i < NR_CLASSES && p !in s.pages && t == Refill(s, i, p)
    ensures SortedOut(t)
  {
    var added := Slots(s.base, p, i, PerPage(i));
    forall a: nat, j: nat
      ensures FreeObj(t, a, j) <==> FreeObj(s, a, j) || (j == i && a in added)
      ensures Carved(t, a, j) <==> Carved(s, a, j) || (j == i && a in added)
      ensures a in added ==> a !in s.live
    {
      RefillCarves(s, t, i, p, a, j);
      if a in s.live {
        assert LiveObj(s, a, s.live[a]);
        RefillCarves(s, t, i, p, a, s.live[a]);
      }
    }
    assert forall a: nat, j: nat :: LiveObj(t, a, j) <==> LiveObj(s, a, j);
  }

  lemma NoDupConcat(a: seq<nat>, b: seq<nat>)
    requires NoDup(a) && NoDup(b) && forall x :: x in a ==> x !in b
    ensures NoDup(a + b)
  {
    var c := a + b;
    forall x, y | 0 <= x < y < |c| ensures c[x] != c[y] {
      if x < |a| <= y { assert c[x] in a && c[y] in b; }
    }
  }
}
