/** How many requests of one order the free lists can serve. */
module BuddyUnits {
  import opened Bits
  import opened Wrappers
  import opened BuddyModel
  import opened BuddySteps
  import opened BuddyTheorems
  import opened BuddyRuns

  /** Blocks of order o that the lists hold: 2^(k - o) for each free block of an
      order k from o up. */
  function Units(lists: seq<seq<nat>>, o: nat): nat {
    if |lists| <= o then 0
    else Units(lists[..|lists| - 1], o) + Shl(|lists[|lists| - 1]|, |lists| - 1 - o)
  }

  lemma {:induction false} UnitsUpdate(lists: seq<seq<nat>>, o: nat, k: nat, l: seq<nat>)
    requires o <= k < |lists|
    ensures Units(lists[k := l], o) + Shl(|lists[k]|, k - o) == Units(lists, o) + Shl(|l|, k - o)
    decreases |lists|
  {
    var n := |lists| - 1;
    var m := lists[k := l];
    if k == n {
      assert m[..n] == lists[..n];
    } else {
      UnitsUpdate(lists[..n], o, k, l);
      assert m[..n] == lists[..n][k := l];
    }
  }

  lemma UnitsPush(lists: seq<seq<nat>>, o: nat, k: nat, l: seq<nat>)
    requires o <= k < |lists| && |l| == |lists[k]| + 1
    ensures Units(lists[k := l], o) == Units(lists, o) + Pow2(k - o)
  {
    UnitsUpdate(lists, o, k, l);
    ShlSucc(|lists[k]|, k - o);
  }

  lemma UnitsDrop(lists: seq<seq<nat>>, o: nat, k: nat, l: seq<nat>)
    requires o <= k < |lists| && |l| == |lists[k]| - 1
    ensures Units(lists[k := l], o) == Units(lists, o) - Pow2(k - o)
  {
    UnitsUpdate(lists, o, k, l);
    ShlSucc(|l|, k - o);
  }

  lemma SplitStepUnits(s: State, b: nat, o: nat)
    requires Holds(s, b) && o < s.live[b]
    ensures Units(SplitStep(s, b).lists, o) + Pow2(s.live[b] - 1 - o) == Units(s.lists, o) + Pow2(s.live[b] - o)
  {
    var k := s.live[b] - 1;
    UnitsPush(s.lists, o, k, [b + Pow2(k)] + s.lists[k]);
  }

  /** Splitting down to order o gives back all units of the block but one. */
  lemma {:induction false} SplitDownUnits(s: State, b: nat, o: nat)
    requires Holds(s, b) && o <= s.live[b]
    ensures Units(SplitDown(s, b, o).lists, o) == Units(s.lists, o) + Pow2(s.live[b] - o) - 1
    decreases s.live[b]
  {
    if s.live[b] > o {
      SplitStepUnits(s, b, o);
      SplitDownUnits(SplitStep(s, b), b, o);
    }
  }

  lemma {:induction false} NoUnits(lists: seq<seq<nat>>, o: nat)
    ensures Units(lists, o) == 0 <==> FirstNonEmpty(lists, o).None?
  {
    if |lists| > o {
      var n := |lists| - 1;
      NoUnits(lists[..n], o);
      ShlIsTimes(|lists[n]|, n - o);
      assert FirstNonEmpty(lists, o).None? <==> FirstNonEmpty(lists[..n], o).None? && lists[n] == [] by {
        assert forall j :: o <= j < n ==> lists[..n][j] == lists[j];
      }
    }
  }

  /** A request of order o is served exactly when a unit is left, and uses one, so
      the lists serve exactly as many requests of that order as they hold units. */
  lemma AllocTakesOneUnit(s: State, o: nat)
    requires |s.lists| == MAX_ORDER
    ensures var (t, r) := Alloc(s, o);
      (r.Some? <==> Units(s.lists, o) > 0) && (r.Some? ==> Units(t.lists, o) == Units(s.lists, o) - 1)
  {
    NoUnits(s.lists, o);
    var r := FirstNonEmpty(s.lists, o);
    if r.Some? {
      var k := r.value;
      UnitsDrop(s.lists, o, k, s.lists[k][1..]);
      SplitDownUnits(Take(s, k), s.lists[k][0], o);
    }
  }

  // ---------- when allocation is complete ----------

  /** `alloc` fails exactly when no aligned run of the size is free. */
  ghost predicate Complete(s: State, o: nat)
    requires |s.lists| == MAX_ORDER
  {
    Alloc(s, o).1.None? <==> !exists p: nat :: FreeRun(s, p, o)
  }

  /** n requests of order o. */
  function Drain(s: State, o: nat, n: nat): (t: State)
    requires |s.lists| == MAX_ORDER
    ensures |t.lists| == MAX_ORDER
    decreases n
  {
    if n == 0 then s
    else
      AllocShape(s, o);
      Drain(Alloc(s, o).0, o, n - 1)
  }

  lemma {:induction false} SplitDownShape(s: State, b: nat, o: nat)
    requires Holds(s, b) && o <= s.live[b]
    ensures var t := SplitDown(s, b, o);
      |t.lists| == MAX_ORDER && forall j :: 0 <= j < o ==> t.lists[j] == s.lists[j]
    decreases s.live[b]
  {
    if s.live[b] > o { SplitDownShape(SplitStep(s, b), b, o); }
  }

  /** A request touches no list below its order. */
  lemma AllocShape(s: State, o: nat)
    requires |s.lists| == MAX_ORDER
    ensures var t := Alloc(s, o).0;
      |t.lists| == MAX_ORDER && forall j :: 0 <= j < o && j < MAX_ORDER ==> t.lists[j] == s.lists[j]
  {
    var r := FirstNonEmpty(s.lists, o);
    if r.Some? { SplitDownShape(Take(s, r.value), s.lists[r.value][0], o); }
  }

  lemma {:induction false} DrainKeeps(s: State, o: nat, n: nat)
    requires WF(s)
    ensures var t := Drain(s, o, n);
      && WF(t) && (NoMergeable(s) ==> NoMergeable(t))
      && (forall j :: 0 <= j < o && j < MAX_ORDER ==> t.lists[j] == s.lists[j])
      && (n <= Units(s.lists, o) ==> Units(t.lists, o) == Units(s.lists, o) - n)
    decreases n
  {
    if n > 0 {
      AllocWF(s, o);
      AllocShape(s, o);
      AllocTakesOneUnit(s, o);
      if NoMergeable(s) { AllocKeepsNoMergeable(s, o); }
      DrainKeeps(Alloc(s, o).0, o, n - 1);
    }
  }

  /** Two free buddies are a free run of the next order. */
  lemma PairIsARun(s: State, p: nat, k: nat, o: nat)
    requires WF(s) && FreeBlock(s, p, k) && k < MAX_ORDER - 1 && FreeBlock(s, Buddy(p, k), k) && o == k + 1
    ensures exists q: nat :: FreeRun(s, q, o)
  {
    assert IsBlock(s, p, k);
    BuddyFacts(p, k);
    var q := if p < Buddy(p, k) then p else Buddy(p, k);
    forall f: nat | InBlock(f, q, o) ensures FreeFrame(s, f) {
      assert InBlock(f, p, k) || InBlock(f, Buddy(p, k), k);
    }
    assert FreeRun(s, q, o);
  }

  /** A mergeable pair hides a run: once the larger blocks are used up, `alloc`
      fails although the pair is a free run. */
  lemma PairHidesARun(s: State, p: nat, k: nat)
    requires WF(s) && FreeBlock(s, p, k) && k < MAX_ORDER - 1 && FreeBlock(s, Buddy(p, k), k)
    ensures !Complete(Drain(s, k + 1, Units(s.lists, k + 1)), k + 1)
  {
    var n := Units(s.lists, k + 1);
    var t := Drain(s, k + 1, n);
    DrainKeeps(s, k + 1, n);
    AllocTakesOneUnit(t, k + 1);
    PairIsARun(t, p, k, k + 1);
  }

  /** Allocation is complete, and stays so however many requests of an order are
      made, exactly when no two free buddies below the top order wait to be merged. */
  lemma CompleteIffMerged(s: State)
    requires WF(s)
    ensures NoMergeable(s) <==> forall o: nat, n: nat :: o < MAX_ORDER ==> Complete(Drain(s, o, n), o)
  {
    if NoMergeable(s) {
      forall o: nat, n: nat | o < MAX_ORDER ensures Complete(Drain(s, o, n), o) {
        DrainKeeps(s, o, n);
        AllocComplete(Drain(s, o, n), o);
      }
    } else {
      var p: nat, k: nat :| FreeBlock(s, p, k) && k < MAX_ORDER - 1 && FreeBlock(s, Buddy(p, k), k);
      PairHidesARun(s, p, k);
    }
  }

  // ---------- a state with memory ----------

  /** A range of two blocks of the top order, 8 MiB, handed over in one piece. */
  lemma TwoTopBlocks(o: nat, nr: nat)
    requires o == MAX_ORDER - 1 && nr == 2 * Pow2(o)
    ensures var s := FreeRange(Initial(nr), 0, nr);
      && WF(s) && |s.lists| == MAX_ORDER && s.lists[o] == [Pow2(o), 0]
      && forall j: nat :: j <= o ==> Units(s.lists, j) == 2 * Pow2(o - j)
  {
    var s0 := Initial(nr);
    InitialWF(nr);
    assert AllReserved(s0, 0, nr) by {
      forall f: nat | f < nr ensures f in s0.reserved { assert f in Range(0, nr); }
    }
    FreeRangeWF(s0, 0, nr);
    TopOrders(o);
    FreeFirst(s0, 0, nr, o);
    var s1 := Seed(s0, 0, o);
    FreeFirst(s1, Pow2(o), Pow2(o), o);
    var lists := s1.lists[o := [Pow2(o), 0]];
    forall j: nat | j <= o ensures Units(lists, j) == 2 * Pow2(o - j) {
      UnitsOfSeeds(s0.lists, o, j);
    }
  }

  lemma FreeFirst(s: State, start: nat, count: nat, o: nat)
    requires |s.lists| == MAX_ORDER && count > 0 && o == GreatestOrder(start, count)
    ensures FreeRange(s, start, count) == FreeRange(Seed(s, start, o), start + Pow2(o), count - Pow2(o))
  {
  }

  lemma UnitsOfSeeds(lists: seq<seq<nat>>, o: nat, j: nat)
    requires j <= o < |lists| && forall k :: 0 <= k < |lists| ==> lists[k] == []
    ensures Units(lists[o := [0]][o := [Pow2(o), 0]], j) == 2 * Pow2(o - j)
  {
    NoUnits(lists, j);
    UnitsPush(lists, j, o, [0]);
    UnitsPush(lists[o := [0]], j, o, [Pow2(o), 0]);
  }

  lemma TopOrders(o: nat)
    requires o == MAX_ORDER - 1
    ensures GreatestOrder(0, 2 * Pow2(o)) == o && GreatestOrder(Pow2(o), Pow2(o)) == o
  {
    ZeroAligned(o);
    AlignedPow2(o, o);
  }
}
