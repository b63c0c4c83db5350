/** The greedy carve of `free_range`: it tiles the range exactly, no tiling by
    aligned blocks is shorter, and it never leaves two of its own blocks to be
    merged. */
module BuddyCarve {
  import opened Bits
  import opened BuddyModel
  import opened BuddySteps
  import opened BuddyFrames

  /** `orders` cuts [start, end) into consecutive aligned blocks of legal order. */
  predicate Tiles(start: nat, orders: seq<nat>, end: nat)
    decreases |orders|
  {
    if orders == [] then start == end
    else
      && orders[0] < MAX_ORDER && Aligned(start, orders[0])
      && start + Pow2(orders[0]) <= end
      && Tiles(start + Pow2(orders[0]), orders[1..], end)
  }

  /** The orders `free_range` pushes, in the order it pushes them. */
  ghost function Carve(start: nat, count: nat): seq<nat>
    decreases count
  {
    if count == 0 then []
    else
      var o := GreatestOrder(start, count);
      [o] + Carve(start + Pow2(o), count - Pow2(o))
  }

  lemma {:induction false} CarveTiles(start: nat, count: nat)
    ensures Tiles(start, Carve(start, count), start + count)
    decreases count
  {
    if count > 0 {
      var o := GreatestOrder(start, count);
      CarveTiles(start + Pow2(o), count - Pow2(o));
    }
  }

  /** Any tiling of [start, end) has a prefix that tiles the first greedy block. */
  lemma {:induction false} PrefixOfBlock(start: nat, base: nat, g: nat, orders: seq<nat>, end: nat) returns (n: nat)
    requires Tiles(start, orders, end) && g < MAX_ORDER && Aligned(base, g)
    requires base <= start < base + Pow2(g) <= end
    requires start == base && orders != [] ==> orders[0] <= g
    ensures 0 < n <= |orders| && Tiles(base + Pow2(g), orders[n..], end)
    decreases |orders|
  {
    var o := orders[0];
    if o <= g {
      NestedOrDisjoint(start, o, base, g);
    } else {
      NestedOrDisjoint(base, g, start, o);
    }
    var next := start + Pow2(o);
    if next == base + Pow2(g) {
      n := 1;
    } else {
      var m := PrefixOfBlock(next, base, g, orders[1..], end);
      n := m + 1;
      assert orders[1..][m..] == orders[n..];
    }
  }

  /** No tiling of the range has fewer blocks than the carve. */
  lemma {:induction false} CarveIsShortest(start: nat, count: nat, orders: seq<nat>)
    requires Tiles(start, orders, start + count)
    ensures |Carve(start, count)| <= |orders|
    decreases count
  {
    if count > 0 {
      var g := GreatestOrder(start, count);
      var n := PrefixOfBlock(start, start, g, orders, start + count);
      CarveIsShortest(start + Pow2(g), count - Pow2(g), orders[n..]);
    }
  }

  // ---------- the blocks free_range pushes ----------

  /** (p, k) is one of the blocks `free_range` pushes for the range. */
  ghost predicate CarveBlock(start: nat, count: nat, p: nat, k: nat)
    decreases count
  {
    count > 0 &&
    (var o := GreatestOrder(start, count);
     (p == start && k == o) || CarveBlock(start + Pow2(o), count - Pow2(o), p, k))
  }

  lemma {:induction false} CarveBlockFacts(start: nat, count: nat, p: nat, k: nat)
    requires CarveBlock(start, count, p, k)
    ensures start <= p && p + Pow2(k) <= start + count && k == GreatestOrder(p, start + count - p)
    ensures k < MAX_ORDER && Aligned(p, k)
    decreases count
  {
    var o := GreatestOrder(start, count);
    if !(p == start && k == o) {
      CarveBlockFacts(start + Pow2(o), count - Pow2(o), p, k);
    }
  }

  lemma {:induction false} FreeRangeBlocks(s: State, start: nat, count: nat)
    requires |s.lists| == MAX_ORDER
    ensures forall p: nat, k: nat ::
      FreeBlock(FreeRange(s, start, count), p, k) <==> FreeBlock(s, p, k) || CarveBlock(start, count, p, k)
    decreases count
  {
    if count > 0 {
      var o := GreatestOrder(start, count);
      SeedBlocks(s, start, o);
      FreeRangeBlocks(Seed(s, start, o), start + Pow2(o), count - Pow2(o));
    }
  }

  /** A block that ends the range and fits in it stays clear of the first greedy
      block, unless that is the whole range. */
  lemma EndBlockClear(start: nat, count: nat, l: nat)
    requires count > 0 && l < MAX_ORDER && Pow2(l) <= count && Aligned(start + count, l)
    requires count != Pow2(GreatestOrder(start, count))
    ensures Pow2(l) + Pow2(GreatestOrder(start, count)) <= count
  {
    var g, p := GreatestOrder(start, count), start + count - Pow2(l);
    AlignedStep(start + count, l);
    if l > g {
      NestedOrDisjoint(start, g, p, l);
    } else {
      NestedOrDisjoint(p, l, start, g);
    }
  }

  /** A greater bound on the size that admits no greater order changes nothing. */
  lemma SameMaxOrder(p: nat, small: nat, big: nat)
    requires 0 < small <= big && Pow2(GreatestOrder(p, big)) <= small
    ensures GreatestOrder(p, small) == GreatestOrder(p, big)
  {
  }

  /** The first and the last block of the carve have the largest orders that fit there. */
  lemma {:induction false} CarveEnds(start: nat, count: nat)
    requires count > 0
    ensures CarveBlock(start, count, start, GreatestOrder(start, count))
    ensures var end := start + count; var k := GreatestOrder(end, count);
      Pow2(k) <= count && CarveBlock(start, count, end - Pow2(k), k)
    decreases count
  {
    var end := start + count;
    var g, l := GreatestOrder(start, count), GreatestOrder(end, count);
    if count == Pow2(g) {
      AlignedStep(start, g);
      assert l == g by {
        assert g <= l;
        if g < l { Pow2Strict(g, l); }
      }
    } else {
      EndBlockClear(start, count, l);
      SameMaxOrder(end, count - Pow2(g), count);
      CarveEnds(start + Pow2(g), count - Pow2(g));
    }
  }

  // ---------- no mergeable pair after free_range ----------

  /** The first block carved from the range completes a free block just below it. */
  ghost predicate MergesBelow(s: State, start: nat, count: nat) {
    count > 0 &&
    var k := GreatestOrder(start, count);
    k < MAX_ORDER - 1 && Buddy(start, k) < start && FreeBlock(s, Buddy(start, k), k)
  }

  /** The last block carved from the range completes a free block just above it. */
  ghost predicate MergesAbove(s: State, start: nat, count: nat) {
    count > 0 &&
    var end := start + count;
    var k := GreatestOrder(end, count);
    k < MAX_ORDER - 1 && Buddy(end, k) < end && FreeBlock(s, end, k)
  }

  /** Two blocks of one carve are never buddies of one order below the top. */
  lemma CarveNeverMergeable(start: nat, count: nat, p: nat, k: nat)
    requires CarveBlock(start, count, p, k) && k < MAX_ORDER - 1
    ensures !CarveBlock(start, count, Buddy(p, k), k)
  {
    CarveBlockFacts(start, count, p, k);
    BuddyFacts(p, k);
    var q := Buddy(p, k);
    if CarveBlock(start, count, q, k) {
      CarveBlockFacts(start, count, q, k);
      var low := if p < q then p else q;
      assert false;
    }
  }

  lemma LastBlockIsAboveEdge(start: nat, count: nat, end: nat, p: nat, k: nat)
    requires count > 0 && end == start + count == p + Pow2(k) && CarveBlock(start, count, p, k)
    ensures k == GreatestOrder(end, count)
  {
    CarveEnds(start, count);
    var l := GreatestOrder(end, count);
    CarveDisjoint(start, count, p, k, end - Pow2(l), l);
  }

  /** A carved block whose buddy was free before is the first or the last one. */
  lemma OldBuddyAtTheEdge(s: State, start: nat, count: nat, p: nat, k: nat)
    requires WF(s) && AllReserved(s, start, count)
    requires CarveBlock(start, count, p, k) && k < MAX_ORDER - 1 && FreeBlock(s, Buddy(p, k), k)
    ensures MergesBelow(s, start, count) || MergesAbove(s, start, count)
  {
    var q, end := Buddy(p, k), start + count;
    CarveBlockFacts(start, count, p, k);
    BuddyFacts(p, k);
    assert IsBlock(s, q, k);
    if q < p {
      assert InBlock(p - 1, q, k);
      assert p == start;
    } else {
      assert InBlock(q, q, k);
      assert q == end;
      LastBlockIsAboveEdge(start, count, end, p, k);
    }
  }

  lemma {:induction false} CarveDisjoint(start: nat, count: nat, p: nat, j: nat, q: nat, k: nat)
    requires CarveBlock(start, count, p, j) && CarveBlock(start, count, q, k)
    ensures (p == q && j == k) || Disjoint(p, j, q, k)
    decreases count
  {
    var o := GreatestOrder(start, count);
    var first, rest := start + Pow2(o), count - Pow2(o);
    var pIn, qIn := CarveBlock(first, rest, p, j), CarveBlock(first, rest, q, k);
    if pIn { CarveBlockFacts(first, rest, p, j); }
    if qIn { CarveBlockFacts(first, rest, q, k); }
    if pIn && qIn { CarveDisjoint(first, rest, p, j, q, k); }
  }

  lemma NewPairIsAtTheEdge(s: State, start: nat, count: nat, p: nat, k: nat)
    requires WF(s) && NoMergeable(s) && AllReserved(s, start, count)
    requires k < MAX_ORDER - 1 && (FreeBlock(s, p, k) || CarveBlock(start, count, p, k))
    requires FreeBlock(s, Buddy(p, k), k) || CarveBlock(start, count, Buddy(p, k), k)
    ensures MergesBelow(s, start, count) || MergesAbove(s, start, count)
  {
    var q := Buddy(p, k);
    if CarveBlock(start, count, p, k) {
      CarveNeverMergeable(start, count, p, k);
      OldBuddyAtTheEdge(s, start, count, p, k);
    } else {
      assert IsBlock(s, p, k);
      BuddyFacts(p, k);
      OldBuddyAtTheEdge(s, start, count, q, k);
    }
  }

  lemma EdgeMakesAPair(s: State, start: nat, count: nat) returns (p: nat, k: nat)
    requires WF(s) && (MergesBelow(s, start, count) || MergesAbove(s, start, count))
    ensures k < MAX_ORDER - 1 && FreeBlock(s, p, k) && CarveBlock(start, count, Buddy(p, k), k)
  {
    CarveEnds(start, count);
    var end := start + count;
    if MergesBelow(s, start, count) {
      k := GreatestOrder(start, count);
      p := Buddy(start, k);
      BuddyFacts(start, k);
    } else {
      p, k := end, GreatestOrder(end, count);
      BuddyFacts(end, k);
    }
  }

  /** `free_range` leaves no mergeable pair exactly when neither end of the range
      completes a free block that is already there. */
  lemma FreeRangeKeepsNoMergeable(s: State, start: nat, count: nat)
    requires WF(s) && NoMergeable(s) && AllReserved(s, start, count)
    ensures NoMergeable(FreeRange(s, start, count)) <==>
      !MergesBelow(s, start, count) && !MergesAbove(s, start, count)
  {
    var t := FreeRange(s, start, count);
    FreeRangeBlocks(s, start, count);
    forall p: nat, k: nat | FreeBlock(t, p, k) && k < MAX_ORDER - 1 && FreeBlock(t, Buddy(p, k), k)
      ensures MergesBelow(s, start, count) || MergesAbove(s, start, count)
    {
      NewPairIsAtTheEdge(s, start, count, p, k);
    }
    if MergesBelow(s, start, count) || MergesAbove(s, start, count) {
      var p, k := EdgeMakesAPair(s, start, count);
      assert FreeBlock(t, p, k) && FreeBlock(t, Buddy(p, k), k);
    }
  }

  /** In particular the range may be freed safely when no frame next to it is free. */
  lemma FreeRangeApart(s: State, start: nat, count: nat)
    requires WF(s) && NoMergeable(s) && AllReserved(s, start, count)
    requires start > 0 ==> !FreeFrame(s, start - 1)
    requires !FreeFrame(s, start + count)
    ensures NoMergeable(FreeRange(s, start, count))
  {
    FreeRangeKeepsNoMergeable(s, start, count);
    if MergesBelow(s, start, count) {
      var k := GreatestOrder(start, count);
      BuddyFacts(start, k);
      assert InBlock(start - 1, Buddy(start, k), k);
      assert false;
    }
    if MergesAbove(s, start, count) {
      assert false;
    }
  }

  // ---------- free_range pushes the carve ----------

  function SeedAll(s: State, start: nat, orders: seq<nat>): State
    requires |s.lists| == MAX_ORDER && forall i :: 0 <= i < |orders| ==> orders[i] < MAX_ORDER
    decreases |orders|
  {
    if orders == [] then s
    else SeedAll(Seed(s, start, orders[0]), start + Pow2(orders[0]), orders[1..])
  }

  /** `free_range` pushes the blocks of the shortest tiling, front to back. */
  lemma {:induction false} FreeRangePushesCarve(s: State, start: nat, count: nat)
    requires |s.lists| == MAX_ORDER
    ensures var orders := Carve(start, count);
      && (forall i :: 0 <= i < |orders| ==> orders[i] < MAX_ORDER)
      && FreeRange(s, start, count) == SeedAll(s, start, orders)
    decreases count
  {
    if count > 0 {
      var o := GreatestOrder(start, count);
      FreeRangePushesCarve(Seed(s, start, o), start + Pow2(o), count - Pow2(o));
      assert Carve(start, count)[1..] == Carve(start + Pow2(o), count - Pow2(o));
    }
  }
}
