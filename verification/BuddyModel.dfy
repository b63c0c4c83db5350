/** The buddy allocator on values: the free lists, the live blocks and the
    reserved frames, and what `alloc`, `free` and `free_range` do to them.
    A block that an operation has in hand, popped and not yet split, or being
    merged and not yet pushed, counts as live, so every step below goes from
    one well-formed state to another. */
module BuddyModel {
  import opened Bits
  import opened Wrappers

  const MAX_ORDER: nat := 11

  /** lists[k] is the free list of order k, front first; live maps the head of
      every block handed out to its order. */
  datatype State = State(nr: nat, lists: seq<seq<nat>>, live: map<nat, nat>, reserved: set<nat>)

  predicate FreeBlock(s: State, p: nat, k: nat) {
    k < |s.lists| && p in s.lists[k]
  }

  predicate LiveBlock(s: State, p: nat, k: nat) {
    p in s.live && s.live[p] == k
  }

  predicate IsBlock(s: State, p: nat, k: nat) {
    FreeBlock(s, p, k) || LiveBlock(s, p, k)
  }

  predicate BlockOk(s: State, p: nat, k: nat) {
    k < MAX_ORDER && Aligned(p, k) && p + Pow2(k) <= s.nr
  }

  /** Blocks are aligned, in range, pairwise disjoint and clear of the reserved
      frames, no block is both free and live, and no list repeats a block. */
  ghost predicate WF(s: State) {
    && |s.lists| == MAX_ORDER
    && (forall k :: 0 <= k < MAX_ORDER ==> NoDup(s.lists[k]))
    && (forall p: nat, k: nat :: IsBlock(s, p, k) ==> BlockOk(s, p, k))
    && (forall p: nat, k: nat :: FreeBlock(s, p, k) ==> p !in s.live)
    && (forall p: nat, j: nat, q: nat, k: nat :: IsBlock(s, p, j) && IsBlock(s, q, k) ==>
          (p == q && j == k) || Disjoint(p, j, q, k))
    && (forall f :: f in s.reserved ==> f < s.nr)
    && (forall p: nat, k: nat, f: nat :: IsBlock(s, p, k) && f in s.reserved ==> !InBlock(f, p, k))
  }

  ghost predicate FreeFrame(s: State, f: nat) {
    exists p: nat, k: nat :: FreeBlock(s, p, k) && InBlock(f, p, k)
  }

  ghost predicate LiveFrame(s: State, f: nat) {
    exists p: nat, k: nat :: LiveBlock(s, p, k) && InBlock(f, p, k)
  }

  /** Every frame is free, live or reserved (by WF, only one of them). */
  ghost predicate Covered(s: State) {
    forall f: nat :: f < s.nr ==> FreeFrame(s, f) || LiveFrame(s, f) || f in s.reserved
  }

  /** No two free blocks of one order below the top are buddies. */
  ghost predicate NoMergeable(s: State) {
    forall p: nat, k: nat :: FreeBlock(s, p, k) && k < MAX_ORDER - 1 ==> !FreeBlock(s, Buddy(p, k), k)
  }

  /** The value of `free_frames`: 2^k frames for each block on list k. */
  function FreeCount(lists: seq<seq<nat>>): nat {
    if lists == [] then 0
    else FreeCount(lists[..|lists| - 1]) + Shl(|lists[|lists| - 1]|, |lists| - 1)
  }

  // ---------- operations ----------

  predicate Within(f: nat, p: nat, n: nat) {
    p <= f < p + n
  }

  /** The n frames that start at p. */
  function Range(p: nat, n: nat): set<nat> {
    set f: nat | p <= f < p + n && Within(f, p, n)
  }

  /** The other half of the block of order k + 1 that holds the block (p, k). */
  function Buddy(p: nat, k: nat): nat {
    Xor(p, Pow2(k))
  }

  function Remove(l: seq<nat>, x: nat): seq<nat> {
    if l == [] then [] else if l[0] == x then l[1..] else [l[0]] + Remove(l[1..], x)
  }

  predicate Holds(s: State, p: nat) {
    |s.lists| == MAX_ORDER && p in s.live && s.live[p] < MAX_ORDER
  }

  /** Pop the front block of list k and hold it. */
  function Take(s: State, k: nat): State
    requires k < |s.lists| && s.lists[k] != []
  {
    s.(lists := s.lists[k := s.lists[k][1..]], live := s.live[s.lists[k][0] := k])
  }

  /** Push the held block p onto its list. */
  function Give(s: State, p: nat): State
    requires Holds(s, p)
  {
    var k := s.live[p];
    s.(lists := s.lists[k := [p] + s.lists[k]], live := s.live - {p})
  }

  /** Halve the held block b and push the upper half. */
  function SplitStep(s: State, b: nat): State
    requires Holds(s, b) && s.live[b] > 0
  {
    var k := s.live[b] - 1;
    s.(lists := s.lists[k := [b + Pow2(k)] + s.lists[k]], live := s.live[b := k])
  }

  predicate CanMerge(s: State, p: nat)
    requires Holds(s, p)
  {
    var k := s.live[p];
    k < MAX_ORDER - 1 && Buddy(p, k) < s.nr && Buddy(p, k) in s.lists[k]
  }

  function MergedHead(s: State, p: nat): nat
    requires Holds(s, p)
  {
    var q := Buddy(p, s.live[p]);
    if p < q then p else q
  }

  /** Join the held block p with its free buddy and hold the whole. */
  function MergeStep(s: State, p: nat): State
    requires Holds(s, p) && CanMerge(s, p)
  {
    var k := s.live[p];
    s.(lists := s.lists[k := Remove(s.lists[k], Buddy(p, k))],
       live := (s.live - {p})[MergedHead(s, p) := k + 1])
  }

  /** Turn 2^k reserved frames into a free block at the front of list k. */
  function Seed(s: State, p: nat, k: nat): State
    requires k < |s.lists|
  {
    s.(lists := s.lists[k := [p] + s.lists[k]], reserved := s.reserved - Range(p, Pow2(k)))
  }

  function SplitDown(s: State, b: nat, o: nat): State
    requires Holds(s, b) && o <= s.live[b]
    decreases s.live[b]
  {
    if s.live[b] == o then s else SplitDown(SplitStep(s, b), b, o)
  }

  function MergeUp(s: State, p: nat): State
    requires Holds(s, p)
    decreases MAX_ORDER - s.live[p]
  {
    if CanMerge(s, p) then MergeUp(MergeStep(s, p), MergedHead(s, p)) else Give(s, p)
  }

  /** The least order from k up whose list is not empty. */
  function FirstNonEmpty(lists: seq<seq<nat>>, k: nat): (r: Option<nat>)
    ensures r.Some? ==> k <= r.value < |lists| && lists[r.value] != []
    ensures r.Some? ==> forall j :: k <= j < r.value ==> lists[j] == []
    ensures r.None? ==> forall j :: k <= j < |lists| ==> lists[j] == []
    decreases |lists| - k
  {
    if k >= |lists| then None
    else if lists[k] != [] then Some(k)
    else FirstNonEmpty(lists, k + 1)
  }

  function Alloc(s: State, o: nat): (State, Option<nat>)
    requires |s.lists| == MAX_ORDER
  {
    match FirstNonEmpty(s.lists, o)
    case None => (s, None)
    case Some(k) =>
      var b := s.lists[k][0];
      (SplitDown(Take(s, k), b, o), Some(b))
  }

  /** Free the live block p; its order is the one it was handed out with. */
  function Free(s: State, p: nat): State
    requires Holds(s, p)
  {
    MergeUp(s, p)
  }

  /** o is the largest order at which an aligned block at p fits in n frames. */
  ghost predicate IsGreatestOrder(p: nat, n: nat, o: nat) {
    && o < MAX_ORDER && Aligned(p, o) && Pow2(o) <= n
    && forall k: nat :: k < MAX_ORDER && Aligned(p, k) && Pow2(k) <= n ==> k <= o
  }

  ghost function GreatestOrder(p: nat, n: nat): (o: nat)
    requires n > 0
    ensures IsGreatestOrder(p, n, o)
  {
    GreatestOrderExists(p, n, MAX_ORDER - 1);
    var o :| IsGreatestOrder(p, n, o);
    o
  }

  lemma {:induction false} GreatestOrderExists(p: nat, n: nat, top: nat)
    requires n > 0 && top < MAX_ORDER
    requires forall k: nat :: top < k < MAX_ORDER ==> !(Aligned(p, k) && Pow2(k) <= n)
    ensures exists o: nat :: IsGreatestOrder(p, n, o)
  {
    if Aligned(p, top) && Pow2(top) <= n {
      assert IsGreatestOrder(p, n, top);
    } else {
      GreatestOrderExists(p, n, top - 1);
    }
  }

  /** Seed the n frames at `start` block by block, each as large as fits. */
  ghost function FreeRange(s: State, start: nat, count: nat): State
    requires |s.lists| == MAX_ORDER
    decreases count
  {
    if count == 0 then s
    else
      var o := GreatestOrder(start, count);
      FreeRange(Seed(s, start, o), start + Pow2(o), count - Pow2(o))
  }

  // ---------- buddies ----------

  lemma BuddyFacts(p: nat, k: nat)
    requires Aligned(p, k)
    ensures var q := Buddy(p, k);
      && Aligned(q, k) && Buddy(q, k) == p && (q == p + Pow2(k) || p == q + Pow2(k))
      && (p < q <==> Aligned(p, k + 1))
      && (if p < q then Aligned(p, k + 1) else Aligned(q, k + 1))
  {
    XorFlips(p, k);
    AlignedParity(p, k);
    AlignedStep(p, k);
    XorFlips(Buddy(p, k), k);
    if p >= Pow2(k) { AlignedParity(p - Pow2(k), k); }
  }

  // ---------- lists ----------

  lemma {:induction false} RemoveMembers(l: seq<nat>, x: nat)
    requires NoDup(l) && x in l
    ensures NoDup(Remove(l, x)) && |Remove(l, x)| == |l| - 1
    ensures forall y :: y in Remove(l, x) <==> y in l && y != x
  {
    assert l == [l[0]] + l[1..];
    if l[0] != x {
      RemoveMembers(l[1..], x);
      var r := Remove(l[1..], x);
      forall y ensures y in Remove(l, x) <==> y in l && y != x {
        assert y in Remove(l, x) <==> y == l[0] || y in r;
      }
      assert l[0] !in l[1..];
      assert NoDup([l[0]] + r);
    }
  }

  lemma {:induction false} RemoveIsSplice(l: seq<nat>, i: nat)
    requires NoDup(l) && i < |l|
    ensures Remove(l, l[i]) == l[..i] + l[i + 1..]
  {
    if i > 0 {
      RemoveIsSplice(l[1..], i - 1);
      assert l[1..][..i - 1] == l[1..i] && l[1..][i..] == l[i + 1..];
      assert [l[0]] + l[1..i] == l[..i];
    }
  }

  lemma {:induction false} FreeCountUpdate(lists: seq<seq<nat>>, k: nat, l: seq<nat>)
    requires k < |lists|
    ensures FreeCount(lists[k := l]) + Shl(|lists[k]|, k) == FreeCount(lists) + Shl(|l|, k)
    decreases |lists|
  {
    var n := |lists| - 1;
    var m := lists[k := l];
    if k == n {
      assert m[..n] == lists[..n];
    } else {
      FreeCountUpdate(lists[..n], k, l);
      assert m[..n] == lists[..n][k := l];
    }
  }

  lemma FreeCountPush(lists: seq<seq<nat>>, k: nat, p: nat)
    requires k < |lists|
    ensures FreeCount(lists[k := [p] + lists[k]]) == FreeCount(lists) + Pow2(k)
  {
    FreeCountUpdate(lists, k, [p] + lists[k]);
    ShlSucc(|lists[k]|, k);
  }

  lemma FreeCountDrop(lists: seq<seq<nat>>, k: nat, l: seq<nat>)
    requires k < |lists| && |l| == |lists[k]| - 1
    ensures FreeCount(lists[k := l]) == FreeCount(lists) - Pow2(k)
  {
    FreeCountUpdate(lists, k, l);
    ShlSucc(|l|, k);
  }
}
