/** Size classes, where the objects of a page lie, and the order of a large
    request. */
module SlabLayout {
  import opened Arith
  import opened Bits
  import opened Wrappers

  const NR_CLASSES: nat := 9
  const CLASSES: seq<nat> := [8, 16, 32, 64, 128, 256, 512, 1024, 2048]

  function Need(size: nat, align: nat): nat { if size < align then align else size }

  /** The least class from i on that is large enough. */
  function FirstFit(need: nat, i: nat): Option<nat>
    decreases NR_CLASSES - i
  {
    if i >= NR_CLASSES then None
    else if CLASSES[i] >= need then Some(i)
    else FirstFit(need, i + 1)
  }

  function SizeClass(size: nat, align: nat): Option<nat> { FirstFit(Need(size, align), 0) }

  /** The class is the smallest that fits both size and alignment; there is none
      exactly when the request exceeds the largest class. */
  lemma SmallestFit(size: nat, align: nat)
    ensures var r := SizeClass(size, align);
      && (r.Some? ==> r.value < NR_CLASSES && size <= CLASSES[r.value] && align <= CLASSES[r.value])
      && (r.Some? ==> forall j :: 0 <= j < r.value ==> CLASSES[j] < Need(size, align))
      && (r.None? <==> Need(size, align) > 2048)
  {
    FirstFitFrom(Need(size, align), 0);
  }

  lemma {:induction false} FirstFitFrom(need: nat, i: nat)
    requires i <= NR_CLASSES && forall j :: 0 <= j < i ==> CLASSES[j] < need
    ensures var r := FirstFit(need, i);
      && (r.Some? ==> i <= r.value < NR_CLASSES && CLASSES[r.value] >= need)
      && (r.Some? ==> forall j :: 0 <= j < r.value ==> CLASSES[j] < need)
      && (r.None? <==> need > 2048)
    decreases NR_CLASSES - i
  {
    if i < NR_CLASSES && CLASSES[i] < need { FirstFitFrom(need, i + 1); }
    assert i == NR_CLASSES ==> CLASSES[8] < need;
  }

  method SizeClassIndex(size: nat, align: nat) returns (r: Option<nat>)
    ensures r == SizeClass(size, align)
  {
    var need, i := Need(size, align), 0;
    while i < |CLASSES|
      invariant 0 <= i <= NR_CLASSES && FirstFit(need, i) == SizeClass(size, align)
    {
      if CLASSES[i] >= need { return Some(i); }
      i := i + 1;
    }
    return None;
  }

  // ---------- slots of a page ----------

  function PerPage(i: nat): nat
    requires i < NR_CLASSES
  {
    PAGE_SIZE / CLASSES[i]
  }

  /** Where the k-th object of a page starts: k times the class size. */
  function SlotOffset(i: nat, k: nat): nat
    requires i < NR_CLASSES
  {
    if k == 0 then 0 else SlotOffset(i, k - 1) + CLASSES[i]
  }

  lemma {:induction false} SlotOffsetIsTimes(i: nat, k: nat)
    requires i < NR_CLASSES
    ensures SlotOffset(i, k) == k * CLASSES[i]
  {
    if k > 0 {
      SlotOffsetIsTimes(i, k - 1);
      Distribute(CLASSES[i], k - 1, 1);
    }
  }

  lemma {:induction false} SlotGap(i: nat, k: nat, l: nat)
    requires i < NR_CLASSES && k < l
    ensures SlotOffset(i, k) + CLASSES[i] <= SlotOffset(i, l)
    decreases l
  {
    if k < l - 1 { SlotGap(i, k, l - 1); }
  }

  /** The objects fill the page and do not run past it. */
  lemma PageFilled(i: nat)
    requires i < NR_CLASSES
    ensures PerPage(i) >= 1 && SlotOffset(i, PerPage(i)) == PAGE_SIZE
  {
    SlotOffsetIsTimes(i, PerPage(i));
  }

  lemma SlotInPage(i: nat, k: nat)
    requires i < NR_CLASSES && k < PerPage(i)
    ensures SlotOffset(i, k) + CLASSES[i] <= PAGE_SIZE
  {
    PageFilled(i);
    SlotGap(i, k, PerPage(i));
  }

  /** The address of frame p of the linear map, and of the k-th object in it. */
  function PageAddr(base: nat, p: nat): nat { base + p * PAGE_SIZE }

  function SlotAddr(base: nat, p: nat, i: nat, k: nat): nat
    requires i < NR_CLASSES
  {
    PageAddr(base, p) + SlotOffset(i, k)
  }

  /** Byte ranges [a, a + m) and [b, b + n) do not meet. */
  predicate ApartBytes(a: nat, m: nat, b: nat, n: nat) {
    a + m <= b || b + n <= a
  }

  lemma SlotsApart(base: nat, p: nat, i: nat, k: nat, q: nat, j: nat, l: nat)
    requires i < NR_CLASSES && j < NR_CLASSES && k < PerPage(i) && l < PerPage(j)
    requires (p, k) != (q, l) && (p == q ==> i == j)
    ensures ApartBytes(SlotAddr(base, p, i, k), CLASSES[i], SlotAddr(base, q, j, l), CLASSES[j])
  {
    SlotInPage(i, k);
    SlotInPage(j, l);
    if p == q {
      if k < l { SlotGap(i, k, l); } else { SlotGap(i, l, k); }
    }
  }

  // ---------- alignment ----------

  const PAGE_SHIFT: nat := 12

  lemma PageIsPow2()
    ensures PAGE_SIZE == Pow2(PAGE_SHIFT)
  {
  }

  lemma {:induction false} ClassIsPow2(i: nat)
    requires i < NR_CLASSES
    ensures CLASSES[i] == Pow2(i + 3)
  {
    if i > 0 {
      ClassIsPow2(i - 1);
      assert CLASSES[i] == 2 * CLASSES[i - 1];
    }
  }

  lemma {:induction false} SlotOffsetAligned(i: nat, k: nat)
    requires i < NR_CLASSES
    ensures Aligned(SlotOffset(i, k), i + 3)
    decreases k
  {
    if k > 0 {
      SlotOffsetAligned(i, k - 1);
      ClassIsPow2(i);
      AlignedStep(SlotOffset(i, k - 1), i + 3);
    } else {
      ZeroAligned(i + 3);
    }
  }

  lemma PageAddrAligned(base: nat, p: nat, o: nat, e: nat)
    requires Aligned(base, e) && e <= o + PAGE_SHIFT && Aligned(p, o)
    ensures Aligned(PageAddr(base, p), e)
  {
    PageIsPow2();
    ShlIsTimes(p, PAGE_SHIFT);
    AlignedShl(p, PAGE_SHIFT, o);
    AlignedDown(Shl(p, PAGE_SHIFT), e, o + PAGE_SHIFT);
    AlignedSum(base, p * PAGE_SIZE, e);
  }

  /** An object is aligned as asked, for any alignment its class is large enough for. */
  lemma SlotAligned(base: nat, p: nat, i: nat, k: nat, e: nat)
    requires i < NR_CLASSES && Aligned(base, PAGE_SHIFT) && Pow2(e) <= CLASSES[i]
    ensures Aligned(SlotAddr(base, p, i, k), e)
  {
    ClassIsPow2(i);
    if e > i + 3 { Pow2Strict(i + 3, e); }
    AlignedDown(base, i + 3, PAGE_SHIFT);
    PageAddrAligned(base, p, 0, i + 3);
    SlotOffsetAligned(i, k);
    AlignedSum(PageAddr(base, p), SlotOffset(i, k), i + 3);
    AlignedDown(SlotAddr(base, p, i, k), e, i + 3);
  }

  // ---------- large requests ----------

  /** Order of the page run for a large request. */
  function PagesOrder(size: nat): nat {
    TrailingZeros(Pow2(CeilLog2((size + PAGE_SIZE - 1) / PAGE_SIZE)))
  }

  /** It is the least order whose block holds the request. */
  lemma PagesOrderLeast(size: nat, k: nat)
    ensures size <= Pow2(k) * PAGE_SIZE <==> PagesOrder(size) <= k
  {
    var n := (size + PAGE_SIZE - 1) / PAGE_SIZE;
    TrailingZerosPow2(CeilLog2(n));
    CeilLog2Bound(n, k);
  }

  /** `large_alloc` never looks at the alignment. Every block it may be given, at
      a frame aligned to its order, is aligned to 2^e bytes exactly when the start
      of DRAM is and the block is at least that large; for e up to 12 that holds. */
  lemma LargeAligned(base: nat, o: nat, e: nat)
    ensures (forall p: nat :: Aligned(p, o) ==> Aligned(PageAddr(base, p), e)) <==>
      Aligned(base, e) && e <= o + PAGE_SHIFT
  {
    if Aligned(base, e) && e <= o + PAGE_SHIFT {
      forall p: nat | Aligned(p, o) ensures Aligned(PageAddr(base, p), e) { PageAddrAligned(base, p, o, e); }
    }
    if forall p: nat :: Aligned(p, o) ==> Aligned(PageAddr(base, p), e) {
      ZeroAligned(o);
      assert PageAddr(base, 0) == base;
      AlignedPow2(o, o);
      assert Aligned(PageAddr(base, Pow2(o)), e);
      PageIsPow2();
      Pow2Sum(o, PAGE_SHIFT);
      AlignedSum(base, Pow2(o + PAGE_SHIFT), e);
      AlignedPow2(o + PAGE_SHIFT, e);
    }
  }
}
