/** What one leaf and a run of leaves do to the translation of the kernel's half,
    and the tables a region of the linear window takes. */
module KernelMap {
  import opened Arith
  import opened Wrappers
  import opened PageTable
  import opened PageWalk
  import opened PageMap
  import opened AddressSpace
  import opened Layout

  datatype BuildResult = Built | Unaligned | Failed(why: Status)

  ghost predicate Translates(x: Option<Xlat>, pa: int, attrs: LeafAttrs) {
    x.Some? && x.value.pa == pa && x.value.attrs == AttrBits(attrs)
  }

  lemma LeafInterval(base: nat, pa: nat, target: Level, attrs: LeafAttrs, va: Va)
    requires target != L0 && base % Span(target) == 0 && base < UPPER_HALF
    requires pa % Span(target) == 0 && pa + Span(target) <= VA_SPAN
    ensures if base <= Offset(va) < base + Span(target)
      then SameSlot(target, UpperVa(base), va)
        && Mapping(pa, target, attrs, va) == Xlat(pa + (Offset(va) - base), AttrBits(attrs), target)
      else !SameSlot(target, UpperVa(base), va)
  {
    SlotIsInterval(target, base, va);
    MappingOffset(pa, target, attrs, va);
  }

  /** Addresses with offset in [lo, hi) lead to the physical address `delta`
      away from their offset; all others translate as they did in `was`. */
  ghost predicate Painted(now: Tables, was: Tables, root: nat, lo: nat, hi: nat, delta: int, attrs: LeafAttrs) {
    forall va: Va ::
      if lo <= Offset(va) < hi then Translates(Walk(now, root, L0, va), Offset(va) + delta, attrs)
      else Walk(now, root, L0, va) == Walk(was, root, L0, va)
  }

  /** What one leaf at an aligned upper-half address paints. */
  lemma LeafPaints(now: Tables, was: Tables, root: nat, base: nat, pa: nat, target: Level, attrs: LeafAttrs)
    requires target != L0 && base % Span(target) == 0 && base < UPPER_HALF
    requires pa % Span(target) == 0 && pa + Span(target) <= VA_SPAN
    requires OneLeaf(now, was, root, UpperVa(base), pa, target, attrs)
    ensures Painted(now, was, root, base, base + Span(target), pa - base, attrs)
    ensures forall va: Va :: base <= Offset(va) < base + Span(target) ==>
      Walk(now, root, L0, va).Some? && Walk(now, root, L0, va).value.level == target
  {
    forall va: Va
      ensures if base <= Offset(va) < base + Span(target)
        then Translates(Walk(now, root, L0, va), Offset(va) + (pa - base), attrs)
          && Walk(now, root, L0, va).value.level == target
        else Walk(now, root, L0, va) == Walk(was, root, L0, va)
    {
      LeafInterval(base, pa, target, attrs, va);
    }
  }

  /** Two adjoining pieces painted with one displacement are one piece. */
  lemma PaintedTogether(now: Tables, mid: Tables, was: Tables, root: nat, lo: nat, at: nat, hi: nat, delta: int,
                        attrs: LeafAttrs)
    requires lo <= at <= hi && Painted(mid, was, root, lo, at, delta, attrs)
    requires Painted(now, mid, root, at, hi, delta, attrs)
    ensures Painted(now, was, root, lo, hi, delta, attrs)
  {
  }

  // ---------- tables a region needs ----------

  /** The level-1 table of the i-th 512 GiB, and the level-2 table of the g-th
      GiB, of the linear window. */
  function TableOf512G(i: nat): Node { Sub(Root, 0x100 + i) }
  function TableOfGiB(g: nat): Node { Sub(TableOf512G(g / 512), g % 512) }

  function Tables512G(lo: nat, hi: nat): set<Node> {
    set i: nat | lo <= i < hi :: TableOf512G(i)
  }

  /** One level-1 table for each 512 GiB touched, and two level-2 tables, for the
      GiB the region starts in and the GiB it ends in. */
  function RegionTables(base: nat, end: nat): set<Node>
    requires base < end
  {
    Tables512G(base / GIB512, (end - 1) / GIB512 + 1) + {TableOfGiB(base / GIB), TableOfGiB(end / GIB)}
  }

  lemma {:induction false} Tables512GSize(lo: nat, hi: nat)
    requires lo <= hi
    ensures |Tables512G(lo, hi)| <= hi - lo
    decreases hi - lo
  {
    if lo < hi {
      Tables512GSize(lo, hi - 1);
      assert Tables512G(lo, hi) == Tables512G(lo, hi - 1) + {TableOf512G(hi - 1)};
    } else {
      assert Tables512G(lo, hi) == {};
    }
  }

  /** However large the region, it takes at most two level-2 tables and one
      level-1 table per 512 GiB touched. */
  lemma RegionTablesFew(base: nat, end: nat)
    requires base < end
    ensures |RegionTables(base, end)| <= (end - 1) / GIB512 - base / GIB512 + 3
  {
    var a := Tables512G(base / GIB512, (end - 1) / GIB512 + 1);
    var b := {TableOfGiB(base / GIB), TableOfGiB(end / GIB)};
    DivMono(base, end - 1, GIB512);
    Tables512GSize(base / GIB512, (end - 1) / GIB512 + 1);
    assert |b| <= 2 by {
      assert b == {TableOfGiB(base / GIB)} + {TableOfGiB(end / GIB)};
    }
    UnionSize(a, b);
  }

  lemma UnionSize<T>(a: set<T>, b: set<T>)
    ensures |a + b| <= |a| + |b|
  {
  }

  lemma LinearTables(pa: nat)
    requires pa < LINEAR_SPAN
    ensures NodeOf(L1, UpperVa(pa)) == TableOf512G(pa / GIB512)
    ensures NodeOf(L2, UpperVa(pa)) == TableOfGiB(pa / GIB)
  {
    var va, x := UpperVa(pa), pa + KERNEL_LINEAR_BASE;
    DivModUnique(x, GIB512, pa / GIB512 + 0x1FF_FF00, pa % GIB512);
    DivModUnique(x, GIB, pa / GIB + 0x3_FFFE_0000, pa % GIB);
    DivModUnique(pa / GIB512 + 0x1FF_FF00, 512, 0xFFFF, pa / GIB512 + 0x100);
    DivDiv(pa, GIB, 512, GIB512);
    DivModUnique(pa / GIB + 0x3_FFFE_0000, 512, pa / GIB / 512 + 0x1FF_FF00, pa / GIB % 512);
  }

  // ---------- write xor execute ----------

  ghost predicate WriteXorExecute(now: Tables, root: nat) {
    forall va: Va :: Walk(now, root, L0, va).Some? ==>
      !(Writable(Walk(now, root, L0, va).value.attrs) && KernelExecutable(Walk(now, root, L0, va).value.attrs))
  }

  predicate HardAttrs(attrs: LeafAttrs) {
    attrs.execute == Kernel ==> attrs.access == KernelReadOnly || attrs.access == SharedReadOnly
  }

  lemma PaintKeepsWX(now: Tables, was: Tables, root: nat, lo: nat, hi: nat, delta: int, attrs: LeafAttrs)
    requires WriteXorExecute(was, root) && Painted(now, was, root, lo, hi, delta, attrs) && HardAttrs(attrs)
    ensures WriteXorExecute(now, root)
  {
    PermissionsDecode(attrs);
    forall va: Va | Walk(now, root, L0, va).Some?
      ensures !(Writable(Walk(now, root, L0, va).value.attrs) && KernelExecutable(Walk(now, root, L0, va).value.attrs))
    {
      assert lo <= Offset(va) < hi ==> Translates(Walk(now, root, L0, va), Offset(va) + delta, attrs);
    }
  }
}
