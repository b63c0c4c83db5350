/** Top-down placement in the holes of RAM, and the boot allocator itself: two
    fixed arrays of regions updated in place. */
module BootAllocator {
  import opened Arith
  import opened Wrappers
  import opened BootMem

  // ---------- placement ----------

  /** n frames from b on, b a multiple of align, inside one RAM region and clear
      of every reservation. */
  ghost predicate Fits(b: nat, n: nat, align: nat, mem: seq<Region>, rs: seq<Region>)
    requires align > 0
  {
    && b % align == 0
    && (exists i :: 0 <= i < |mem| && mem[i].base <= b && b + n <= mem[i].End())
    && (forall f :: b <= f < b + n ==> !InSome(f, rs))
  }

  /** The highest aligned base in a hole. */
  function Candidate(h: Region, n: nat, align: nat): Option<nat>
    requires align > 0
  {
    if h.frames < n then None
    else
      var top := h.End() - n;
      var cand := top - top % align;
      if cand >= h.base then Some(cand) else None
  }

  lemma CandidateIsHighest(h: Region, n: nat, align: nat)
    requires align > 0
    ensures var c := Candidate(h, n, align);
      && (c.Some? ==> c.value % align == 0 && h.base <= c.value && c.value + n <= h.End())
      && (forall x: nat :: x % align == 0 && h.base <= x && x + n <= h.End() ==> c.Some? && x <= c.value)
  {
    if h.frames >= n {
      var top := h.End() - n;
      var q := top / align;
      assert top - top % align == align * q;
      MultipleMod(align, q);
      forall x: nat | x % align == 0 && x <= top
        ensures x <= align * q
      {
        DivMono(x, top, align);
        MulMono(align, x / align, q);
      }
    }
  }

  /** The highest candidate of the holes: what `alloc` keeps as `best`. */
  function Best(hs: seq<Region>, n: nat, align: nat): Option<nat>
    requires align > 0
  {
    if hs == [] then None
    else
      var b, c := Best(hs[..|hs| - 1], n, align), Candidate(hs[|hs| - 1], n, align);
      if c.Some? && (b.None? || c.value > b.value) then c else b
  }

  ghost predicate InHole(b: nat, n: nat, hs: seq<Region>) {
    exists k :: 0 <= k < |hs| && hs[k].base <= b && b + n <= hs[k].End()
  }

  lemma {:induction false} BestIsHighest(hs: seq<Region>, n: nat, align: nat)
    requires align > 0
    ensures var b := Best(hs, n, align);
      && (b.Some? ==> b.value % align == 0 && InHole(b.value, n, hs))
      && (forall x: nat :: x % align == 0 && InHole(x, n, hs) ==> b.Some? && x <= b.value)
  {
    if hs != [] {
      var m := |hs| - 1;
      BestIsHighest(hs[..m], n, align);
      CandidateIsHighest(hs[m], n, align);
      forall x: nat
        ensures InHole(x, n, hs) <==> InHole(x, n, hs[..m]) || (hs[m].base <= x && x + n <= hs[m].End())
      {
        InHoleStep(x, n, hs);
      }
    }
  }

  lemma InHoleStep(x: nat, n: nat, hs: seq<Region>)
    requires hs != []
    ensures var m := |hs| - 1;
      InHole(x, n, hs) <==> InHole(x, n, hs[..m]) || (hs[m].base <= x && x + n <= hs[m].End())
  {
  }

  lemma {:induction false} HolesOfRegion(mem: seq<Region>, rs: seq<Region>, i: nat, k: nat)
    requires i < |mem| && k < |HolesIn(mem[i].base, mem[i].End(), rs)|
    ensures HolesIn(mem[i].base, mem[i].End(), rs)[k] in Holes(mem, rs)
  {
    var n := |mem| - 1;
    if i < n { HolesOfRegion(mem[..n], rs, i, k); }
  }

  /** A placement fits exactly when it lies in one hole. */
  lemma FitsIsInHole(b: nat, n: nat, align: nat, mem: seq<Region>, rs: seq<Region>)
    requires align > 0 && n > 0 && Sorted(rs) && AllOk(rs)
    ensures Fits(b, n, align, mem, rs) <==> b % align == 0 && InHole(b, n, Holes(mem, rs))
  {
    if Fits(b, n, align, mem, rs) {
      var i :| 0 <= i < |mem| && mem[i].base <= b && b + n <= mem[i].End();
      HoleAround(b, n, mem[i], rs);
      var hs := HolesIn(mem[i].base, mem[i].End(), rs);
      var k :| 0 <= k < |hs| && hs[k].base <= b && b + n <= hs[k].End();
      HolesOfRegion(mem, rs, i, k);
    }
    if InHole(b, n, Holes(mem, rs)) {
      var hs := Holes(mem, rs);
      var k :| 0 <= k < |hs| && hs[k].base <= b && b + n <= hs[k].End();
      HolesWithinRegions(mem, rs);
      var i :| 0 <= i < |mem| && Maximal(hs[k], mem[i].base, mem[i].End(), rs);
      assert mem[i].base <= b && b + n <= mem[i].End();
      forall f: int | b <= f < b + n
        ensures !InSome(f, rs)
      {
        assert In(f, hs[k]);
        HolesExact(mem, rs, f);
      }
    }
  }

  lemma HoleAround(b: nat, n: nat, m: Region, rs: seq<Region>)
    requires n > 0 && Sorted(rs) && AllOk(rs) && m.base <= b && b + n <= m.End()
    requires forall f :: b <= f < b + n ==> !InSome(f, rs)
    ensures InHole(b, n, HolesIn(m.base, m.End(), rs))
  {
    var hs := HolesIn(m.base, m.End(), rs);
    HolesInExact(m.base, m.End(), rs, b);
    HolesInMaximal(m.base, m.End(), rs);
    var k :| 0 <= k < |hs| && In(b, hs[k]);
    assert Maximal(hs[k], m.base, m.End(), rs);
    assert b + n <= hs[k].End();
  }

  /** The highest candidate is the highest placement that fits. */
  lemma BestFits(n: nat, align: nat, mem: seq<Region>, rs: seq<Region>)
    requires align > 0 && n > 0 && Sorted(rs) && AllOk(rs)
    ensures var b := Best(Holes(mem, rs), n, align);
      && (b.Some? ==> Fits(b.value, n, align, mem, rs))
      && (forall x: nat :: Fits(x, n, align, mem, rs) ==> b.Some? && x <= b.value)
  {
    var b := Best(Holes(mem, rs), n, align);
    BestIsHighest(Holes(mem, rs), n, align);
    if b.Some? { FitsIsInHole(b.value, n, align, mem, rs); }
    forall x: nat | Fits(x, n, align, mem, rs)
      ensures b.Some? && x <= b.value
    {
      FitsIsInHole(x, n, align, mem, rs);
    }
  }

  // ---------- bytes to frames ----------

  /** `reserve_bytes` rounds outward: it takes every frame that holds a byte. */
  function FramesTouched(basePa: nat, endPa: nat): (r: Region)
    requires basePa <= endPa
    ensures forall f: nat :: In(f, r) <==> f * PAGE_SIZE < endPa && basePa < (f + 1) * PAGE_SIZE
  {
    var base, end := basePa / PAGE_SIZE, (endPa + PAGE_SIZE - 1) / PAGE_SIZE;
    Region(base, end - base)
  }

  /** `add_memory_bytes` rounds inward: one region of every frame wholly inside,
      or none at all. */
  function FramesInside(basePa: nat, endPa: nat): (rs: seq<Region>)
    ensures |rs| <= 1 && (|rs| == 1 ==> rs[0].frames >= 1)
    ensures forall f: nat :: InSome(f, rs) <==> basePa <= f * PAGE_SIZE && (f + 1) * PAGE_SIZE <= endPa
  {
    var base, end := (basePa + PAGE_SIZE - 1) / PAGE_SIZE, endPa / PAGE_SIZE;
    var rs := if end > base then [Region(base, end - base)] else [];
    assert forall f: int :: end > base && base <= f < end ==> In(f, rs[0]);
    rs
  }

  // ---------- the allocator ----------

  /** What one round of the inner loop of `for_each_free` does to the holes still to come. */
  lemma HolesStep(holes: seq<Region>, cursor: nat, end: nat, rs: seq<Region>, j: nat)
    requires j < |rs|
    ensures var r, rest := rs[j], rs[j + 1..];
      if r.End() <= cursor || r.base >= end then
        holes + HolesIn(cursor, end, rs[j..]) == holes + HolesIn(cursor, end, rest)
      else
        holes + HolesIn(cursor, end, rs[j..]) ==
          (if r.base > cursor then holes + [Region(cursor, r.base - cursor)] else holes)
          + HolesIn(Max(cursor, r.End()), end, rest)
  {
  }

  datatype Placement = Placed(base: nat) | NoRoom | RegionsExhausted

  class BootMemory {
    const memory: array<Region>
    var nMemory: nat
    const reserved: array<Region>
    var nReserved: nat

    ghost predicate Valid()
      reads this, memory, reserved
    {
      && memory != reserved && memory.Length == reserved.Length == NR_REGIONS
      && nMemory <= NR_REGIONS && nReserved <= NR_REGIONS
      && AllOk(Memory()) && AllOk(Reserved()) && Sorted(Reserved())
    }

    ghost function Memory(): seq<Region>
      reads this, memory
      requires nMemory <= memory.Length
    {
      memory[..nMemory]
    }

    ghost function Reserved(): seq<Region>
      reads this, reserved
      requires nReserved <= reserved.Length
    {
      reserved[..nReserved]
    }

    constructor ()
      ensures Valid() && Memory() == [] && Reserved() == [] && fresh(memory) && fresh(reserved)
    {
      memory := new Region[NR_REGIONS](_ => Region(0, 0));
      reserved := new Region[NR_REGIONS](_ => Region(0, 0));
      nMemory, nReserved := 0, 0;
    }

    /** False stands for the panic "memory regions exhausted". */
    method AddMemory(r: Region) returns (ok: bool)
      requires Valid() && RegionOk(r)
      modifies this`nMemory, memory
      ensures Valid() && Reserved() == old(Reserved())
      ensures ok == (old(nMemory) < NR_REGIONS)
      ensures Memory() == if ok then old(Memory()) + [r] else old(Memory())
    {
      ok := nMemory < NR_REGIONS;
      if ok {
        memory[nMemory] := r;
        nMemory := nMemory + 1;
        assert Memory() == old(Memory()) + [r];
      }
    }

    method AddMemoryBytes(basePa: nat, endPa: nat) returns (ok: bool)
      requires Valid() && endPa <= PFN_MAX * PAGE_SIZE
      modifies this`nMemory, memory
      ensures Valid() && Reserved() == old(Reserved())
      ensures ok == (old(nMemory) + |FramesInside(basePa, endPa)| <= NR_REGIONS)
      ensures Memory() == if ok then old(Memory()) + FramesInside(basePa, endPa) else old(Memory())
    {
      var r := FramesInside(basePa, endPa);
      ok := true;
      if |r| == 1 { ok := AddMemory(r[0]); }
    }

    /** Insertion by shifting; false stands for "reserved regions exhausted". */
    method Reserve(r: Region) returns (ok: bool)
      requires Valid() && RegionOk(r)
      modifies this`nReserved, reserved
      ensures Valid() && Memory() == old(Memory())
      ensures ok == (old(nReserved) < NR_REGIONS)
      ensures Reserved() == if ok then Insert(old(Reserved()), r) else old(Reserved())
    {
      ok := nReserved < NR_REGIONS;
      if ok {
        ghost var before := reserved[..];
        InsertAllOk(Reserved(), r);
        var i := ShiftUp(r);
        reserved[i] := r;
        Shifted(before, reserved[..], nReserved, i, r);
        nReserved := nReserved + 1;
      }
    }

    /** Move the regions that start above r one place up. */
    method ShiftUp(r: Region) returns (i: nat)
      requires memory != reserved && reserved.Length == NR_REGIONS && nReserved < NR_REGIONS
      modifies reserved
      ensures i <= nReserved && Insert(old(Reserved()), r) == old(Reserved())[..i] + [r] + old(Reserved())[i..]
      ensures forall k :: 0 <= k < i ==> reserved[k] == old(reserved[k])
      ensures forall k :: i < k <= nReserved ==> reserved[k] == old(reserved[k - 1])
    {
      i := nReserved;
      while i > 0 && reserved[i - 1].base > r.base
        invariant 0 <= i <= nReserved
        invariant forall k :: 0 <= k < i ==> reserved[k] == old(reserved[k])
        invariant forall k :: i < k <= nReserved ==> reserved[k] == old(reserved[k - 1])
        invariant forall k :: i <= k < nReserved ==> old(reserved[k]).base > r.base
      {
        reserved[i] := reserved[i - 1];
        i := i - 1;
      }
      InsertAt(old(Reserved()), r, i);
    }

    method ReserveBytes(basePa: nat, endPa: nat) returns (ok: bool)
      requires Valid() && basePa <= endPa <= PFN_MAX * PAGE_SIZE && FramesTouched(basePa, endPa).frames >= 1
      modifies this`nReserved, reserved
      ensures Valid() && Memory() == old(Memory())
      ensures ok == (old(nReserved) < NR_REGIONS)
      ensures Reserved() == if ok then Insert(old(Reserved()), FramesTouched(basePa, endPa)) else old(Reserved())
    {
      ok := Reserve(FramesTouched(basePa, endPa));
    }

    /** The regions `for_each_free` hands to its callback, in order. */
    method ForEachFree() returns (holes: seq<Region>)
      requires Valid()
      ensures holes == Holes(Memory(), Reserved())
    {
      holes := [];
      var i := 0;
      while i < nMemory
        invariant 0 <= i <= nMemory && holes == Holes(Memory()[..i], Reserved())
      {
        var m := memory[i];
        var more := FreeIn(m);
        assert Memory()[..i + 1][..i] == Memory()[..i] && Memory()[..i + 1][i] == m;
        holes := holes + more;
        i := i + 1;
      }
      assert Memory()[..i] == Memory();
    }

    /** The inner loop: the holes of one RAM region. */
    method FreeIn(m: Region) returns (holes: seq<Region>)
      requires Valid()
      ensures holes == HolesIn(m.base, m.End(), Reserved())
    {
      holes := [];
      var cursor: nat := m.base;
      var j := 0;
      ghost var rs, goal := Reserved(), HolesIn(m.base, m.End(), Reserved());
      assert rs[0..] == rs;
      while j < nReserved
        invariant 0 <= j <= nReserved && holes + HolesIn(cursor, m.End(), rs[j..]) == goal
      {
        var r := reserved[j];
        HolesStep(holes, cursor, m.End(), rs, j);
        if !(r.End() <= cursor || r.base >= m.End()) {
          if r.base > cursor {
            holes := holes + [Region(cursor, r.base - cursor)];
          }
          cursor := Max(cursor, r.End());
        }
        j := j + 1;
      }
      if cursor < m.End() {
        holes := holes + [Region(cursor, m.End() - cursor)];
      }
    }

    /** Reserve n frames at the highest aligned place that fits. */
    method Alloc(n: nat, align: nat) returns (r: Placement)
      requires Valid() && n >= 1 && align >= 1
      modifies this`nReserved, reserved
      ensures Valid() && Memory() == old(Memory())
      ensures r.Placed? ==>
        && Fits(r.base, n, align, Memory(), old(Reserved()))
        && (forall x: nat :: Fits(x, n, align, Memory(), old(Reserved())) ==> x <= r.base)
        && Reserved() == Insert(old(Reserved()), Region(r.base, n))
      ensures r.NoRoom? <==> forall x: nat :: !Fits(x, n, align, Memory(), old(Reserved()))
      ensures r.NoRoom? || r.RegionsExhausted? ==> Reserved() == old(Reserved())
      ensures !r.NoRoom? ==> (r.RegionsExhausted? <==> old(nReserved) == NR_REGIONS)
    {
      var holes := ForEachFree();
      var best: Option<nat> := None;
      var k := 0;
      while k < |holes|
        invariant 0 <= k <= |holes| && best == Best(holes[..k], n, align)
      {
        var hole := holes[k];
        assert holes[..k + 1][..k] == holes[..k];
        if hole.frames >= n {
          var top := hole.End() - n;
          var cand := top - top % align;
          if cand >= hole.base && (best.None? || cand > best.value) {
            best := Some(cand);
          }
        }
        k := k + 1;
      }
      assert holes[..k] == holes;
      BestFits(n, align, Memory(), Reserved());
      if best.None? { return NoRoom; }
      PlacementOk(best.value, n, align, Memory(), Reserved());
      var ok := Reserve(Region(best.value, n));
      r := if ok then Placed(best.value) else RegionsExhausted;
    }

    /** The span of RAM, from the lowest frame to the highest; None stands for
        the panic "no memory regions". */
    method RamSpan() returns (r: Option<Region>)
      requires Valid()
      ensures r.None? <==> Memory() == []
      ensures r.Some? ==>
        && (forall i :: 0 <= i < |Memory()| ==> r.value.base <= Memory()[i].base && Memory()[i].End() <= r.value.End())
        && InSome(r.value.base, Memory()) && InSome(r.value.End() - 1, Memory())
    {
      if nMemory == 0 { return None; }
      var lo: nat, hi: nat := PFN_MAX, 0;
      ghost var first, last := 0, 0;
      var i := 0;
      while i < nMemory
        invariant 0 <= i <= nMemory && (i == 0 ==> lo == PFN_MAX && hi == 0)
        invariant forall k :: 0 <= k < i ==> lo <= memory[k].base && memory[k].End() <= hi
        invariant i > 0 ==> 0 <= first < i && 0 <= last < i && memory[first].base == lo && memory[last].End() == hi
      {
        assert Memory()[i] == memory[i] && RegionOk(memory[i]);
        if memory[i].base < lo { lo := memory[i].base; first := i; }
        if memory[i].End() > hi { hi := memory[i].End(); last := i; }
        i := i + 1;
      }
      assert RegionOk(Memory()[first]) && RegionOk(Memory()[last]);
      assert In(lo, Memory()[first]) && In(hi - 1, Memory()[last]);
      r := Some(Region(lo, hi - lo));
    }
  }

  lemma Shifted(a: seq<Region>, b: seq<Region>, n: nat, i: nat, r: Region)
    requires |a| == |b| && i <= n < |a| && b[i] == r
    requires forall k :: 0 <= k < i ==> b[k] == a[k]
    requires forall k :: i < k <= n ==> b[k] == a[k - 1]
    ensures b[..n + 1] == a[..n][..i] + [r] + a[..n][i..]
  {
  }

  lemma InsertAllOk(rs: seq<Region>, r: Region)
    requires AllOk(rs) && RegionOk(r) && Sorted(rs)
    ensures AllOk(Insert(rs, r)) && Sorted(Insert(rs, r))
  {
    InsertKeeps(rs, r);
    forall i | 0 <= i < |Insert(rs, r)| ensures RegionOk(Insert(rs, r)[i]) {
      assert Insert(rs, r)[i] in Insert(rs, r);
    }
  }

  lemma PlacementOk(b: nat, n: nat, align: nat, mem: seq<Region>, rs: seq<Region>)
    requires align > 0 && n > 0 && AllOk(mem) && Fits(b, n, align, mem, rs)
    ensures RegionOk(Region(b, n))
  {
  }
}
