/** The boot-time interval allocator: RAM regions, reservations kept sorted by
    base, the holes between them, and top-down aligned placement. */
module BootMem {
  const NR_REGIONS: nat := 128
  const PFN_MAX: nat := 0xFFFF_FFFF

  /** The frames [base, base + frames), in absolute frame numbers. */
  datatype Region = Region(base: nat, frames: nat) {
    function End(): nat { base + frames }
  }

  predicate In(f: int, r: Region) { r.base <= f < r.End() }

  ghost predicate InSome(f: int, rs: seq<Region>) {
    exists i :: 0 <= i < |rs| && In(f, rs[i])
  }

  /** Not empty, and its end is a frame number. */
  predicate RegionOk(r: Region) { r.frames >= 1 && r.End() <= PFN_MAX }

  ghost predicate AllOk(rs: seq<Region>) {
    forall i :: 0 <= i < |rs| ==> RegionOk(rs[i])
  }

  ghost predicate Sorted(rs: seq<Region>) {
    forall i, j :: 0 <= i < j < |rs| ==> rs[i].base <= rs[j].base
  }

  /** No frame belongs to two of the regions. */
  ghost predicate Apart(rs: seq<Region>) {
    forall i, j, f: int :: 0 <= i < j < |rs| && In(f, rs[i]) ==> !In(f, rs[j])
  }

  // ---------- inserting a reservation ----------

  /** Insert r after the regions that do not start above it. */
  function Insert(rs: seq<Region>, r: Region): seq<Region> {
    if rs == [] || rs[|rs| - 1].base <= r.base then rs + [r]
    else Insert(rs[..|rs| - 1], r) + [rs[|rs| - 1]]
  }

  lemma {:induction false} InsertAt(rs: seq<Region>, r: Region, i: nat)
    requires i <= |rs| && (i > 0 ==> rs[i - 1].base <= r.base)
    requires forall k :: i <= k < |rs| ==> rs[k].base > r.base
    ensures Insert(rs, r) == rs[..i] + [r] + rs[i..]
  {
    if i < |rs| {
      var n := |rs| - 1;
      InsertAt(rs[..n], r, i);
      assert rs[..n][..i] == rs[..i] && rs[..n][i..] + [rs[n]] == rs[i..];
    } else {
      assert rs[..i] == rs && rs[i..] == [];
    }
  }

  lemma {:induction false} InsertContents(rs: seq<Region>, r: Region)
    ensures multiset(Insert(rs, r)) == multiset(rs) + multiset{r} && |Insert(rs, r)| == |rs| + 1
  {
    if rs != [] && rs[|rs| - 1].base > r.base {
      var n := |rs| - 1;
      InsertContents(rs[..n], r);
      assert rs == rs[..n] + [rs[n]];
    }
  }

  lemma InsertFrom(rs: seq<Region>, r: Region, k: nat)
    requires k < |Insert(rs, r)|
    ensures Insert(rs, r)[k] == r || exists j :: 0 <= j < |rs| && rs[j] == Insert(rs, r)[k]
  {
  }

  lemma {:induction false} InsertSorted(rs: seq<Region>, r: Region)
    requires Sorted(rs)
    ensures Sorted(Insert(rs, r))
  {
    if rs != [] && rs[|rs| - 1].base > r.base {
      var n := |rs| - 1;
      InsertSorted(rs[..n], r);
      var front := Insert(rs[..n], r);
      forall k | 0 <= k < |front| ensures front[k].base <= rs[n].base {
        InsertFrom(rs[..n], r, k);
      }
    }
  }

  /** The new region goes behind those that start no higher, in front of the rest. */
  lemma {:induction false} InsertPlace(rs: seq<Region>, r: Region) returns (i: nat)
    requires Sorted(rs)
    ensures i <= |rs| && Insert(rs, r) == rs[..i] + [r] + rs[i..]
    ensures forall k :: 0 <= k < |rs| ==> (k < i <==> rs[k].base <= r.base)
  {
    i := |rs|;
    while i > 0 && rs[i - 1].base > r.base
      invariant 0 <= i <= |rs| && forall k :: i <= k < |rs| ==> rs[k].base > r.base
    {
      i := i - 1;
    }
    InsertAt(rs, r, i);
  }

  /** Inserting keeps the order by base and adds exactly the new region. */
  lemma InsertKeeps(rs: seq<Region>, r: Region)
    requires Sorted(rs)
    ensures Sorted(Insert(rs, r)) && multiset(Insert(rs, r)) == multiset(rs) + multiset{r}
    ensures forall x :: x in Insert(rs, r) ==> x in rs || x == r
  {
    InsertSorted(rs, r);
    InsertContents(rs, r);
    forall x | x in Insert(rs, r) ensures x in rs || x == r {
      var k :| 0 <= k < |Insert(rs, r)| && Insert(rs, r)[k] == x;
      InsertFrom(rs, r, k);
    }
  }

  lemma InsertCovers(rs: seq<Region>, r: Region, f: int)
    requires Sorted(rs)
    ensures InSome(f, Insert(rs, r)) <==> InSome(f, rs) || In(f, r)
  {
    InsertKeeps(rs, r);
    var rs' := Insert(rs, r);
    if InSome(f, rs) {
      var i :| 0 <= i < |rs| && In(f, rs[i]);
      assert rs[i] in multiset(rs');
      var j :| 0 <= j < |rs'| && rs'[j] == rs[i];
    }
    if In(f, r) {
      assert r in multiset(rs');
      var j :| 0 <= j < |rs'| && rs'[j] == r;
    }
    if InSome(f, rs') {
      var j :| 0 <= j < |rs'| && In(f, rs'[j]);
      assert rs'[j] in rs || rs'[j] == r;
    }
  }

  // ---------- holes ----------

  function Max(a: nat, b: nat): nat { if a < b then b else a }

  /** What is left of [cursor, end) between the reservations, front to back. */
  function HolesIn(cursor: nat, end: nat, rs: seq<Region>): seq<Region>
    decreases |rs|
  {
    if rs == [] then (if cursor < end then [Region(cursor, end - cursor)] else [])
    else if rs[0].End() <= cursor || rs[0].base >= end then HolesIn(cursor, end, rs[1..])
    else
      (if rs[0].base > cursor then [Region(cursor, rs[0].base - cursor)] else [])
      + HolesIn(Max(cursor, rs[0].End()), end, rs[1..])
  }

  /** The holes of all RAM regions, region by region. */
  function Holes(mem: seq<Region>, rs: seq<Region>): seq<Region> {
    if mem == [] then []
    else Holes(mem[..|mem| - 1], rs) + HolesIn(mem[|mem| - 1].base, mem[|mem| - 1].End(), rs)
  }

  lemma InSomeConcat(f: int, a: seq<Region>, b: seq<Region>)
    ensures InSome(f, a + b) <==> InSome(f, a) || InSome(f, b)
  {
    if InSome(f, a) { var i :| 0 <= i < |a| && In(f, a[i]); assert In(f, (a + b)[i]); }
    if InSome(f, b) { var i :| 0 <= i < |b| && In(f, b[i]); assert In(f, (a + b)[|a| + i]); }
    if InSome(f, a + b) {
      var i :| 0 <= i < |a + b| && In(f, (a + b)[i]);
      if i < |a| { assert In(f, a[i]); } else { assert In(f, b[i - |a|]); }
    }
  }

  lemma InSomeTail(f: int, rs: seq<Region>)
    requires rs != []
    ensures InSome(f, rs) <==> In(f, rs[0]) || InSome(f, rs[1..])
  {
  }

  lemma InSomeLast(f: int, rs: seq<Region>)
    requires rs != []
    ensures var n := |rs| - 1; InSome(f, rs) <==> InSome(f, rs[..n]) || In(f, rs[n])
  {
  }

  lemma AboveAllReserved(f: int, rs: seq<Region>)
    requires Sorted(rs) && rs != [] && f < rs[0].base
    ensures !InSome(f, rs)
  {
  }

  /** The holes are exactly the frames of [cursor, end) that are not reserved. */
  lemma {:induction false} HolesInExact(cursor: nat, end: nat, rs: seq<Region>, f: int)
    requires Sorted(rs)
    ensures InSome(f, HolesIn(cursor, end, rs)) <==> cursor <= f < end && !InSome(f, rs)
    decreases |rs|
  {
    if rs == [] {
      if cursor < end && cursor <= f < end { assert In(f, HolesIn(cursor, end, rs)[0]); }
    } else {
      var r := rs[0];
      InSomeTail(f, rs);
      if r.End() <= cursor || r.base >= end {
        HolesInExact(cursor, end, rs[1..], f);
      } else {
        var first := if r.base > cursor then [Region(cursor, r.base - cursor)] else [];
        HolesInExact(Max(cursor, r.End()), end, rs[1..], f);
        InSomeConcat(f, first, HolesIn(Max(cursor, r.End()), end, rs[1..]));
        assert InSome(f, first) <==> cursor <= f < r.base by {
          if cursor <= f < r.base { assert In(f, first[0]); }
        }
        if f < r.base { AboveAllReserved(f, rs); }
      }
    }
  }

  /** A hole is not empty and cannot be made larger: it ends at an end of the
      range or next to a reserved frame. */
  ghost predicate Maximal(h: Region, cursor: nat, end: nat, rs: seq<Region>) {
    && cursor <= h.base && h.frames >= 1 && h.End() <= end
    && (h.base == cursor || InSome(h.base - 1, rs)) && (h.End() == end || InSome(h.End(), rs))
  }

  ghost predicate Ascending(hs: seq<Region>) {
    forall i, j :: 0 <= i < j < |hs| ==> hs[i].End() < hs[j].base
  }

  /** Ascending maximal holes, with a reserved frame between any two. */
  ghost predicate GoodHoles(hs: seq<Region>, cursor: nat, end: nat, rs: seq<Region>) {
    Ascending(hs) && forall i :: 0 <= i < |hs| ==> Maximal(hs[i], cursor, end, rs)
  }

  lemma GoodHolesWiden(hs: seq<Region>, cursor: nat, next: nat, end: nat, rs: seq<Region>)
    requires rs != [] && GoodHoles(hs, next, end, rs[1..]) && cursor <= next && (next == cursor || In(next - 1, rs[0]))
    ensures GoodHoles(hs, cursor, end, rs)
  {
  }

  lemma GoodHolesPrepend(h: Region, hs: seq<Region>, cursor: nat, end: nat, rs: seq<Region>)
    requires Maximal(h, cursor, end, rs) && GoodHoles(hs, cursor, end, rs)
    requires forall i :: 0 <= i < |hs| ==> h.End() < hs[i].base
    ensures GoodHoles([h] + hs, cursor, end, rs)
  {
  }

  lemma {:induction false} HolesInMaximal(cursor: nat, end: nat, rs: seq<Region>)
    requires Sorted(rs) && AllOk(rs)
    ensures GoodHoles(HolesIn(cursor, end, rs), cursor, end, rs)
    decreases |rs|
  {
    if rs != [] {
      var r := rs[0];
      if r.End() <= cursor || r.base >= end {
        HolesInMaximal(cursor, end, rs[1..]);
        GoodHolesWiden(HolesIn(cursor, end, rs[1..]), cursor, cursor, end, rs);
      } else {
        var next := r.End();
        var rest := HolesIn(next, end, rs[1..]);
        HolesInMaximal(next, end, rs[1..]);
        GoodHolesWiden(rest, cursor, next, end, rs);
        if r.base > cursor {
          InSomeTail(r.base, rs);
          assert forall i :: 0 <= i < |rest| ==> Maximal(rest[i], next, end, rs[1..]);
          GoodHolesPrepend(Region(cursor, r.base - cursor), rest, cursor, end, rs);
        }
      }
    }
  }

  // ---------- all of RAM ----------

  lemma {:induction false} HolesExact(mem: seq<Region>, rs: seq<Region>, f: int)
    requires Sorted(rs)
    ensures InSome(f, Holes(mem, rs)) <==> InSome(f, mem) && !InSome(f, rs)
  {
    if mem != [] {
      var n := |mem| - 1;
      HolesExact(mem[..n], rs, f);
      HolesInExact(mem[n].base, mem[n].End(), rs, f);
      InSomeConcat(f, Holes(mem[..n], rs), HolesIn(mem[n].base, mem[n].End(), rs));
      InSomeLast(f, mem);
    }
  }

  /** Each hole lies in one RAM region and is maximal there. */
  ghost predicate HoleOf(h: Region, mem: seq<Region>, rs: seq<Region>) {
    exists i :: 0 <= i < |mem| && Maximal(h, mem[i].base, mem[i].End(), rs)
  }

  lemma {:induction false} HolesWithinRegions(mem: seq<Region>, rs: seq<Region>)
    requires Sorted(rs) && AllOk(rs)
    ensures forall k :: 0 <= k < |Holes(mem, rs)| ==> HoleOf(Holes(mem, rs)[k], mem, rs)
  {
    if mem != [] {
      var n := |mem| - 1;
      var front, back := Holes(mem[..n], rs), HolesIn(mem[n].base, mem[n].End(), rs);
      HolesWithinRegions(mem[..n], rs);
      HolesInMaximal(mem[n].base, mem[n].End(), rs);
      forall k | 0 <= k < |Holes(mem, rs)|
        ensures HoleOf(Holes(mem, rs)[k], mem, rs)
      {
        if k < |front| {
          var i :| 0 <= i < n && Maximal(front[k], mem[..n][i].base, mem[..n][i].End(), rs);
          assert Maximal(front[k], mem[i].base, mem[i].End(), rs);
        } else {
          assert Maximal(back[k - |front|], mem[n].base, mem[n].End(), rs);
        }
      }
    }
  }

  /** A frame that belongs to two RAM regions is reserved. */
  ghost predicate ApartOutside(mem: seq<Region>, rs: seq<Region>) {
    forall i, j, f: int :: 0 <= i < j < |mem| && In(f, mem[i]) && In(f, mem[j]) ==> InSome(f, rs)
  }

  /** The holes of one region and those of the regions before it share a frame
      exactly when the regions share one that is not reserved. */
  ghost predicate Meet(mem: seq<Region>, n: nat, rs: seq<Region>)
    requires n < |mem|
  {
    exists i, f: int :: 0 <= i < n && In(f, mem[i]) && In(f, mem[n]) && !InSome(f, rs)
  }

  lemma MeetInHoles(mem: seq<Region>, n: nat, rs: seq<Region>)
    requires n < |mem| && Sorted(rs)
    ensures var front, back := Holes(mem[..n], rs), HolesIn(mem[n].base, mem[n].End(), rs);
      Meet(mem, n, rs) <==> exists f: int :: InSome(f, front) && InSome(f, back)
  {
    var front, back := Holes(mem[..n], rs), HolesIn(mem[n].base, mem[n].End(), rs);
    forall f: int
      ensures InSome(f, front) && InSome(f, back) <==> InSome(f, mem[..n]) && In(f, mem[n]) && !InSome(f, rs)
    {
      HolesExact(mem[..n], rs, f);
      HolesInExact(mem[n].base, mem[n].End(), rs, f);
    }
    if Meet(mem, n, rs) {
      var i, f: int :| 0 <= i < n && In(f, mem[i]) && In(f, mem[n]) && !InSome(f, rs);
      assert In(f, mem[..n][i]);
      assert InSome(f, front) && InSome(f, back);
    }
    if f: int :| InSome(f, front) && InSome(f, back) {
      var i :| 0 <= i < n && In(f, mem[..n][i]);
      assert In(f, mem[i]);
    }
  }

  /** No frame is handed out twice by `for_each_free` exactly when every frame
      that two RAM regions share is reserved. */
  lemma {:induction false} HolesApart(mem: seq<Region>, rs: seq<Region>)
    requires Sorted(rs) && AllOk(rs)
    ensures Apart(Holes(mem, rs)) <==> ApartOutside(mem, rs)
  {
    if mem != [] {
      var n := |mem| - 1;
      HolesApart(mem[..n], rs);
      HolesInMaximal(mem[n].base, mem[n].End(), rs);
      MeetInHoles(mem, n, rs);
      ApartConcat(Holes(mem[..n], rs), HolesIn(mem[n].base, mem[n].End(), rs));
      ApartOutsideStep(mem, rs);
    }
  }

  lemma ApartOutsideStep(mem: seq<Region>, rs: seq<Region>)
    requires mem != []
    ensures var n := |mem| - 1; ApartOutside(mem, rs) <==> ApartOutside(mem[..n], rs) && !Meet(mem, n, rs)
  {
  }

  lemma ApartConcat(a: seq<Region>, b: seq<Region>)
    requires Ascending(b)
    ensures Apart(a + b) <==> Apart(a) && !exists f: int :: InSome(f, a) && InSome(f, b)
  {
    var c := a + b;
    if Apart(a) && !exists f: int :: InSome(f, a) && InSome(f, b) {
      forall i, j, f: int | 0 <= i < j < |c| && In(f, c[i])
        ensures !In(f, c[j])
      {
        if j < |a| {
          assert In(f, a[i]);
        } else if i < |a| {
          assert InSome(f, a) && c[j] == b[j - |a|];
        } else {
          assert b[i - |a|].End() < b[j - |a|].base;
        }
      }
    }
    if Apart(c) {
      forall i, j, f: int | 0 <= i < j < |a| && In(f, a[i])
        ensures !In(f, a[j])
      {
        assert In(f, c[i]) && c[j] == a[j];
      }
      forall i, j, f: int | 0 <= i < |a| && 0 <= j < |b| && In(f, a[i])
        ensures !In(f, b[j])
      {
        assert In(f, c[i]) && c[|a| + j] == b[j];
      }
    }
  }
}
