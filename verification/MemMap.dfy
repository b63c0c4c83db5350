/** The mem-map: one descriptor per frame, with the links of the free lists
    kept inside the descriptors of the free heads. `Rep` says which mem-map
    represents a state of the model; the lemmas follow the writes the code
    makes, one linked-list update at a time. */
module MemMap {
  import opened Bits
  import opened Wrappers
  import opened M = BuddyModel
  import opened BuddySteps

  /** The link value for "no frame", `u32::MAX`. */
  const RAW_NONE: nat := 0xFFFF_FFFF

  datatype PageState = Reserved | Free | Allocated | Tail

  datatype PageInfo = PageInfo(next: nat, prev: nat, order: nat, state: PageState) {
    function MarkFree(k: nat): PageInfo { this.(state := Free, order := k) }
    function MarkAllocated(k: nat): PageInfo { PageInfo(RAW_NONE, RAW_NONE, k, Allocated) }
    function MarkTail(): PageInfo { PageInfo(RAW_NONE, RAW_NONE, order, Tail) }
    function MarkReserved(): PageInfo { PageInfo(RAW_NONE, RAW_NONE, order, Reserved) }

    predicate Unlinked() { next == RAW_NONE && prev == RAW_NONE }
  }

  function Raw(link: Option<nat>): nat {
    if link.Some? then link.value else RAW_NONE
  }

  function Link(raw: nat): Option<nat> {
    if raw == RAW_NONE then None else Some(raw)
  }

  // ---------- the linked lists ----------

  function NextOf(l: seq<nat>, i: nat): nat
    requires i < |l|
  {
    if i + 1 < |l| then l[i + 1] else RAW_NONE
  }

  function PrevOf(l: seq<nat>, i: nat): nat
    requires i < |l|
  {
    if i > 0 then l[i - 1] else RAW_NONE
  }

  predicate NodeOk(pages: seq<PageInfo>, l: seq<nat>, i: nat, k: nat)
    requires i < |l|
  {
    l[i] < |pages| && l[i] < RAW_NONE && pages[l[i]] == PageInfo(NextOf(l, i), PrevOf(l, i), k, Free)
  }

  /** Following `next` from the head of each area visits exactly the blocks of
      its list in order, and `prev` leads back. */
  ghost predicate Linked(pages: seq<PageInfo>, area: seq<Option<nat>>, lists: seq<seq<nat>>) {
    && |area| == |lists| == MAX_ORDER
    && (forall k: nat :: k < MAX_ORDER ==> area[k] == HeadOf(lists[k]) && NoDup(lists[k]))
    && (forall k: nat, i: nat :: k < MAX_ORDER && i < |lists[k]| ==> NodeOk(pages, lists[k], i, k))
  }

  /** The writes of `push_front`. */
  function PushPages(pages: seq<PageInfo>, head: Option<nat>, p: nat): seq<PageInfo>
    requires p < |pages| && (head.Some? ==> head.value < |pages|)
  {
    var linked := pages[p := pages[p].(prev := RAW_NONE, next := Raw(head))];
    if head.Some? then linked[head.value := linked[head.value].(prev := p)] else linked
  }

  /** The writes of `unlink`. */
  function UnlinkPages(pages: seq<PageInfo>, p: nat): seq<PageInfo>
    requires p < |pages|
    requires Link(pages[p].prev).Some? ==> pages[p].prev < |pages|
    requires Link(pages[p].next).Some? ==> pages[p].next < |pages|
  {
    var prev, next := pages[p].prev, pages[p].next;
    var spliced := if Link(prev).Some? then pages[prev := pages[prev].(next := next)] else pages;
    if Link(next).Some? then spliced[next := spliced[next].(prev := prev)] else spliced
  }

  function UnlinkArea(area: seq<Option<nat>>, k: nat, page: PageInfo): seq<Option<nat>>
    requires k < |area|
  {
    if Link(page.prev).None? then area[k := Link(page.next)] else area
  }

  lemma ListsDisjoint(pages: seq<PageInfo>, area: seq<Option<nat>>, lists: seq<seq<nat>>, j: nat, k: nat)
    requires Linked(pages, area, lists) && j < MAX_ORDER && k < MAX_ORDER && j != k
    ensures forall p :: p in lists[j] ==> p !in lists[k]
  {
    forall i: nat, i': nat | i < |lists[j]| && i' < |lists[k]|
      ensures lists[j][i] != lists[k][i']
    {
      assert NodeOk(pages, lists[j], i, j) && NodeOk(pages, lists[k], i', k);
    }
  }

  lemma PushLinked(pages: seq<PageInfo>, area: seq<Option<nat>>, lists: seq<seq<nat>>, k: nat, p: nat)
    requires Linked(pages, area, lists) && k < MAX_ORDER && p < |pages| && p < RAW_NONE
    requires pages[p].state == Free && pages[p].order == k
    requires forall j: nat :: j < MAX_ORDER ==> p !in lists[j]
    ensures area[k].Some? ==> area[k].value < |pages|
    ensures Linked(PushPages(pages, area[k], p), area[k := Some(p)], lists[k := [p] + lists[k]])
    ensures forall q: nat :: q < |pages| && q != p && q !in lists[k] ==> PushPages(pages, area[k], p)[q] == pages[q]
  {
    var l, lists' := lists[k], lists[k := [p] + lists[k]];
    if l != [] { assert NodeOk(pages, l, 0, k); }
    var pages' := PushPages(pages, area[k], p);
    var area' := area[k := Some(p)];
    forall j: nat, i: nat | j < MAX_ORDER && i < |lists'[j]|
      ensures NodeOk(pages', lists'[j], i, j)
    {
      if j == k {
        if i > 0 { assert NodeOk(pages, l, i - 1, k); }
      } else {
        assert NodeOk(pages, lists[j], i, j);
        ListsDisjoint(pages, area, lists, j, k);
      }
    }
  }

  lemma UnlinkLinked(pages: seq<PageInfo>, area: seq<Option<nat>>, lists: seq<seq<nat>>, k: nat, i: nat)
    requires Linked(pages, area, lists) && k < MAX_ORDER && i < |lists[k]|
    ensures var p := lists[k][i];
      && p < |pages|
      && (Link(pages[p].prev).Some? ==> pages[p].prev < |pages|)
      && (Link(pages[p].next).Some? ==> pages[p].next < |pages|)
      && Linked(UnlinkPages(pages, p), UnlinkArea(area, k, pages[p]), lists[k := Remove(lists[k], p)])
      && (forall q: nat :: q < |pages| && q !in lists[k] ==> UnlinkPages(pages, p)[q] == pages[q])
  {
    var l := lists[k];
    var p := l[i];
    assert NodeOk(pages, l, i, k);
    if i > 0 { assert NodeOk(pages, l, i - 1, k); }
    if i + 1 < |l| { assert NodeOk(pages, l, i + 1, k); }
    var r := l[..i] + l[i + 1..];
    RemoveIsSplice(l, i);
    RemoveMembers(l, p);
    var lists' := lists[k := r];
    var pages', area' := UnlinkPages(pages, p), UnlinkArea(area, k, pages[p]);
    forall j: nat, n: nat | j < MAX_ORDER && n < |lists'[j]|
      ensures NodeOk(pages', lists'[j], n, j)
    {
      if j == k {
        UnlinkedNode(pages, l, i, n, k);
      } else {
        assert NodeOk(pages, lists[j], n, j);
        ListsDisjoint(pages, area, lists, j, k);
      }
    }
  }

  lemma UnlinkedNode(pages: seq<PageInfo>, l: seq<nat>, i: nat, n: nat, k: nat)
    requires NoDup(l) && i < |l| && n < |l| - 1
    requires forall m: nat :: m < |l| ==> NodeOk(pages, l, m, k)
    ensures l[i] < |pages|
    ensures Link(pages[l[i]].prev).Some? ==> pages[l[i]].prev < |pages|
    ensures Link(pages[l[i]].next).Some? ==> pages[l[i]].next < |pages|
    ensures NodeOk(UnlinkPages(pages, l[i]), l[..i] + l[i + 1..], n, k)
  {
    assert NodeOk(pages, l, i, k);
    if i > 0 { assert NodeOk(pages, l, i - 1, k); }
    if i + 1 < |l| { assert NodeOk(pages, l, i + 1, k); }
    var m := if n < i then n else n + 1;
    assert NodeOk(pages, l, m, k);
    assert (l[..i] + l[i + 1..])[n] == l[m];
  }

  // ---------- which mem-map represents which state ----------

  /** The descriptor of a frame that is not on a free list. */
  ghost predicate PageOk(page: PageInfo, s: State, p: nat) {
    && (p in s.live ==> page == PageInfo(RAW_NONE, RAW_NONE, s.live[p], Allocated))
    && (p in s.reserved ==> page.state == Reserved && page.Unlinked())
    && (p !in s.live && p !in s.reserved && (forall k: nat :: !FreeBlock(s, p, k)) ==>
          page.state == Tail && page.Unlinked())
  }

  /** The mem-map stands for s, except at the frame an operation has in hand. */
  ghost predicate Rep(pages: seq<PageInfo>, area: seq<Option<nat>>, s: State, held: Option<nat>) {
    && s.nr <= |pages| && s.nr <= RAW_NONE
    && Linked(pages, area, s.lists)
    && (forall p: nat :: p < s.nr && Some(p) != held ==> PageOk(pages[p], s, p))
  }

  lemma FreeMeansListed(pages: seq<PageInfo>, area: seq<Option<nat>>, s: State, held: Option<nat>, p: nat, k: nat)
    requires WF(s) && Rep(pages, area, s, held) && p < s.nr && Some(p) != held
    ensures pages[p].state == Free && pages[p].order == k <==> FreeBlock(s, p, k)
  {
    assert PageOk(pages[p], s, p);
    if j: nat :| FreeBlock(s, p, j) {
      var i :| 0 <= i < |s.lists[j]| && s.lists[j][i] == p;
      assert NodeOk(pages, s.lists[j], i, j);
      assert IsBlock(s, p, j);
      assert FreeBlock(s, p, k) ==> IsBlock(s, p, k);
    }
  }

  /** `pop_front` of list k. */
  lemma RepTake(pages: seq<PageInfo>, area: seq<Option<nat>>, s: State, k: nat)
    requires WF(s) && Rep(pages, area, s, None) && k < MAX_ORDER && s.lists[k] != []
    ensures var b := s.lists[k][0];
      && b < s.nr && area[k] == Some(b)
      && (Link(pages[b].prev).Some? ==> pages[b].prev < |pages|)
      && (Link(pages[b].next).Some? ==> pages[b].next < |pages|)
      && Rep(UnlinkPages(pages, b), UnlinkArea(area, k, pages[b]), Take(s, k), Some(b))
  {
    var b, t := s.lists[k][0], Take(s, k);
    TakeBlocks(s, k);
    assert IsBlock(s, b, k);
    UnlinkLinked(pages, area, s.lists, k, 0);
    assert Remove(s.lists[k], b) == s.lists[k][1..];
    var pages' := UnlinkPages(pages, b);
    forall p: nat | p < s.nr && p != b
      ensures PageOk(pages'[p], t, p)
    {
      assert PageOk(pages[p], s, p);
      assert p in s.lists[k] ==> FreeBlock(t, p, k) by { assert p in s.lists[k] ==> FreeBlock(s, p, k); }
      assert forall j: nat :: FreeBlock(t, p, j) <==> FreeBlock(s, p, j);
      assert FreeBlock(s, p, k) ==> p !in s.live && p !in s.reserved by { ListedFrame(s, p, k); }
    }
  }

  lemma ListedFrame(s: State, p: nat, k: nat)
    requires WF(s)
    ensures FreeBlock(s, p, k) ==> p !in s.live && p !in s.reserved && p < s.nr
  {
    assert FreeBlock(s, p, k) ==> IsBlock(s, p, k) && InBlock(p, p, k);
  }

  /** `mark_free` and `push_front` of a frame p that was not on any list: t is s
      with p pushed on list k, and nothing else about the other frames changed. */
  lemma RepPush(pages: seq<PageInfo>, area: seq<Option<nat>>, s: State, t: State, held: Option<nat>,
                held': Option<nat>, p: nat, k: nat)
    requires WF(s) && Rep(pages, area, s, held) && k < MAX_ORDER && p < s.nr
    requires forall j: nat :: !FreeBlock(s, p, j)
    requires WF(t) && t.nr == s.nr && t.lists == s.lists[k := [p] + s.lists[k]]
    requires forall q: nat :: q < s.nr && q != p && Some(q) != held' ==>
      Some(q) != held && (q in t.live <==> q in s.live) && (q in t.live ==> t.live[q] == s.live[q])
      && (q in t.reserved <==> q in s.reserved)
    ensures area[k].Some? ==> area[k].value < |pages|
    ensures Rep(PushPages(pages[p := pages[p].MarkFree(k)], area[k], p), area[k := Some(p)], t, held')
  {
    var marked := pages[p := pages[p].MarkFree(k)];
    assert Linked(marked, area, s.lists) by {
      forall j: nat, i: nat | j < MAX_ORDER && i < |s.lists[j]|
        ensures NodeOk(marked, s.lists[j], i, j)
      {
        assert NodeOk(pages, s.lists[j], i, j) && FreeBlock(s, s.lists[j][i], j);
      }
    }
    assert forall j: nat :: j < MAX_ORDER ==> p !in s.lists[j] by {
      forall j: nat | j < MAX_ORDER ensures p !in s.lists[j] { assert !FreeBlock(s, p, j); }
    }
    PushLinked(marked, area, s.lists, k, p);
    var pages' := PushPages(marked, area[k], p);
    forall q: nat | q < s.nr && Some(q) != held'
      ensures PageOk(pages'[q], t, q)
    {
      if q == p {
        assert FreeBlock(t, p, k);
        ListedFrame(t, p, k);
      } else {
        assert PageOk(pages[q], s, q);
        assert forall j: nat :: FreeBlock(t, q, j) <==> FreeBlock(s, q, j);
        ListedFrame(s, q, k);
        assert q in s.lists[k] <==> FreeBlock(s, q, k);
      }
    }
  }

  /** The split loop of `alloc`: the upper half of the held block goes on its list. */
  lemma RepSplit(pages: seq<PageInfo>, area: seq<Option<nat>>, s: State, b: nat)
    requires WF(s) && Holds(s, b) && s.live[b] > 0 && Rep(pages, area, s, Some(b))
    ensures var k := s.live[b] - 1; var u := b + Pow2(k);
      && u < s.nr && (area[k].Some? ==> area[k].value < |pages|)
      && Rep(PushPages(pages[u := pages[u].MarkFree(k)], area[k], u), area[k := Some(u)], SplitStep(s, b), Some(b))
  {
    var k := s.live[b] - 1;
    var u := b + Pow2(k);
    SplitWF(s, b);
    SplitBlocks(s, b);
    assert IsBlock(s, b, k + 1);
    forall j: nat ensures !FreeBlock(s, u, j) {
      assert FreeBlock(s, u, j) ==> IsBlock(s, u, j);
    }
    RepPush(pages, area, s, SplitStep(s, b), Some(b), Some(b), u, k);
  }

  /** `mark_allocated` of the held block. */
  lemma RepAllocated(pages: seq<PageInfo>, area: seq<Option<nat>>, s: State, b: nat)
    requires WF(s) && Holds(s, b) && Rep(pages, area, s, Some(b))
    ensures b < s.nr && Rep(pages[b := pages[b].MarkAllocated(s.live[b])], area, s, None)
  {
    assert IsBlock(s, b, s.live[b]);
    var pages' := pages[b := pages[b].MarkAllocated(s.live[b])];
    KeepsLinks(pages, pages', area, s, b);
    assert InBlock(b, b, s.live[b]);
    forall p: nat | p < s.nr
      ensures PageOk(pages'[p], s, p)
    {
      assert p != b ==> PageOk(pages[p], s, p);
    }
  }

  lemma KeepsLinks(pages: seq<PageInfo>, pages': seq<PageInfo>, area: seq<Option<nat>>, s: State, b: nat)
    requires Linked(pages, area, s.lists) && |pages'| == |pages|
    requires forall q: nat :: q < |pages| && q != b ==> pages'[q] == pages[q]
    requires forall j: nat :: !FreeBlock(s, b, j)
    ensures Linked(pages', area, s.lists)
  {
    forall j: nat, i: nat | j < MAX_ORDER && i < |s.lists[j]|
      ensures NodeOk(pages', s.lists[j], i, j)
    {
      assert NodeOk(pages, s.lists[j], i, j) && FreeBlock(s, s.lists[j][i], j);
    }
  }

  /** The merge loop of `free`: the free buddy leaves its list and the upper of
      the two heads becomes a tail. */
  lemma RepMerge(pages: seq<PageInfo>, area: seq<Option<nat>>, s: State, p: nat)
    requires WF(s) && Holds(s, p) && CanMerge(s, p) && Rep(pages, area, s, Some(p))
    ensures var k := s.live[p]; var q := Buddy(p, k); var h := MergedHead(s, p); var tail := if p < q then q else p;
      && q < s.nr && p < s.nr
      && (Link(pages[q].prev).Some? ==> pages[q].prev < |pages|)
      && (Link(pages[q].next).Some? ==> pages[q].next < |pages|)
      && var unlinked := UnlinkPages(pages, q);
         Rep(unlinked[tail := unlinked[tail].MarkTail()], UnlinkArea(area, k, pages[q]), MergeStep(s, p), Some(h))
  {
    var k, t := s.live[p], MergeStep(s, p);
    var q, h := Buddy(p, k), MergedHead(s, p);
    var tail := if p < q then q else p;
    MergeBlocks(s, p);
    MergeWF(s, p);
    assert IsBlock(s, q, k) && IsBlock(s, p, k) && InBlock(q, q, k) && InBlock(p, p, k);
    var i :| 0 <= i < |s.lists[k]| && s.lists[k][i] == q;
    UnlinkLinked(pages, area, s.lists, k, i);
    var unlinked := UnlinkPages(pages, q);
    var area' := UnlinkArea(area, k, pages[q]);
    var pages' := unlinked[tail := unlinked[tail].MarkTail()];
    assert forall j: nat :: !FreeBlock(t, tail, j) by { NotFreeAfterMerge(s, p); }
    KeepsLinks(unlinked, pages', area', t, tail);
    forall x: nat | x < s.nr && x != h
      ensures PageOk(pages'[x], t, x)
    {
      if x != tail {
        assert PageOk(pages[x], s, x);
        assert forall j: nat :: FreeBlock(t, x, j) <==> FreeBlock(s, x, j);
        ListedFrame(s, x, k);
        assert x in s.lists[k] <==> FreeBlock(s, x, k);
      } else {
        assert x !in t.live && x !in t.reserved;
      }
    }
  }

  lemma NotFreeAfterMerge(s: State, p: nat)
    requires WF(s) && Holds(s, p) && CanMerge(s, p)
    ensures forall j: nat :: !FreeBlock(MergeStep(s, p), p, j) && !FreeBlock(MergeStep(s, p), Buddy(p, s.live[p]), j)
  {
    var k := s.live[p];
    MergeBlocks(s, p);
    assert IsBlock(s, Buddy(p, k), k) && IsBlock(s, p, k);
    OneOrderPerHead(s, Buddy(p, k));
    forall j: nat
      ensures !FreeBlock(MergeStep(s, p), p, j) && !FreeBlock(MergeStep(s, p), Buddy(p, k), j)
    {
      assert FreeBlock(s, Buddy(p, k), j) ==> IsBlock(s, Buddy(p, k), j);
    }
  }

  /** The end of `free`: the held block goes on the list of its order. */
  lemma RepGive(pages: seq<PageInfo>, area: seq<Option<nat>>, s: State, p: nat)
    requires WF(s) && Holds(s, p) && Rep(pages, area, s, Some(p))
    ensures var k := s.live[p];
      && p < s.nr && (area[k].Some? ==> area[k].value < |pages|)
      && Rep(PushPages(pages[p := pages[p].MarkFree(k)], area[k], p), area[k := Some(p)], Give(s, p), None)
  {
    var k := s.live[p];
    GiveWF(s, p);
    assert IsBlock(s, p, k);
    RepPush(pages, area, s, Give(s, p), Some(p), None, p, k);
  }

  /** One round of `free_range`: the interior of the block is marked tail, its
      head is marked free and pushed. */
  lemma RepSeed(pages: seq<PageInfo>, tailed: seq<PageInfo>, area: seq<Option<nat>>, s: State, p: nat, k: nat)
    requires WF(s) && Rep(pages, area, s, None)
    requires k < MAX_ORDER && Aligned(p, k) && AllReserved(s, p, Pow2(k))
    requires |tailed| == |pages|
    requires forall q: nat :: q < |pages| ==>
      tailed[q] == if p < q < p + Pow2(k) then pages[q].MarkTail() else pages[q]
    ensures p < s.nr && (area[k].Some? ==> area[k].value < |pages|)
    ensures Rep(PushPages(tailed[p := tailed[p].MarkFree(k)], area[k], p), area[k := Some(p)], Seed(s, p, k), None)
  {
    SeedWF(s, p, k);
    SeedBlocks(s, p, k);
    assert p in s.reserved;
    var marked, t := tailed[p := tailed[p].MarkFree(k)], Seed(s, p, k);
    forall j: nat, f: nat | InBlock(f, p, k)
      ensures !FreeBlock(s, f, j)
    {
      ListedFrame(s, f, j);
    }
    assert Linked(marked, area, s.lists) by {
      forall j: nat, i: nat | j < MAX_ORDER && i < |s.lists[j]|
        ensures NodeOk(marked, s.lists[j], i, j)
      {
        assert NodeOk(pages, s.lists[j], i, j) && FreeBlock(s, s.lists[j][i], j);
      }
    }
    forall j: nat | j < MAX_ORDER ensures p !in s.lists[j] { assert InBlock(p, p, k) && !FreeBlock(s, p, j); }
    PushLinked(marked, area, s.lists, k, p);
    var pages' := PushPages(marked, area[k], p);
    forall q: nat | q < s.nr
      ensures PageOk(pages'[q], t, q)
    {
      assert PageOk(pages[q], s, q);
      ListedFrame(s, q, k);
      assert q in s.lists[k] <==> FreeBlock(s, q, k);
      if q == p { assert FreeBlock(t, p, k); ListedFrame(t, p, k); }
      if q != p { assert forall j: nat :: FreeBlock(t, q, j) <==> FreeBlock(s, q, j); }
      assert InBlock(q, p, k) ==> q in s.reserved && q !in s.live by { LiveNotReserved(s, q); }
    }
  }

  lemma LiveNotReserved(s: State, q: nat)
    requires WF(s)
    ensures q in s.reserved ==> q !in s.live
  {
    assert q in s.live ==> IsBlock(s, q, s.live[q]) && InBlock(q, q, s.live[q]);
  }

  /** A state determines its mem-map: two mem-maps of one state agree on every
      state and link and on the order of every head. */
  lemma RepUnique(pages: seq<PageInfo>, area: seq<Option<nat>>, pages': seq<PageInfo>, area': seq<Option<nat>>,
                  s: State, p: nat)
    requires WF(s) && Rep(pages, area, s, None) && Rep(pages', area', s, None) && p < s.nr
    ensures area == area'
    ensures pages[p].state == pages'[p].state && pages[p].next == pages'[p].next && pages[p].prev == pages'[p].prev
    ensures pages[p].state == Free || pages[p].state == Allocated ==> pages[p] == pages'[p]
  {
    assert PageOk(pages[p], s, p) && PageOk(pages'[p], s, p);
    if k: nat :| FreeBlock(s, p, k) {
      var i :| 0 <= i < |s.lists[k]| && s.lists[k][i] == p;
      assert NodeOk(pages, s.lists[k], i, k) && NodeOk(pages', s.lists[k], i, k);
    }
  }
}
