/** The kernel's page source: a pool of 32 pages before the hand-off, the buddy
    allocator after it. */
module FrameSource {
  import opened Wrappers
  import B = BuddyModel
  import BuddySteps
  import R = BuddyRuns
  import opened Buddy

  const POOL_PAGES: nat := 32

  /** Taking a page changes no reservation and gives a page that is not reserved. */
  lemma PageNotReserved(b: B.State)
    requires B.WF(b)
    ensures var (b', r) := B.Alloc(b, 0);
      b'.reserved == b.reserved && (r.Some? ==> r.value !in b.reserved && r.value !in b.live)
  {
    BuddySteps.AllocWF(b, 0);
    R.StepRefines(b, R.DoAlloc(0));
    var (b', r) := B.Alloc(b, 0);
    if r.Some? { assert B.IsBlock(b', r.value, 0); }
  }

  class PageSource {
    const poolBase: nat
    var next: nat
    var buddy: BuddyAllocator?
    /** The pool pages handed out so far. */
    ghost var given: set<nat>

    predicate InPool(pa: nat) { poolBase <= pa < poolBase + 32 * PAGE_SIZE }

    ghost function BuddyRepr(): set<object>
      reads this
    {
      if buddy == null then {} else {buddy, buddy.pages, buddy.freeArea}
    }

    /** The pool is part of the kernel image, whose frames the hand-off reserves. */
    ghost predicate PoolReserved()
      reads this, BuddyRepr()
    {
      buddy != null ==> forall f: nat :: f < buddy.nrFrames && InPool(buddy.PaOf(f)) ==> f in buddy.s.reserved
    }

    ghost predicate Valid()
      reads this, BuddyRepr()
    {
      && (buddy != null ==> buddy.Valid()) && PoolReserved()
      && poolBase % PAGE_SIZE == 0
      && forall pa: nat :: pa in given ==> InPool(pa) && pa < poolBase + next * PAGE_SIZE
    }

    constructor (poolBase: nat)
      requires poolBase % PAGE_SIZE == 0
      ensures Valid() && given == {} && next == 0 && buddy == null && this.poolBase == poolBase
    {
      this.poolBase := poolBase;
      next := 0;
      buddy := null;
      given := {};
    }

    /** None stands for the panic when the pool is used up. */
    method BumpAllocPage() returns (r: Option<nat>)
      requires Valid()
      modifies this`next, this`given
      ensures Valid() && buddy == old(buddy) && next == old(next) + 1
      ensures r.Some? <==> old(next) < 32
      ensures r.Some? ==> r.value !in old(given) && InPool(r.value) && given == old(given) + {r.value}
      ensures r.Some? ==> r.value == poolBase + old(next) * PAGE_SIZE && r.value % PAGE_SIZE == 0
      ensures r.None? ==> given == old(given)
    {
      var idx := next;
      next := next + 1;
      if idx >= POOL_PAGES { return None; }
      r := Some(poolBase + idx * PAGE_SIZE);
      given := given + {r.value};
    }

    /** A page never handed out before from the pool; from the buddy allocator it is
        a page of no live block, and no page of the pool. */
    method AllocPage() returns (r: Option<nat>)
      requires Valid()
      modifies this`next, this`given, BuddyRepr()
      ensures Valid() && buddy == old(buddy)
      ensures r.Some? ==> r.value !in old(given)
      ensures buddy == null ==>
        && (r.Some? <==> old(next) < 32)
        && (r.Some? ==> r.value == poolBase + old(next) * PAGE_SIZE && InPool(r.value))
        && next == old(next) + 1 && given == old(given) + (if r.Some? then {r.value} else {})
      ensures buddy != null ==>
        (r.Some? <==> B.Alloc(old(buddy.s), 0).1.Some?) && given == old(given) && next == old(next)
      ensures buddy != null ==> buddy.s == B.Alloc(old(buddy.s), 0).0
      ensures buddy != null && r.Some? ==>
        && !InPool(r.value) && buddy.InDram(r.value) && Some(buddy.PfnOf(r.value)) == B.Alloc(old(buddy.s), 0).1
        && buddy.PfnOf(r.value) !in old(buddy.s.live) && B.LiveBlock(buddy.s, buddy.PfnOf(r.value), 0)
    {
      if buddy == null {
        r := BumpAllocPage();
      } else {
        buddy.Open();
        PageNotReserved(buddy.s);
        r := buddy.AllocPages(0);
      }
    }

    /** Whatever other users do with the buddy allocator, short of freeing the pool's
        own frames as a range, the pool stays out of its reach. */
    twostate lemma OthersKeepValid(ops: seq<R.Op>)
      requires old(Valid()) && buddy != null && buddy == old(buddy) && buddy.Valid() && next == old(next)
      requires given == old(given)
      requires B.WF(old(buddy.s)) && R.LegalRun(old(buddy.s), ops) && buddy.s == R.Run(old(buddy.s), ops)
      requires forall f: nat :: f < buddy.nrFrames && InPool(buddy.PaOf(f)) ==> !R.TakenIn(ops, f)
      ensures Valid()
    {
      forall f: nat | f < buddy.nrFrames && InPool(buddy.PaOf(f))
        ensures f in buddy.s.reserved
      {
        R.StaysReserved(old(buddy.s), ops, f);
      }
    }

    /** `BUDDY` is set once, and holds the frames of the pool reserved. */
    method Install(b: BuddyAllocator)
      requires Valid() && buddy == null && b.Valid()
      requires forall f: nat :: f < b.nrFrames && InPool(b.PaOf(f)) ==> f in b.s.reserved
      modifies this`buddy
      ensures Valid() && buddy == b && given == old(given)
    {
      buddy := b;
    }
  }
}
