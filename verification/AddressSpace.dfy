/** A translation tree being built: the tables in memory, the frames the
    allocator will hand out next, and `map` as the loop the kernel runs. */
module AddressSpace {
  import opened Wrappers
  import opened PageTable
  import opened PageWalk
  import opened PageMap

  datatype Status = Done | PanicTarget | PanicBlock | PanicNoFrame

  /** What one leaf makes of an address in its piece of the address space. */
  function Mapping(pa: nat, target: Level, attrs: LeafAttrs, va: Va): Xlat {
    Xlat(OutputAddr(pa) / Span(target) * Span(target) + OffsetIn(target, va), AttrBits(attrs), target)
  }

  /** Nothing is translated. */
  ghost predicate Blank(tables: Tables, root: nat) {
    forall va: Va :: Walk(tables, root, L0, va) == None
  }

  /** One leaf, as `map` leaves the tables. */
  ghost predicate OneLeaf(now: Tables, was: Tables, root: nat, va: Va, pa: nat, target: Level, attrs: LeafAttrs) {
    forall vb: Va :: Walk(now, root, L0, vb) ==
      (if SameSlot(target, va, vb) then Some(Mapping(pa, target, attrs, vb)) else Walk(was, root, L0, vb))
  }

  lemma LeafXlatIsMapping(pa: nat, target: Level, attrs: LeafAttrs, va: Va)
    requires target != L0
    ensures var leaf := LeafEntry(pa, target, attrs);
      LeafFor(leaf, target) && LeafXlat(leaf, target, va) == Mapping(pa, target, attrs, va)
  {
    LeafDecodes(pa, attrs);
  }

  /** Where the rest of the walk leads: the outcome, and the labels after it. */
  ghost function Leads(tables: Tables, pool: seq<nat>, at: map<nat, Node>, t: nat, l: Level, va: Va, leaf: nat,
                       target: Level): (Outcome, map<nat, Node>)
    requires Depth(l) <= Depth(target)
  {
    (MapFrom(tables, pool, t, l, va, leaf, target), MapAt(tables, pool, at, t, l, va, target))
  }

  lemma StepsThroughFresh(tables: Tables, pool: seq<nat>, at: map<nat, Node>, t: nat, l: Level, va: Va, leaf: nat,
                          target: Level)
    requires IsTable(tables, t) && t in at && Depth(l) < Depth(target) && pool != []
    requires !IsValid(tables[t][IndexIn(l, va)])
    ensures var i, f := IndexIn(l, va), pool[0];
      Leads(Install(tables, t, i, f), pool[1..], at[f := Sub(at[t], i)], f, Next(l), va, leaf, target)
        == Leads(tables, pool, at, t, l, va, leaf, target)
  {
  }

  lemma StepsThroughTable(tables: Tables, pool: seq<nat>, at: map<nat, Node>, t: nat, l: Level, va: Va, leaf: nat,
                          target: Level)
    requires IsTable(tables, t) && t in at && Depth(l) < Depth(target)
    requires var w := tables[t][IndexIn(l, va)]; IsValid(w) && IsTableOrPage(w)
    ensures Leads(tables, pool, at, OutputAddr(tables[t][IndexIn(l, va)]), Next(l), va, leaf, target)
      == Leads(tables, pool, at, t, l, va, leaf, target)
  {
  }

  lemma StopsAtTarget(tables: Tables, pool: seq<nat>, at: map<nat, Node>, t: nat, va: Va, leaf: nat, target: Level)
    requires IsTable(tables, t)
    ensures Leads(tables, pool, at, t, target, va, leaf, target) ==
      (Mapped(Write(tables, t, IndexIn(target, va), leaf), pool), at)
  {
  }

  lemma StopsShort(tables: Tables, pool: seq<nat>, at: map<nat, Node>, t: nat, l: Level, va: Va, leaf: nat,
                   target: Level)
    requires IsTable(tables, t) && Depth(l) < Depth(target)
    ensures var w := tables[t][IndexIn(l, va)]; var r := Leads(tables, pool, at, t, l, va, leaf, target).0;
      && (!IsValid(w) && pool == [] ==> r == NoFrame)
      && (IsValid(w) && !IsTableOrPage(w) ==> r == HitBlock)
  {
  }

  /** The next table of the walk is where its label says. */
  lemma NextOnPath(tables: Tables, root: nat, at: map<nat, Node>, pool: seq<nat>, t: nat, l: Level, va: Va)
    requires Ready(tables, root, at, pool) && OnPath(at, t, l, va) && l != L3
    ensures IsTable(tables, t)
    ensures var i := IndexIn(l, va); var w := tables[t][i];
      && (IsValid(w) && IsTableOrPage(w) ==> OnPath(at, OutputAddr(w), Next(l), va))
      && (IsValid(w) && IsTableOrPage(w) ==> IsTable(tables, OutputAddr(w)))
      && (!IsValid(w) && pool != [] ==>
            && IsTable(Install(tables, t, i, pool[0]), pool[0])
            && Ready(Install(tables, t, i, pool[0]), root, at[pool[0] := Sub(at[t], i)], pool[1..])
            && OnPath(at[pool[0] := Sub(at[t], i)], pool[0], Next(l), va))
  {
    NodeFacts(l, va);
    var i := IndexIn(l, va);
    assert WordOk(at, at[t], i, tables[t][i]);
    if !IsValid(tables[t][i]) && pool != [] { InstallReady(tables, root, at, pool, t, i); }
  }

  /** Ready, behind a key: callers of `map` need not look inside. */
  ghost predicate Standing(tables: Tables, root: nat, at: map<nat, Node>, pool: seq<nat>) {
    forall k: nat :: Key(k) ==> Ready(tables, root, at, pool)
  }

  class Space {
    var tables: Tables
    const root: nat
    var pool: seq<nat>
    ghost var at: map<nat, Node>

    ghost predicate Sound()
      reads this
    {
      Ready(tables, root, at, pool)
    }

    ghost predicate Valid()
      reads this
    {
      Standing(tables, root, at, pool)
    }

    /** The walk of va has reached this table. */
    ghost predicate OnTable(t: nat, l: Level, va: Va)
      reads this
    {
      IsTable(tables, t) && OnPath(at, t, l, va)
    }

    lemma Open()
      requires Valid()
      ensures Sound()
    {
      assert Key(0);
    }

    /** There are as many tables as labels. */
    lemma Counts()
      requires Valid()
      ensures |at| == |Nodes()|
    {
      Open();
      InjectiveSize(at);
    }

    /** What the hardware makes of va. */
    ghost function Translate(va: Va): Option<Xlat>
      reads this
    {
      Walk(tables, root, L0, va)
    }

    /** Labels of the tables in use. */
    ghost function Nodes(): set<Node>
      reads this
    {
      at.Values
    }

    constructor (root: nat, pool: seq<nat>)
      requires FreshFrame(map[], root) && PoolOk(map[root := Zeros()], pool)
      ensures Valid() && Nodes() == {Root} && this.pool == pool && this.root == root
      ensures Blank(tables, root)
    {
      this.root := root;
      this.pool := pool;
      tables := map[root := Zeros()];
      at := map[root := Root];
      new;
      EmptyTree(root);
      forall va: Va ensures Walk(tables, root, L0, va) == None { ZeroTable(tables, root, L0, va); }
      assert Nodes() == {Root} by { assert root in at && at[root] == Root; }
    }

    method Map(va: Va, pa: nat, target: Level, attrs: LeafAttrs) returns (r: Status)
      requires Valid()
      modifies this`tables, this`pool, this`at
      ensures r == PanicTarget <==> target == L0
      ensures r == PanicBlock <==>
        target != L0 && old(Translate(va)).Some? && Depth(old(Translate(va)).value.level) < Depth(target)
      ensures r == PanicNoFrame ==> |old(pool)| < |Below(L0, target, va) - old(Nodes())|
      ensures r == Done ==>
        && Valid()
        && Gains(old(at), Below(L0, target, va), at, old(pool), pool)
        && OneLeaf(tables, old(tables), root, va, pa, target, attrs)
    {
      if target == L0 { return PanicTarget; }
      Open();
      WholeMap(tables, pool, root, at, va, pa, target, attrs);
      r := InstallLeaf(va, LeafEntry(pa, target, attrs), target);
    }

    /** The walk down to the target level and the write of the leaf. */
    method InstallLeaf(va: Va, leaf: nat, target: Level) returns (r: Status)
      requires Valid() && target != L0
      modifies this`tables, this`pool, this`at
      ensures r != PanicTarget
      ensures var (goal, labels) := old(Leads(tables, pool, at, root, L0, va, leaf, target));
        && (r == PanicBlock ==> goal == HitBlock)
        && (r == PanicNoFrame ==> goal == NoFrame)
        && (r == Done ==> goal == Mapped(tables, pool) && at == labels)
    {
      ghost var plan := Leads(tables, pool, at, root, L0, va, leaf, target);
      assert OnTable(root, L0, va) by { Open(); }
      var current;
      r, current := WalkDown(va, leaf, target, plan);
      if r == Done {
        StopsAtTarget(tables, pool, at, current, va, leaf, target);
        tables := Write(tables, current, IndexIn(target, va), leaf);
      }
    }

    /** The loop of `map`: down to the table that will hold the leaf. */
    method WalkDown(va: Va, leaf: nat, target: Level, ghost plan: (Outcome, map<nat, Node>))
      returns (r: Status, current: nat)
      requires Valid() && OnTable(root, L0, va) && Leads(tables, pool, at, root, L0, va, leaf, target) == plan
      modifies this`tables, this`pool, this`at
      ensures r != PanicTarget
      ensures r == PanicBlock ==> plan.0 == HitBlock
      ensures r == PanicNoFrame ==> plan.0 == NoFrame
      ensures r == Done ==>
        IsTable(tables, current) && Leads(tables, pool, at, current, target, va, leaf, target) == plan
    {
      var level := L0;
      current := root;
      while level != target
        invariant Valid() && OnTable(current, level, va) && Depth(level) <= Depth(target)
        invariant Leads(tables, pool, at, current, level, va, leaf, target) == plan
        decreases Depth(target) - Depth(level)
      {
        r, current := Descend(current, level, va, leaf, target, plan);
        if r != Done { return; }
        level := Next(level);
      }
      r := Done;
    }

    lemma OneTableOn(t: nat, l: Level, va: Va)
      requires Valid() && OnTable(t, l, va) && l != L3
      ensures var i := IndexIn(l, va); var w := tables[t][i];
        && (IsValid(w) && IsTableOrPage(w) ==> OnTable(OutputAddr(w), Next(l), va))
        && (!IsValid(w) && pool != [] ==>
              var f := pool[0]; var more := at[f := Sub(at[t], i)]; var grown := Install(tables, t, i, f);
              Standing(grown, root, more, pool[1..]) && IsTable(grown, f) && OnPath(more, f, Next(l), va))
    {
      Open();
      NextOnPath(tables, root, at, pool, t, l, va);
    }

    /** One round of the walk: step into the next table, or install a fresh one first. */
    method Descend(current: nat, level: Level, va: Va, leaf: nat, target: Level, ghost plan: (Outcome, map<nat, Node>))
      returns (r: Status, next: nat)
      requires Valid() && OnTable(current, level, va) && Depth(level) < Depth(target)
      requires Leads(tables, pool, at, current, level, va, leaf, target) == plan
      modifies this`tables, this`pool, this`at
      ensures r != PanicTarget
      ensures r == PanicBlock ==> plan.0 == HitBlock
      ensures r == PanicNoFrame ==> plan.0 == NoFrame
      ensures r == Done ==>
        && Valid() && OnTable(next, Next(level), va)
        && Leads(tables, pool, at, next, Next(level), va, leaf, target) == plan
    {
      OneTableOn(current, level, va);
      StopsShort(tables, pool, at, current, level, va, leaf, target);
      var i := IndexIn(level, va);
      var entry := tables[current][i];
      if !IsValid(entry) {
        if pool == [] { return PanicNoFrame, 0; }
        StepsThroughFresh(tables, pool, at, current, level, va, leaf, target);
        next := pool[0];
        at := at[next := Sub(at[current], i)];
        tables := Install(tables, current, i, next);
        pool := pool[1..];
      } else if !IsTableOrPage(entry) {
        return PanicBlock, 0;
      } else {
        StepsThroughTable(tables, pool, at, current, level, va, leaf, target);
        next := OutputAddr(entry);
      }
      r := Done;
    }
  }

  lemma EmptyTree(root: nat)
    requires FreshFrame(map[], root)
    ensures Tree(map[root := Zeros()], root, map[root := Root])
  {
  }

  /** Everything `map` promises, about the outcome of the walk from the root. */
  lemma WholeMap(tables: Tables, pool: seq<nat>, root: nat, at: map<nat, Node>, va: Va, pa: nat, target: Level,
                 attrs: LeafAttrs)
    requires Ready(tables, root, at, pool) && target != L0
    ensures var leaf := LeafEntry(pa, target, attrs);
      var r := MapFrom(tables, pool, root, L0, va, leaf, target);
      var x := Walk(tables, root, L0, va);
      && !r.LeftTheTree?
      && (r.HitBlock? <==> x.Some? && Depth(x.value.level) < Depth(target))
      && (r.NoFrame? ==> |pool| < |Below(L0, target, va) - at.Values|)
      && (r.Mapped? ==>
            && Ready(r.tables, root, MapAt(tables, pool, at, root, L0, va, target), r.pool)
            && Gains(at, Below(L0, target, va), MapAt(tables, pool, at, root, L0, va, target), pool, r.pool)
            && OneLeaf(r.tables, tables, root, va, pa, target, attrs))
  {
    var leaf := LeafEntry(pa, target, attrs);
    LeafXlatIsMapping(pa, target, attrs, va);
    var r := MapFrom(tables, pool, root, L0, va, leaf, target);
    MapStaysInTree(tables, pool, root, at, root, L0, va, leaf, target);
    MapGains(tables, pool, root, at, root, L0, va, leaf, target);
    MapHitsBlock(tables, pool, root, at, root, L0, va, leaf, target);
    MapNeedsFrames(tables, pool, root, at, root, L0, va, leaf, target);
    if r.Mapped? {
      forall vb: Va
        ensures Walk(r.tables, root, L0, vb) ==
          (if SameSlot(target, va, vb) then Some(Mapping(pa, target, attrs, vb)) else Walk(tables, root, L0, vb))
      {
        if SameSlot(target, va, vb) {
          MapHere(tables, pool, root, at, root, L0, va, leaf, target, vb);
          LeafXlatIsMapping(pa, target, attrs, vb);
        } else {
          MapElsewhere(tables, pool, root, at, root, L0, va, leaf, target, root, L0, vb);
        }
      }
    }
  }
}
