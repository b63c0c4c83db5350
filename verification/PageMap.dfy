/** `PageTable::map`: the walk that allocates missing tables and installs one
    leaf. It changes the translation of exactly the leaf-sized piece of the
    address space that holds the address, and keeps the tables a tree. */
module PageMap {
  import opened Wrappers
  import opened PageTable
  import opened PageWalk

  /** The outcomes of `map`. The last is no outcome of the code: the walk never
      leaves the tables, as MapStaysInTree shows. */
  datatype Outcome = Mapped(tables: Tables, pool: seq<nat>) | HitBlock | NoFrame | LeftTheTree

  /** Go down from table t at level l; `pool` are the frames the allocator will
      hand out, in order. */
  function MapFrom(tables: Tables, pool: seq<nat>, t: nat, l: Level, va: Va, leaf: nat, target: Level): Outcome
    requires Depth(l) <= Depth(target)
    decreases Depth(target) - Depth(l)
  {
    if !IsTable(tables, t) then LeftTheTree
    else
      var i := IndexIn(l, va);
      var w := tables[t][i];
      if l == target then Mapped(Write(tables, t, i, leaf), pool)
      else if !IsValid(w) then
        if pool == [] then NoFrame
        else MapFrom(Install(tables, t, i, pool[0]), pool[1..], pool[0], Next(l), va, leaf, target)
      else if !IsTableOrPage(w) then HitBlock
      else MapFrom(tables, pool, OutputAddr(w), Next(l), va, leaf, target)
  }

  /** Frames the allocator may hand out: page-aligned, distinct, not in use as tables. */
  ghost predicate PoolOk(tables: Tables, pool: seq<nat>) {
    && (forall i :: 0 <= i < |pool| ==> FreshFrame(tables, pool[i]))
    && (forall i, j :: 0 <= i < j < |pool| ==> pool[i] != pool[j])
  }

  ghost predicate Ready(tables: Tables, root: nat, at: map<nat, Node>, pool: seq<nat>) {
    Tree(tables, root, at) && PoolOk(tables, pool)
  }

  lemma InstallReady(tables: Tables, root: nat, at: map<nat, Node>, pool: seq<nat>, t: nat, i: nat)
    requires Ready(tables, root, at, pool) && pool != [] && t in at && i < 512 && DepthOf(at[t]) < 3
    requires !IsValid(tables[t][i])
    ensures Ready(Install(tables, t, i, pool[0]), root, at[pool[0] := Sub(at[t], i)], pool[1..])
  {
    assert FreshFrame(tables, pool[0]);
    InstallTree(tables, root, at, t, i, pool[0]);
    var tables' := Install(tables, t, i, pool[0]);
    forall k | 0 <= k < |pool[1..]|
      ensures FreshFrame(tables', pool[1..][k])
    {
      assert FreshFrame(tables, pool[k + 1]);
    }
  }

  /** The tables strictly below level l on the way of va to the target level. */
  function Below(l: Level, target: Level, va: Va): set<Node>
    requires Depth(l) <= Depth(target)
    decreases Depth(target) - Depth(l)
  {
    if l == target then {} else {NodeOf(Next(l), va)} + Below(Next(l), target, va)
  }

  /** The labels after `map`: each frame it takes is labelled with its slot. */
  ghost function MapAt(tables: Tables, pool: seq<nat>, at: map<nat, Node>, t: nat, l: Level, va: Va,
                       target: Level): map<nat, Node>
    requires Depth(l) <= Depth(target)
    decreases Depth(target) - Depth(l)
  {
    if l == target || !IsTable(tables, t) || t !in at then at
    else
      var i := IndexIn(l, va);
      var w := tables[t][i];
      if !IsValid(w) then
        if pool == [] then at
        else MapAt(Install(tables, t, i, pool[0]), pool[1..], at[pool[0] := Sub(at[t], i)], pool[0], Next(l), va,
                   target)
      else if !IsTableOrPage(w) then at
      else MapAt(tables, pool, at, OutputAddr(w), Next(l), va, target)
  }

  /** The outcome of `map` is a tree again. */
  lemma {:induction false} MapStaysInTree(tables: Tables, pool: seq<nat>, root: nat, at: map<nat, Node>, t: nat,
                                          l: Level, va: Va, leaf: nat, target: Level)
    requires Ready(tables, root, at, pool) && OnPath(at, t, l, va)
    requires Depth(l) <= Depth(target) && LeafFor(leaf, target)
    ensures var r := MapFrom(tables, pool, t, l, va, leaf, target);
      && !r.LeftTheTree?
      && (r.Mapped? ==> Ready(r.tables, root, MapAt(tables, pool, at, t, l, va, target), r.pool))
    decreases Depth(target) - Depth(l)
  {
    NodeFacts(l, va);
    var i := IndexIn(l, va);
    var w := tables[t][i];
    assert WordOk(at, at[t], i, w);
    if l == target {
      WriteTree(tables, root, at, t, i, leaf, l);
      assert PoolOk(Write(tables, t, i, leaf), pool);
    } else if !IsValid(w) {
      if pool != [] {
        InstallReady(tables, root, at, pool, t, i);
        MapStaysInTree(Install(tables, t, i, pool[0]), pool[1..], root, at[pool[0] := Sub(at[t], i)], pool[0],
                       Next(l), va, leaf, target);
      }
    } else if IsTableOrPage(w) {
      MapStaysInTree(tables, pool, root, at, OutputAddr(w), Next(l), va, leaf, target);
    }
  }

  /** Labels before, on the way and after, and the frames they cost. */
  ghost predicate Gains(at: map<nat, Node>, way: set<Node>, at': map<nat, Node>, pool: seq<nat>, pool': seq<nat>) {
    at'.Values == at.Values + way && |at'| + |pool'| == |at| + |pool|
  }

  lemma GainsNone(at: map<nat, Node>, pool: seq<nat>)
    ensures Gains(at, {}, at, pool, pool)
  {
  }

  lemma GainsKnown(at: map<nat, Node>, c: nat, n: Node, way: set<Node>, at': map<nat, Node>, pool: seq<nat>,
                   pool': seq<nat>)
    requires c in at && at[c] == n && Gains(at, way, at', pool, pool')
    ensures Gains(at, {n} + way, at', pool, pool')
  {
  }

  lemma GainsFresh(at: map<nat, Node>, f: nat, n: Node, way: set<Node>, at': map<nat, Node>, pool: seq<nat>,
                   pool': seq<nat>)
    requires f !in at && pool != [] && Gains(at[f := n], way, at', pool[1..], pool')
    ensures Gains(at, {n} + way, at', pool, pool')
  {
    AddedValue(at, f, n);
    assert at.Values + {n} + way == at.Values + ({n} + way);
  }

  lemma AddedValue(at: map<nat, Node>, f: nat, n: Node)
    requires f !in at
    ensures at[f := n].Values == at.Values + {n} && |at[f := n]| == |at| + 1
  {
    var at' := at[f := n];
    assert n in at'.Values by { assert f in at' && at'[f] == n; }
    forall m | m in at.Values ensures m in at'.Values {
      var x :| x in at && at[x] == m;
      assert x in at' && at'[x] == m;
    }
  }

  /** The tree gains exactly the missing tables on the way, one frame of the
      pool for each. */
  lemma {:induction false} MapGains(tables: Tables, pool: seq<nat>, root: nat, at: map<nat, Node>, t: nat, l: Level,
                                    va: Va, leaf: nat, target: Level)
    requires Ready(tables, root, at, pool) && OnPath(at, t, l, va) && Depth(l) <= Depth(target)
    ensures var r := MapFrom(tables, pool, t, l, va, leaf, target);
      r.Mapped? ==> Gains(at, Below(l, target, va), MapAt(tables, pool, at, t, l, va, target), pool, r.pool)
    decreases Depth(target) - Depth(l)
  {
    NodeFacts(l, va);
    var i := IndexIn(l, va);
    var w := tables[t][i];
    assert WordOk(at, at[t], i, w);
    var r := MapFrom(tables, pool, t, l, va, leaf, target);
    if r.Mapped? {
      if l == target {
        GainsNone(at, pool);
      } else if !IsValid(w) {
        var f, n := pool[0], Sub(at[t], i);
        var tables', at1 := Install(tables, t, i, f), at[f := n];
        assert FreshFrame(tables, f);
        InstallReady(tables, root, at, pool, t, i);
        MapGains(tables', pool[1..], root, at1, f, Next(l), va, leaf, target);
        GainsFresh(at, f, n, Below(Next(l), target, va), MapAt(tables', pool[1..], at1, f, Next(l), va, target), pool,
                   r.pool);
      } else {
        var c := OutputAddr(w);
        MapGains(tables, pool, root, at, c, Next(l), va, leaf, target);
        GainsKnown(at, c, Sub(at[t], i), Below(Next(l), target, va), MapAt(tables, pool, at, c, Next(l), va, target),
                   pool, r.pool);
      }
    }
  }

  lemma {:induction false} InjectiveSize(at: map<nat, Node>)
    requires forall t, u :: t in at && u in at && at[t] == at[u] ==> t == u
    ensures |at| == |at.Values|
    decreases |at|
  {
    if at == map[] {
      assert at.Values == {};
    } else {
      var t :| t in at;
      var rest := at - {t};
      assert rest[t := at[t]] == at;
      InjectiveSize(rest);
      AddedValue(rest, t, at[t]);
      assert at[t] !in rest.Values;
    }
  }

  /** Tables above the current level are not written. */
  lemma {:induction false} MapKeepsAbove(tables: Tables, pool: seq<nat>, root: nat, at: map<nat, Node>, t: nat,
                                         l: Level, va: Va, leaf: nat, target: Level, u: nat)
    requires Ready(tables, root, at, pool) && OnPath(at, t, l, va)
    requires Depth(l) <= Depth(target) && u in at && DepthOf(at[u]) < Depth(l)
    ensures var r := MapFrom(tables, pool, t, l, va, leaf, target);
      r.Mapped? ==> u in r.tables && r.tables[u] == tables[u]
    decreases Depth(target) - Depth(l)
  {
    NodeFacts(l, va);
    var i := IndexIn(l, va);
    var w := tables[t][i];
    assert WordOk(at, at[t], i, w);
    if l != target {
      if !IsValid(w) {
        if pool != [] {
          assert FreshFrame(tables, pool[0]);
          InstallReady(tables, root, at, pool, t, i);
          MapKeepsAbove(Install(tables, t, i, pool[0]), pool[1..], root, at[pool[0] := Sub(at[t], i)], pool[0],
                        Next(l), va, leaf, target, u);
        }
      } else if IsTableOrPage(w) {
        MapKeepsAbove(tables, pool, root, at, OutputAddr(w), Next(l), va, leaf, target, u);
      }
    }
  }

  ghost predicate SameSlot(target: Level, va: Va, vb: Va) {
    NodeOf(target, va) == NodeOf(target, vb) && IndexIn(target, va) == IndexIn(target, vb)
  }

  /** Addresses outside the slot keep their translation, from every table. */
  lemma {:induction false} MapElsewhere(tables: Tables, pool: seq<nat>, root: nat, at: map<nat, Node>, t: nat,
                                        l: Level, va: Va, leaf: nat, target: Level, x: nat, m: Level, vb: Va)
    requires Ready(tables, root, at, pool) && OnPath(at, t, l, va)
    requires Depth(l) <= Depth(target) && LeafFor(leaf, target)
    requires OnPath(at, x, m, vb) && !SameSlot(target, va, vb)
    ensures var r := MapFrom(tables, pool, t, l, va, leaf, target);
      r.Mapped? ==> Walk(r.tables, x, m, vb) == Walk(tables, x, m, vb)
    decreases Depth(target) - Depth(l)
  {
    NodeFacts(l, va);
    NodeFacts(m, vb);
    var i := IndexIn(l, va);
    var w := tables[t][i];
    assert WordOk(at, at[t], i, w);
    if l == target {
      forall k | at[t] == NodeOf(k, vb) ensures IndexIn(k, vb) != i {
        NodeFacts(k, vb);
      }
      WriteElsewhere(tables, root, at, t, i, leaf, x, m, vb);
    } else if !IsValid(w) {
      if pool != [] {
        assert FreshFrame(tables, pool[0]);
        InstallReady(tables, root, at, pool, t, i);
        InstallWalk(tables, root, at, t, i, pool[0], x, m, vb);
        MapElsewhere(Install(tables, t, i, pool[0]), pool[1..], root, at[pool[0] := Sub(at[t], i)], pool[0], Next(l),
                     va, leaf, target, x, m, vb);
      }
    } else if IsTableOrPage(w) {
      MapElsewhere(tables, pool, root, at, OutputAddr(w), Next(l), va, leaf, target, x, m, vb);
    }
  }

  lemma SameSlotIndex(l: Level, target: Level, va: Va, vb: Va)
    requires Depth(l) <= Depth(target) && SameSlot(target, va, vb)
    ensures IndexIn(l, va) == IndexIn(l, vb)
  {
  }

  lemma WalkThrough(tables: Tables, t: nat, l: Level, va: Va, c: nat)
    requires IsTable(tables, t) && l != L3
    requires var w := tables[t][IndexIn(l, va)]; IsValid(w) && IsTableOrPage(w) && OutputAddr(w) == c
    ensures Walk(tables, t, l, va) == Walk(tables, c, Next(l), va)
  {
  }

  lemma WrittenLeaf(tables: Tables, t: nat, l: Level, va: Va, leaf: nat)
    requires IsTable(tables, t) && LeafFor(leaf, l)
    ensures Walk(Write(tables, t, IndexIn(l, va), leaf), t, l, va) == Some(LeafXlat(leaf, l, va))
  {
  }

  /** Addresses in the slot translate through the new leaf. */
  lemma {:induction false} MapHere(tables: Tables, pool: seq<nat>, root: nat, at: map<nat, Node>, t: nat, l: Level,
                                   va: Va, leaf: nat, target: Level, vb: Va)
    requires Ready(tables, root, at, pool) && OnPath(at, t, l, va)
    requires Depth(l) <= Depth(target) && LeafFor(leaf, target) && SameSlot(target, va, vb)
    ensures var r := MapFrom(tables, pool, t, l, va, leaf, target);
      r.Mapped? ==> Walk(r.tables, t, l, vb) == Some(LeafXlat(leaf, target, vb))
    decreases Depth(target) - Depth(l)
  {
    NodeFacts(l, va);
    SameSlotIndex(l, target, va, vb);
    var i := IndexIn(l, va);
    var w := tables[t][i];
    assert WordOk(at, at[t], i, w);
    var r := MapFrom(tables, pool, t, l, va, leaf, target);
    if r.Mapped? {
      if l == target {
        WrittenLeaf(tables, t, l, vb, leaf);
      } else if !IsValid(w) {
        var f := pool[0];
        var tables', at' := Install(tables, t, i, f), at[f := Sub(at[t], i)];
        assert FreshFrame(tables, f);
        TableEntryDecodes(f);
        InstallReady(tables, root, at, pool, t, i);
        MapHere(tables', pool[1..], root, at', f, Next(l), va, leaf, target, vb);
        MapKeepsAbove(tables', pool[1..], root, at', f, Next(l), va, leaf, target, t);
        WalkThrough(r.tables, t, l, vb, f);
      } else {
        var c := OutputAddr(w);
        MapHere(tables, pool, root, at, c, Next(l), va, leaf, target, vb);
        MapKeepsAbove(tables, pool, root, at, c, Next(l), va, leaf, target, t);
        WalkThrough(r.tables, t, l, vb, c);
      }
    }
  }

  /** `map` panics on a block exactly when va is already translated by a leaf
      above the target level. */
  lemma {:induction false} MapHitsBlock(tables: Tables, pool: seq<nat>, root: nat, at: map<nat, Node>, t: nat,
                                        l: Level, va: Va, leaf: nat, target: Level)
    requires Ready(tables, root, at, pool) && OnPath(at, t, l, va) && Depth(l) <= Depth(target)
    ensures MapFrom(tables, pool, t, l, va, leaf, target).HitBlock? <==>
      var x := Walk(tables, t, l, va); x.Some? && Depth(x.value.level) < Depth(target)
    decreases Depth(target) - Depth(l)
  {
    NodeFacts(l, va);
    var i := IndexIn(l, va);
    var w := tables[t][i];
    assert WordOk(at, at[t], i, w);
    if l == target {
      WalkLevel(tables, t, l, va);
    } else if !IsValid(w) {
      if pool != [] {
        var f := pool[0];
        var tables', at' := Install(tables, t, i, f), at[f := Sub(at[t], i)];
        assert FreshFrame(tables, f);
        InstallReady(tables, root, at, pool, t, i);
        MapHitsBlock(tables', pool[1..], root, at', f, Next(l), va, leaf, target);
        ZeroTable(tables', f, Next(l), va);
      }
    } else if IsTableOrPage(w) {
      MapHitsBlock(tables, pool, root, at, OutputAddr(w), Next(l), va, leaf, target);
    }
  }

  lemma {:induction false} WalkLevel(tables: Tables, t: nat, l: Level, va: Va)
    ensures var x := Walk(tables, t, l, va); x.Some? ==> Depth(l) <= Depth(x.value.level)
    decreases 3 - Depth(l)
  {
  }

  lemma MissingFresh(known: set<Node>, n: Node, way: set<Node>)
    requires n !in known
    ensures |({n} + way) - known| == |way - (known + {n})| + 1
  {
    assert ({n} + way) - known == (way - (known + {n})) + {n};
  }

  lemma MissingKnown(known: set<Node>, n: Node, way: set<Node>)
    requires n in known
    ensures ({n} + way) - known == way - known
  {
  }

  /** `map` runs out of frames only when more tables are missing on the way than
      the pool holds frames. */
  lemma {:induction false} MapNeedsFrames(tables: Tables, pool: seq<nat>, root: nat, at: map<nat, Node>, t: nat,
                                          l: Level, va: Va, leaf: nat, target: Level)
    requires Ready(tables, root, at, pool) && OnPath(at, t, l, va) && Depth(l) <= Depth(target)
    ensures MapFrom(tables, pool, t, l, va, leaf, target).NoFrame? ==> |pool| < |Below(l, target, va) - at.Values|
    decreases Depth(target) - Depth(l)
  {
    NodeFacts(l, va);
    var i := IndexIn(l, va);
    var w := tables[t][i];
    assert WordOk(at, at[t], i, w);
    var n := Sub(at[t], i);
    if l != target {
      if !IsValid(w) {
        NoSuchNode(tables, root, at, t, i);
        MissingFresh(at.Values, n, Below(Next(l), target, va));
        if pool != [] {
          var f := pool[0];
          assert FreshFrame(tables, f);
          InstallReady(tables, root, at, pool, t, i);
          AddedValue(at, f, n);
          MapNeedsFrames(Install(tables, t, i, f), pool[1..], root, at[f := n], f, Next(l), va, leaf, target);
        }
      } else if IsTableOrPage(w) {
        assert n in at.Values;
        MapNeedsFrames(tables, pool, root, at, OutputAddr(w), Next(l), va, leaf, target);
        MissingKnown(at.Values, n, Below(Next(l), target, va));
      }
    }
  }
}
