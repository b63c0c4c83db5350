/** The translation walk over a memory of tables, and what installing one leaf
    does to it. Each table is labelled with its level and the address bits that
    lead to it; distinct tables have distinct labels, so the tables form a tree
    and a write touches only the addresses of one slot. */
module PageWalk {
  import opened Wrappers
  import opened PageTable

  /** Physical memory that holds tables: base address to its 512 words. */
  type Tables = map<nat, seq<nat>>

  /** Where a table sits: the entries that lead to it from the root. */
  datatype Node = Root | Sub(parent: Node, i: nat)

  /** A translation: where, with which attribute bits, by a leaf of which level. */
  datatype Xlat = Xlat(pa: nat, attrs: int, level: Level)

  function LeafXlat(w: nat, l: Level, va: Va): Xlat {
    Xlat(OutputAddr(w) / Span(l) * Span(l) + OffsetIn(l, va), AttrField(w), l)
  }

  predicate IsTable(tables: Tables, t: nat) {
    t in tables && |tables[t]| == 512
  }

  /** What the hardware makes of va, from table t at level l. */
  function Walk(tables: Tables, t: nat, l: Level, va: Va): Option<Xlat>
    decreases 3 - Depth(l)
  {
    if !IsTable(tables, t) then None
    else
      var w := tables[t][IndexIn(l, va)];
      if !IsValid(w) then None
      else if l == L3 then (if IsTableOrPage(w) then Some(LeafXlat(w, l, va)) else None)
      else if IsTableOrPage(w) then Walk(tables, OutputAddr(w), Next(l), va)
      else if l == L0 then None
      else Some(LeafXlat(w, l, va))
  }

  // ---------- the tree of tables ----------

  function DepthOf(n: Node): nat {
    match n case Root => 0 case Sub(p, _) => 1 + DepthOf(p)
  }

  /** The label of the table of level l that the walk of va goes through. */
  function NodeOf(l: Level, va: Va): Node {
    match l
    case L0 => Root
    case L1 => Sub(Root, IndexIn(L0, va))
    case L2 => Sub(Sub(Root, IndexIn(L0, va)), IndexIn(L1, va))
    case L3 => Sub(Sub(Sub(Root, IndexIn(L0, va)), IndexIn(L1, va)), IndexIn(L2, va))
  }

  ghost predicate Child(at: map<nat, Node>, n: Node, i: nat, w: nat) {
    OutputAddr(w) in at && at[OutputAddr(w)] == Sub(n, i)
  }

  /** A valid word is a table at the top, a page at the bottom, and any table
      descriptor leads to the table labelled with its slot. */
  ghost predicate WordOk(at: map<nat, Node>, n: Node, i: nat, w: nat) {
    IsValid(w) ==>
      && (n.Root? || DepthOf(n) == 3 ==> IsTableOrPage(w))
      && (DepthOf(n) < 3 && IsTableOrPage(w) ==> Child(at, n, i, w))
  }

  /** Entry n.i of table u is the one that leads to n, and it is taken. */
  ghost predicate Anchor(tables: Tables, at: map<nat, Node>, n: Node, u: nat) {
    n.Sub? && u in at && at[u] == n.parent && IsTable(tables, u) && n.i < 512 && IsValid(tables[u][n.i])
  }

  ghost predicate Labelled(tables: Tables, root: nat, at: map<nat, Node>) {
    && at.Keys == tables.Keys && root in at && at[root] == Root
    && (forall t :: t in at ==> IsTable(tables, t) && OutputAddr(t) == t && DepthOf(at[t]) <= 3)
    && (forall t, u :: t in at && u in at && at[t] == at[u] ==> t == u)
  }

  ghost predicate WordsOk(tables: Tables, at: map<nat, Node>) {
    forall t, i: nat :: t in at && IsTable(tables, t) && i < 512 ==> WordOk(at, at[t], i, tables[t][i])
  }

  ghost predicate Anchored(tables: Tables, root: nat, at: map<nat, Node>) {
    forall t :: t in at && t != root ==> exists u :: Anchor(tables, at, at[t], u)
  }

  ghost predicate Tree(tables: Tables, root: nat, at: map<nat, Node>) {
    Labelled(tables, root, at) && WordsOk(tables, at) && Anchored(tables, root, at)
  }

  ghost predicate OnPath(at: map<nat, Node>, t: nat, l: Level, va: Va) {
    t in at && at[t] == NodeOf(l, va)
  }

  lemma NodeFacts(l: Level, va: Va)
    ensures DepthOf(NodeOf(l, va)) == Depth(l)
    ensures l != L3 ==> NodeOf(Next(l), va) == Sub(NodeOf(l, va), IndexIn(l, va))
  {
    var a := Sub(Root, IndexIn(L0, va));
    var b := Sub(a, IndexIn(L1, va));
    assert DepthOf(Root) == 0;
    assert DepthOf(a) == 1;
    assert DepthOf(b) == 2;
  }

  // ---------- writing a leaf ----------

  function Write(tables: Tables, t: nat, i: nat, w: nat): Tables
    requires IsTable(tables, t) && i < 512
  {
    var row: seq<nat> := tables[t][i := w];
    tables[t := row]
  }

  predicate LeafFor(leaf: nat, target: Level) {
    target != L0 && IsValid(leaf) && (IsTableOrPage(leaf) <==> target == L3)
  }

  /** A write leaves the translation of every address outside its slot alone. */
  lemma {:induction false} WriteElsewhere(tables: Tables, root: nat, at: map<nat, Node>, t: nat, i: nat, w: nat,
                                          x: nat, l: Level, va: Va)
    requires Labelled(tables, root, at) && WordsOk(tables, at) && t in at && i < 512 && OnPath(at, x, l, va)
    requires forall m :: at[t] == NodeOf(m, va) ==> IndexIn(m, va) != i
    ensures Walk(Write(tables, t, i, w), x, l, va) == Walk(tables, x, l, va)
    decreases 3 - Depth(l)
  {
    var j := IndexIn(l, va);
    var e := tables[x][j];
    NodeFacts(l, va);
    assert WordOk(at, at[x], j, e);
    assert Write(tables, t, i, w)[x][j] == e;
    if IsValid(e) && l != L3 && IsTableOrPage(e) {
      WriteElsewhere(tables, root, at, t, i, w, OutputAddr(e), Next(l), va);
    }
  }

  lemma WriteTree(tables: Tables, root: nat, at: map<nat, Node>, t: nat, i: nat, w: nat, l: Level)
    requires Tree(tables, root, at) && t in at && i < 512 && DepthOf(at[t]) == Depth(l) && LeafFor(w, l)
    ensures Tree(Write(tables, t, i, w), root, at)
  {
    var tables' := Write(tables, t, i, w);
    forall x, j: nat | x in at && j < 512
      ensures WordOk(at, at[x], j, tables'[x][j])
    {
      assert WordOk(at, at[x], j, tables[x][j]);
    }
    forall x | x in at && x != root
      ensures exists u :: Anchor(tables', at, at[x], u)
    {
      var u :| Anchor(tables, at, at[x], u);
      assert Anchor(tables', at, at[x], u);
    }
  }

  // ---------- installing a fresh table ----------

  function Zeros(): seq<nat> {
    seq(512, _ => 0)
  }

  /** Point the free entry i of t at the zeroed frame f. */
  function Install(tables: Tables, t: nat, i: nat, f: nat): Tables
    requires IsTable(tables, t) && i < 512
  {
    Write(tables, t, i, TableEntry(f))[f := Zeros()]
  }

  predicate FreshFrame(tables: Tables, f: nat) {
    f !in tables && OutputAddr(f) == f
  }

  lemma ZeroTable(tables: Tables, f: nat, l: Level, va: Va)
    requires f in tables && tables[f] == Zeros()
    ensures Walk(tables, f, l, va) == None
  {
  }

  /** Installing an empty table changes no translation at all. */
  lemma {:induction false} InstallWalk(tables: Tables, root: nat, at: map<nat, Node>, t: nat, i: nat, f: nat, x: nat,
                                       l: Level, va: Va)
    requires Labelled(tables, root, at) && WordsOk(tables, at) && FreshFrame(tables, f) && t in at && i < 512
    requires DepthOf(at[t]) < 3
    requires !IsValid(tables[t][i]) && x in at && DepthOf(at[x]) == Depth(l)
    ensures Walk(Install(tables, t, i, f), x, l, va) == Walk(tables, x, l, va)
    decreases 3 - Depth(l)
  {
    var j := IndexIn(l, va);
    var e := tables[x][j];
    var tables' := Install(tables, t, i, f);
    assert WordOk(at, at[x], j, e);
    if x == t && j == i {
      TableEntryDecodes(f);
      assert tables'[x][j] == TableEntry(f);
      ZeroTable(tables', f, Next(l), va);
    } else {
      assert tables'[x][j] == e;
      if IsValid(e) && l != L3 && IsTableOrPage(e) {
        InstallWalk(tables, root, at, t, i, f, OutputAddr(e), Next(l), va);
      }
    }
  }

  lemma NoSuchNode(tables: Tables, root: nat, at: map<nat, Node>, t: nat, i: nat)
    requires Tree(tables, root, at) && t in at && i < 512 && !IsValid(tables[t][i])
    ensures forall x :: x in at ==> at[x] != Sub(at[t], i)
  {
    forall x | x in at && x != root
      ensures at[x] != Sub(at[t], i)
    {
      var u :| Anchor(tables, at, at[x], u);
    }
  }

  lemma InstallLabelled(tables: Tables, root: nat, at: map<nat, Node>, t: nat, i: nat, f: nat)
    requires Labelled(tables, root, at) && FreshFrame(tables, f) && t in at && i < 512 && DepthOf(at[t]) < 3
    requires forall x :: x in at ==> at[x] != Sub(at[t], i)
    ensures Labelled(Install(tables, t, i, f), root, at[f := Sub(at[t], i)])
  {
  }

  lemma InstallWords(tables: Tables, root: nat, at: map<nat, Node>, t: nat, i: nat, f: nat)
    requires Labelled(tables, root, at) && WordsOk(tables, at) && FreshFrame(tables, f)
    requires t in at && i < 512 && DepthOf(at[t]) < 3
    ensures WordsOk(Install(tables, t, i, f), at[f := Sub(at[t], i)])
  {
    var tables', at' := Install(tables, t, i, f), at[f := Sub(at[t], i)];
    TableEntryDecodes(f);
    forall x, j: nat | x in at' && IsTable(tables', x) && j < 512
      ensures WordOk(at', at'[x], j, tables'[x][j])
    {
      if x == f {
        assert tables'[x][j] == 0;
      } else if x == t && j == i {
        assert tables'[x][j] == TableEntry(f);
      } else {
        assert tables'[x][j] == tables[x][j];
        assert WordOk(at, at[x], j, tables[x][j]);
      }
    }
  }

  lemma InstallAnchored(tables: Tables, root: nat, at: map<nat, Node>, t: nat, i: nat, f: nat)
    requires Labelled(tables, root, at) && Anchored(tables, root, at) && FreshFrame(tables, f) && t in at && i < 512
    ensures Anchored(Install(tables, t, i, f), root, at[f := Sub(at[t], i)])
  {
    var tables', at' := Install(tables, t, i, f), at[f := Sub(at[t], i)];
    TableEntryDecodes(f);
    forall x | x in at' && x != root
      ensures exists u :: Anchor(tables', at', at'[x], u)
    {
      if x == f {
        assert Anchor(tables', at', at'[x], t);
      } else {
        var u :| Anchor(tables, at, at[x], u);
        assert Anchor(tables', at', at'[x], u);
      }
    }
  }

  lemma InstallTree(tables: Tables, root: nat, at: map<nat, Node>, t: nat, i: nat, f: nat)
    requires Tree(tables, root, at) && FreshFrame(tables, f) && t in at && i < 512 && DepthOf(at[t]) < 3
    requires !IsValid(tables[t][i])
    ensures Tree(Install(tables, t, i, f), root, at[f := Sub(at[t], i)])
  {
    var tables', at' := Install(tables, t, i, f), at[f := Sub(at[t], i)];
    assert Labelled(tables', root, at') by {
      NoSuchNode(tables, root, at, t, i);
      InstallLabelled(tables, root, at, t, i, f);
    }
    assert WordsOk(tables', at') by { InstallWords(tables, root, at, t, i, f); }
    assert Anchored(tables', root, at') by { InstallAnchored(tables, root, at, t, i, f); }
  }
}
