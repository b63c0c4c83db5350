/** The buddy allocator behind its spin-lock: any number of CPUs, any interleaving,
    each critical section one operation of the allocator. */
module LockedBuddy {
  import opened BuddyModel
  import R = BuddyRuns
  import L = SpinLock

  /** One operation, called as the allocator asks of its callers. */
  ghost predicate Does(before: State, op: R.Op, after: State) {
    WF(before) && R.Legal(before, op) && after == R.Step(before, op)
  }

  ghost predicate DoesOne(before: State, after: State) {
    WF(before) ==> exists op: R.Op :: Does(before, op, after)
  }

  /** Between taking the lock and letting it go a CPU may write as often as it likes;
      what it leaves is one operation on what it found. */
  ghost predicate Callers(s: L.Lock<State>, acts: seq<L.Action<State>>)
    requires L.LegalRun(s, acts)
    decreases |acts|
  {
    acts == [] ||
    (&& (acts[0].Drop? ==> DoesOne(s.pc[acts[0].cpu].entered, s.data))
     && Callers(L.Next(s, acts[0]), acts[1..]))
  }

  ghost predicate AllDoOne(log: seq<L.Section<State>>) {
    forall k :: 0 <= k < |log| ==> DoesOne(log[k].entered, log[k].left)
  }

  /** The operations, in the order of the log, are a legal run that takes the
      allocator from section to section. */
  ghost predicate Linear(init: State, log: seq<L.Section<State>>, ops: seq<R.Op>)
    requires WF(init)
  {
    && |ops| == |log| && R.LegalRun(init, ops)
    && forall k :: 0 <= k < |log| ==> Does(log[k].entered, ops[k], log[k].left)
  }

  lemma {:induction false} RunMore(s: State, ops: seq<R.Op>, op: R.Op)
    requires WF(s) && R.LegalRun(s, ops) && WF(R.Run(s, ops)) && R.Legal(R.Run(s, ops), op)
    ensures R.LegalRun(s, ops + [op]) && R.Run(s, ops + [op]) == R.Step(R.Run(s, ops), op)
    decreases |ops|
  {
    if ops == [] {
      assert (ops + [op])[1..] == [];
      R.StepWF(s, op);
    } else {
      R.StepWF(s, ops[0]);
      RunMore(R.Step(s, ops[0]), ops[1..], op);
      assert (ops + [op])[1..] == ops[1..] + [op];
    }
  }

  lemma {:induction false} RunWF(s: State, ops: seq<R.Op>)
    requires WF(s) && R.LegalRun(s, ops)
    ensures WF(R.Run(s, ops))
    decreases |ops|
  {
    if ops != [] {
      R.StepWF(s, ops[0]);
      RunWF(R.Step(s, ops[0]), ops[1..]);
    }
  }

  /** A serial history of operations is a run. */
  lemma {:induction false} SerialIsRun(init: State, log: seq<L.Section<State>>) returns (ops: seq<R.Op>)
    requires WF(init) && L.Serial(init, log) && AllDoOne(log)
    ensures Linear(init, log, ops) && L.LastLeft(init, log) == R.Run(init, ops)
    decreases |log|
  {
    ops := [];
    if log != [] {
      var n := |log| - 1;
      assert forall k :: 0 <= k < n ==> log[..n][..k] == log[..k];
      ops := SerialIsRun(init, log[..n]);
      RunWF(init, ops);
      assert DoesOne(log[n].entered, log[n].left);
      var op :| Does(log[n].entered, op, log[n].left);
      OneMore(init, log, ops, op);
      ops := ops + [op];
    }
  }

  lemma OneMore(init: State, log: seq<L.Section<State>>, ops: seq<R.Op>, op: R.Op)
    requires WF(init) && log != [] && Linear(init, log[..|log| - 1], ops)
    requires var e := log[|log| - 1]; Does(e.entered, op, e.left) && e.entered == R.Run(init, ops)
    ensures Linear(init, log, ops + [op]) && R.Run(init, ops + [op]) == log[|log| - 1].left
  {
    var n, more := |log| - 1, ops + [op];
    RunMore(init, ops, op);
    forall k | 0 <= k < |log| ensures Does(log[k].entered, more[k], log[k].left) {
      assert k < n ==> log[..n][k] == log[k];
    }
  }

  lemma StepDoesOne(s: L.Lock<State>, t: L.Lock<State>, a: L.Action<State>)
    requires L.Enabled(s, a) && t == L.Next(s, a) && AllDoOne(s.log)
    requires a.Drop? ==> DoesOne(s.pc[a.cpu].entered, s.data)
    ensures AllDoOne(t.log)
  {
  }

  lemma {:induction false} RunDoesOne(s: L.Lock<State>, acts: seq<L.Action<State>>)
    requires L.LegalRun(s, acts) && Callers(s, acts) && AllDoOne(s.log)
    ensures AllDoOne(L.Run(s, acts).log)
    decreases |acts|
  {
    if acts != [] {
      StepDoesOne(s, L.Next(s, acts[0]), acts[0]);
      RunDoesOne(L.Next(s, acts[0]), acts[1..]);
    }
  }

  /** However the CPUs interleave, there is one run of the allocator, an operation for
      each finished critical section in the order of the log. Whenever the lock is
      free the shared state is what that run leaves; a holder found just that, too. So
      every frame is free, live or reserved, and only one of these, in each of them. */
  lemma LockedRun(init: State, acts: seq<L.Action<State>>) returns (ops: seq<R.Op>)
    requires WF(init) && Covered(init)
    requires L.LegalRun(L.Initial(init), acts) && Callers(L.Initial(init), acts)
    ensures var t := L.Run(L.Initial(init), acts);
      && Linear(init, t.log, ops) && L.Inv(init, t)
      && (!t.locked ==> t.data == R.Run(init, ops))
      && (forall c: nat :: L.Holds(t, c) ==> t.pc[c].entered == R.Run(init, ops))
    ensures var u := R.Run(init, ops);
      && WF(u) && Covered(u) && FreeCount(u.lists) + |R.LiveSet(u)| + |u.reserved| == init.nr
      && R.FreeSet(u) !! R.LiveSet(u) !! u.reserved
  {
    var s := L.Initial(init);
    L.InitialInv(init);
    L.MutualExclusion(init, s, acts);
    RunDoesOne(s, acts);
    ops := SerialIsRun(init, L.Run(s, acts).log);
    R.RunInvariant(init, ops);
  }
}
