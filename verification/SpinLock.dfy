/** The spin-lock as a transition system: any number of CPUs, any interleaving,
    each atomic access one step. */
module SpinLock {
  /** Where a CPU is: spinning in `lock`, or holding the guard. A holder entered
      with the data at `entered` and last knew it to be `view`. A CPU that is
      neither is not listed. */
  datatype Pc<T> = Spinning | Holding(entered: T, view: T)

  /** A finished critical section: what it found and what it left. */
  datatype Section<T> = Section(cpu: nat, entered: T, left: T)

  datatype Lock<T> = Lock(locked: bool, data: T, pc: map<nat, Pc<T>>, log: seq<Section<T>>)

  datatype Action<T> = Call(cpu: nat) | Swap(cpu: nat) | Write(cpu: nat, value: T) | Drop(cpu: nat)

  predicate Holds<T>(s: Lock<T>, c: nat) { c in s.pc && s.pc[c].Holding? }

  predicate Enabled<T>(s: Lock<T>, a: Action<T>) {
    match a
    case Call(c) => c !in s.pc
    case Swap(c) => c in s.pc && s.pc[c].Spinning?
    case Write(c, _) => Holds(s, c)
    case Drop(c) => Holds(s, c)
  }

  function Next<T>(s: Lock<T>, a: Action<T>): Lock<T>
    requires Enabled(s, a)
  {
    match a
    case Call(c) => s.(pc := s.pc[c := Spinning])
    case Swap(c) =>
      if s.locked then s else s.(locked := true, pc := s.pc[c := Holding(s.data, s.data)])
    case Write(c, v) => s.(data := v, pc := s.pc[c := s.pc[c].(view := v)])
    case Drop(c) =>
      s.(locked := false, pc := s.pc - {c}, log := s.log + [Section(c, s.pc[c].entered, s.data)])
  }

  function Initial<T>(data: T): Lock<T> { Lock(false, data, map[], []) }

  function LastLeft<T>(init: T, log: seq<Section<T>>): T {
    if log == [] then init else log[|log| - 1].left
  }

  /** Every critical section finds what the one before it left. */
  ghost predicate Serial<T>(init: T, log: seq<Section<T>>) {
    forall k :: 0 <= k < |log| ==> log[k].entered == LastLeft(init, log[..k])
  }

  /** At most one guard; the flag says whether there is one; nobody but the holder
      changes the data; and the finished sections form one serial history. */
  ghost predicate Inv<T>(init: T, s: Lock<T>) {
    && (forall c: nat, d: nat :: Holds(s, c) && Holds(s, d) ==> c == d)
    && (s.locked <==> exists c: nat :: Holds(s, c))
    && Serial(init, s.log)
    && (forall c: nat :: Holds(s, c) ==> s.pc[c].view == s.data && s.pc[c].entered == LastLeft(init, s.log))
    && (!s.locked ==> s.data == LastLeft(init, s.log))
  }

  lemma StepInv<T>(init: T, s: Lock<T>, t: Lock<T>, a: Action<T>)
    requires Inv(init, s) && Enabled(s, a) && t == Next(s, a)
    ensures Inv(init, t)
  {
    match a {
      case Call(c) =>
        assert forall d: nat :: Holds(t, d) <==> Holds(s, d);
      case Swap(c) =>
        assert Holds(t, c) || t == s;
        assert forall d: nat :: Holds(t, d) ==> Holds(s, d) || (d == c && !s.locked);
      case Write(c, v) =>
        assert forall d: nat :: Holds(t, d) <==> Holds(s, d);
      case Drop(c) =>
        assert forall d: nat :: Holds(t, d) <==> Holds(s, d) && d != c;
        SerialGrows(init, s.log, t.log[|s.log|]);
    }
  }

  lemma SerialGrows<T>(init: T, log: seq<Section<T>>, e: Section<T>)
    requires Serial(init, log) && e.entered == LastLeft(init, log)
    ensures Serial(init, log + [e])
  {
  }

  ghost predicate LegalRun<T>(s: Lock<T>, acts: seq<Action<T>>)
    decreases |acts|
  {
    acts == [] || (Enabled(s, acts[0]) && LegalRun(Next(s, acts[0]), acts[1..]))
  }

  function Run<T>(s: Lock<T>, acts: seq<Action<T>>): Lock<T>
    requires LegalRun(s, acts)
    decreases |acts|
  {
    if acts == [] then s else Run(Next(s, acts[0]), acts[1..])
  }

  /** In every interleaving there is at most one guard at any time, the holder
      sees its own last write, and the critical sections are serial: none finds
      anything but what the one before it left. */
  lemma {:induction false} MutualExclusion<T>(init: T, s: Lock<T>, acts: seq<Action<T>>)
    requires Inv(init, s) && LegalRun(s, acts)
    ensures Inv(init, Run(s, acts))
    decreases |acts|
  {
    if acts != [] {
      StepInv(init, s, Next(s, acts[0]), acts[0]);
      MutualExclusion(init, Next(s, acts[0]), acts[1..]);
    }
  }

  lemma InitialInv<T>(init: T)
    ensures Inv(init, Initial(init))
  {
  }

  ghost predicate AddOne(log: seq<Section<int>>) {
    forall k :: 0 <= k < |log| ==> log[k].left == log[k].entered + 1
  }

  /** In a serial history of sections that each add one, none is lost. */
  lemma {:induction false} SerialCount(init: int, log: seq<Section<int>>)
    requires Serial(init, log) && AddOne(log)
    ensures LastLeft(init, log) == init + |log|
  {
    if log != [] {
      var n := |log| - 1;
      assert forall k :: 0 <= k < n ==> log[..n][..k] == log[..k];
      SerialCount(init, log[..n]);
    }
  }

  /** Every CPU that takes the lock adds one to what it finds and lets go. */
  ghost predicate Increments(s: Lock<int>, acts: seq<Action<int>>)
    decreases |acts|
  {
    acts == [] ||
    (&& Enabled(s, acts[0])
     && (acts[0].Write? ==> acts[0].value == s.pc[acts[0].cpu].entered + 1)
     && (acts[0].Drop? ==> s.pc[acts[0].cpu].view == s.pc[acts[0].cpu].entered + 1)
     && Increments(Next(s, acts[0]), acts[1..]))
  }

  /** However the CPUs interleave, no update is lost: whenever the lock is free the
      counter has gone up once for each finished section. */
  lemma {:induction false} NoLostUpdate(init: int, s: Lock<int>, acts: seq<Action<int>>)
    requires Inv(init, s) && AddOne(s.log) && LegalRun(s, acts) && Increments(s, acts)
    ensures var t := Run(s, acts); AddOne(t.log) && (!t.locked ==> t.data == init + |t.log|)
    decreases |acts|
  {
    if acts == [] {
      SerialCount(init, s.log);
    } else {
      StepInv(init, s, Next(s, acts[0]), acts[0]);
      NoLostUpdate(init, Next(s, acts[0]), acts[1..]);
    }
  }

  /** The lock is never lost: a spinning CPU gets it at its next swap whenever no
      guard is out, and otherwise goes on spinning. */
  lemma FreeLockIsTaken<T>(init: T, s: Lock<T>, c: nat)
    requires Inv(init, s) && Enabled(s, Swap(c))
    ensures Holds(Next(s, Swap(c)), c) <==> !exists d: nat :: Holds(s, d)
    ensures (exists d: nat :: Holds(s, d)) ==> Next(s, Swap(c)) == s
  {
  }

  lemma RunOne<T>(s: Lock<T>, a: Action<T>, rest: seq<Action<T>>)
    requires Enabled(s, a) && LegalRun(Next(s, a), rest)
    ensures LegalRun(s, [a] + rest) && Run(s, [a] + rest) == Run(Next(s, a), rest)
  {
    assert ([a] + rest)[1..] == rest;
  }

  /** On a free lock, `lock`, a write through the guard and its drop leave the written
      data, the lock free again, and one more finished section. */
  lemma Uncontended<T>(init: T, s: Lock<T>, c: nat, v: T)
    requires Inv(init, s) && !s.locked && c !in s.pc
    ensures var acts := [Call(c), Swap(c), Write(c, v), Drop(c)];
      LegalRun(s, acts) && Run(s, acts) == s.(data := v, log := s.log + [Section(c, s.data, v)])
  {
    var s1 := Next(s, Call(c));
    var s2 := Next(s1, Swap(c));
    var s3 := Next(s2, Write(c, v));
    var s4 := Next(s3, Drop(c));
    assert s4.pc == s.pc;
    RunOne(s3, Drop(c), []);
    RunOne(s2, Write(c, v), [Drop(c)]);
    RunOne(s1, Swap(c), [Write(c, v), Drop(c)]);
    RunOne(s, Call(c), [Swap(c), Write(c, v), Drop(c)]);
  }
}
