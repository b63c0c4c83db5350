/** The single-initialisation cell as a transition system: any number of CPUs in
    `call_once` and `get`, any interleaving, each atomic access one step. The
    write of the value itself takes two steps, so a reader could see it torn. */
module Once {
  datatype Status = Uninit | Running | Ready

  /** The storage: never written, half written, or holding a value. */
  datatype Value<T> = Raw | Torn | Whole(value: T)

  /** Where a CPU is. In `call_once`: before the exchange, having won it, with the
      initialiser's result in hand, in the middle of storing it, stored, or
      waiting. `Reading` is past the check for READY, in either function. A CPU in
      neither function is not listed. */
  datatype Pc<T> = Calling | Won | Made(v: T) | Storing(v: T) | Stored(v: T) | Waiting | Getting | Reading

  /** `runs` holds the result of each run of an initialiser, `seen` what each
      exposure of the value showed. */
  datatype Cell<T> = Cell(status: Status, value: Value<T>, pc: map<nat, Pc<T>>, runs: seq<T>, seen: seq<Value<T>>)

  datatype Action<T> =
    | CallOnce(cpu: nat)
    | Exchange(cpu: nat)
    | Init(cpu: nat, made: T)
    | BeginStore(cpu: nat)
    | EndStore(cpu: nat)
    | Publish(cpu: nat)
    | Poll(cpu: nat)
    | CallGet(cpu: nat)
    | Check(cpu: nat)
    | Read(cpu: nat)

  predicate Enabled<T>(s: Cell<T>, a: Action<T>) {
    var c := a.cpu;
    match a
    case CallOnce(_) => c !in s.pc
    case CallGet(_) => c !in s.pc
    case Exchange(_) => c in s.pc && s.pc[c].Calling?
    case Init(_, _) => c in s.pc && s.pc[c].Won?
    case BeginStore(_) => c in s.pc && s.pc[c].Made?
    case EndStore(_) => c in s.pc && s.pc[c].Storing?
    case Publish(_) => c in s.pc && s.pc[c].Stored?
    case Poll(_) => c in s.pc && s.pc[c].Waiting?
    case Check(_) => c in s.pc && s.pc[c].Getting?
    case Read(_) => c in s.pc && s.pc[c].Reading?
  }

  function Next<T>(s: Cell<T>, a: Action<T>): Cell<T>
    requires Enabled(s, a)
  {
    var c := a.cpu;
    match a
    case CallOnce(_) => s.(pc := s.pc[c := Calling])
    case CallGet(_) => s.(pc := s.pc[c := Getting])
    case Exchange(_) =>
      if s.status == Uninit then s.(status := Running, pc := s.pc[c := Won]) else s.(pc := s.pc[c := Waiting])
    case Init(_, v) => s.(pc := s.pc[c := Made(v)], runs := s.runs + [v])
    case BeginStore(_) => s.(value := Torn, pc := s.pc[c := Storing(s.pc[c].v)])
    case EndStore(_) => s.(value := Whole(s.pc[c].v), pc := s.pc[c := Stored(s.pc[c].v)])
    case Publish(_) => s.(status := Ready, pc := s.pc[c := Reading])
    case Poll(_) => if s.status == Ready then s.(pc := s.pc[c := Reading]) else s
    case Check(_) => if s.status == Ready then s.(pc := s.pc[c := Reading]) else s.(pc := s.pc - {c})
    case Read(_) => s.(pc := s.pc - {c}, seen := s.seen + [s.value])
  }

  function Initial<T>(): Cell<T> { Cell(Uninit, Raw, map[], [], []) }

  /** The CPU that won the exchange and has not published yet. */
  predicate Winner<T>(s: Cell<T>, c: nat) {
    c in s.pc && (s.pc[c].Won? || s.pc[c].Made? || s.pc[c].Storing? || s.pc[c].Stored?)
  }

  /** The storage and the initialisers run, as far as the winner has come. */
  ghost predicate WinnerOk<T>(s: Cell<T>, p: Pc<T>) {
    match p
    case Won => s.value == Raw && s.runs == []
    case Made(v) => s.value == Raw && s.runs == [v]
    case Storing(v) => s.value == Torn && s.runs == [v]
    case Stored(v) => s.value == Whole(v) && s.runs == [v]
    case _ => true
  }

  ghost predicate Inv<T>(s: Cell<T>) {
    && (forall c: nat, d: nat :: Winner(s, c) && Winner(s, d) ==> c == d)
    && (s.status == Running <==> exists c: nat :: Winner(s, c))
    && (forall c: nat :: Winner(s, c) ==> WinnerOk(s, s.pc[c]))
    && (s.status == Uninit ==> s.value == Raw && s.runs == [])
    && (s.status == Ready ==> |s.runs| == 1 && s.value == Whole(s.runs[0]))
    && (forall c: nat :: c in s.pc && s.pc[c].Reading? ==> s.status == Ready)
    && (s.seen != [] ==> s.status == Ready)
    && (forall k :: 0 <= k < |s.seen| ==> s.seen[k] == s.value)
  }

  lemma StepInv<T>(s: Cell<T>, t: Cell<T>, a: Action<T>)
    requires Inv(s) && Enabled(s, a) && t == Next(s, a)
    ensures Inv(t)
  {
    var c := a.cpu;
    assert forall d: nat :: d != c ==> (Winner(t, d) <==> Winner(s, d));
    assert a.Exchange? && s.status == Uninit ==> Winner(t, c);
    assert Winner(s, c) && !a.Publish? ==> Winner(t, c);
  }

  /** Once READY, every step keeps the state and the value. */
  lemma StepKeepsValue<T>(s: Cell<T>, t: Cell<T>, a: Action<T>)
    requires Inv(s) && Enabled(s, a) && t == Next(s, a) && s.status == Ready
    ensures t.status == Ready && t.value == s.value && t.runs == s.runs
  {
  }

  ghost predicate LegalRun<T>(s: Cell<T>, acts: seq<Action<T>>)
    decreases |acts|
  {
    acts == [] || (Enabled(s, acts[0]) && LegalRun(Next(s, acts[0]), acts[1..]))
  }

  function Run<T>(s: Cell<T>, acts: seq<Action<T>>): Cell<T>
    requires LegalRun(s, acts)
    decreases |acts|
  {
    if acts == [] then s else Run(Next(s, acts[0]), acts[1..])
  }

  lemma InitialInv<T>()
    ensures Inv(Initial<T>())
  {
  }

  /** In every interleaving at most one initialiser runs, and whatever `call_once`
      or `get` exposes is the whole value that it made. */
  lemma {:induction false} InitialisedOnce<T>(s: Cell<T>, acts: seq<Action<T>>)
    requires Inv(s) && LegalRun(s, acts)
    ensures var t := Run(s, acts);
      Inv(t) && |t.runs| <= 1 && forall k :: 0 <= k < |t.seen| ==> |t.runs| == 1 && t.seen[k] == Whole(t.runs[0])
    decreases |acts|
  {
    if acts != [] {
      StepInv(s, Next(s, acts[0]), acts[0]);
      InitialisedOnce(Next(s, acts[0]), acts[1..]);
    } else {
      AtMostOneRun(s);
    }
  }

  lemma AtMostOneRun<T>(s: Cell<T>)
    requires Inv(s)
    ensures |s.runs| <= 1
  {
  }

  /** From READY on, no continuation changes the value. */
  lemma {:induction false} ValueIsStable<T>(s: Cell<T>, acts: seq<Action<T>>)
    requires Inv(s) && LegalRun(s, acts) && s.status == Ready
    ensures Run(s, acts).status == Ready && Run(s, acts).value == s.value
    decreases |acts|
  {
    if acts != [] {
      StepInv(s, Next(s, acts[0]), acts[0]);
      StepKeepsValue(s, Next(s, acts[0]), acts[0]);
      ValueIsStable(Next(s, acts[0]), acts[1..]);
    }
  }

  // ---------- what a call returns ----------

  lemma RunOne<T>(s: Cell<T>, a: Action<T>, rest: seq<Action<T>>)
    requires Enabled(s, a) && LegalRun(Next(s, a), rest)
    ensures LegalRun(s, [a] + rest) && Run(s, [a] + rest) == Run(Next(s, a), rest)
  {
    assert ([a] + rest)[1..] == rest;
  }

  /** `get` exposes the value that was made exactly when the cell is READY at its
      check, and otherwise returns without exposing anything. */
  lemma GetAnswers<T>(s: Cell<T>, c: nat)
    requires Inv(s) && c !in s.pc
    ensures s.status == Ready ==>
      var acts := [CallGet(c), Check(c), Read(c)];
      LegalRun(s, acts) && |s.runs| == 1 && Run(s, acts) == s.(seen := s.seen + [Whole(s.runs[0])])
    ensures s.status != Ready ==>
      var acts := [CallGet(c), Check(c)];
      LegalRun(s, acts) && Run(s, acts) == s
  {
    var t := Next(s, CallGet(c));
    var u := Next(t, Check(c));
    if s.status == Ready {
      assert Run(Next(u, Read(c)), []) == s.(seen := s.seen + [Whole(s.runs[0])]) by {
        assert Next(u, Read(c)).pc == s.pc;
      }
      RunOne(u, Read(c), []);
      RunOne(t, Check(c), [Read(c)]);
      RunOne(s, CallGet(c), [Check(c), Read(c)]);
    } else {
      assert u.pc == s.pc;
      RunOne(t, Check(c), []);
      RunOne(s, CallGet(c), [Check(c)]);
    }
  }

  /** The exchange is won exactly when nobody has won it before; the others wait. */
  lemma ExchangeWins<T>(s: Cell<T>, c: nat)
    requires Inv(s) && Enabled(s, Exchange(c))
    ensures var t := Next(s, Exchange(c));
      && (Winner(t, c) <==> s.status == Uninit) && (s.status != Uninit ==> t == s.(pc := s.pc[c := Waiting]))
  {
  }

  /** A waiting CPU gets past its poll exactly when the cell is READY, and then gets
      the value that was made. */
  lemma WaiterAnswered<T>(s: Cell<T>, c: nat)
    requires Inv(s) && Enabled(s, Poll(c))
    ensures s.status != Ready ==> Next(s, Poll(c)) == s
    ensures s.status == Ready ==>
      var acts := [Poll(c), Read(c)];
      && LegalRun(s, acts) && |s.runs| == 1
      && Run(s, acts) == s.(pc := s.pc - {c}, seen := s.seen + [Whole(s.runs[0])])
  {
    if s.status == Ready {
      var t := Next(s, Poll(c));
      assert Next(t, Read(c)).pc == s.pc - {c};
      RunOne(t, Read(c), []);
      RunOne(s, Poll(c), [Read(c)]);
    }
  }

  /** What is left for the winner to do, the initialiser giving v if it has yet to run. */
  function ToDo<T>(p: Pc<T>, c: nat, v: T): seq<Action<T>> {
    match p
    case Won => [Init(c, v), BeginStore(c), EndStore(c), Publish(c), Read(c)]
    case Made(_) => [BeginStore(c), EndStore(c), Publish(c), Read(c)]
    case Storing(_) => [EndStore(c), Publish(c), Read(c)]
    case Stored(_) => [Publish(c), Read(c)]
    case _ => [Read(c)]
  }

  /** Wherever the winner is, its own steps lead to READY with the value its
      initialiser made, and it returns that value. */
  lemma {:induction false} WinnerFinishes<T>(s: Cell<T>, c: nat, v: T)
    requires Inv(s) && c in s.pc && (Winner(s, c) || s.pc[c].Reading?)
    ensures var acts := ToDo(s.pc[c], c, v); var made := if s.runs == [] then v else s.runs[0];
      LegalRun(s, acts) &&
      Run(s, acts) == Cell(Ready, Whole(made), s.pc - {c}, [made], s.seen + [Whole(made)])
    decreases |ToDo(s.pc[c], c, v)|
  {
    var acts := ToDo(s.pc[c], c, v);
    var t := Next(s, acts[0]);
    StepInv(s, t, acts[0]);
    if s.pc[c].Reading? {
      assert t.pc == s.pc - {c};
      RunOne(s, acts[0], []);
    } else {
      WinnerFinishes(t, c, v);
      assert t.pc - {c} == s.pc - {c};
      assert acts == [acts[0]] + ToDo(t.pc[c], c, v);
      RunOne(s, acts[0], ToDo(t.pc[c], c, v));
    }
  }

  /** A first `call_once`, undisturbed, returns what its initialiser made. */
  lemma FirstCall<T>(s: Cell<T>, c: nat, v: T)
    requires Inv(s) && s.status == Uninit && c !in s.pc
    ensures var acts := [CallOnce(c), Exchange(c)] + ToDo(Won, c, v);
      LegalRun(s, acts) && Run(s, acts) == Cell(Ready, Whole(v), s.pc, [v], s.seen + [Whole(v)])
  {
    var t := Next(s, CallOnce(c));
    var u := Next(t, Exchange(c));
    StepInv(s, t, CallOnce(c));
    StepInv(t, u, Exchange(c));
    WinnerFinishes(u, c, v);
    assert u.pc - {c} == s.pc;
    RunOne(t, Exchange(c), ToDo(Won, c, v));
    RunOne(s, CallOnce(c), [Exchange(c)] + ToDo(Won, c, v));
    assert [CallOnce(c), Exchange(c)] + ToDo(Won, c, v) == [CallOnce(c)] + ([Exchange(c)] + ToDo(Won, c, v));
  }
}
