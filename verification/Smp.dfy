/** Bringing up the secondary CPUs as a transition system: the primary's loop, the
    secondaries that report in, and other users of the buddy allocator, in any
    interleaving. */
module Smp {
  import opened Bits
  import opened Wrappers
  import B = BuddyModel
  import R = BuddyRuns
  import U = BuddyUnits
  import opened SlabLayout
  import H = Heap

  const MAX_CPUS: nat := 128
  const STACK_ORDER: nat := 4
  const STACK_SIZE: nat := 64 * 1024

  /** What the primary does next: look at the next node, start the CPU it has
      prepared, or wait for it. */
  datatype Phase = Loop | Armed | Waiting | Ok | TooManyCpus | OutOfMemory | Psci

  /** `online` is the set of bits of CPU_ONLINE; `marked` the ids that really
      called `mark_online`. `data`, `stacks` and `tops` hold what was set up for an
      id: its hardware id, the first frame of its stack, and the stack top. */
  datatype Boot = Boot(
    phase: Phase, next: nat, online: set<nat>, marked: set<nat>, started: set<nat>,
    data: map<nat, nat>, stacks: map<nat, nat>, tops: map<nat, nat>, buddy: B.State)

  datatype Action = Prepare | CpuOn(accepted: bool) | Wait | Report(cpu: nat) | Other(op: R.Op)

  /** The buddy allocator is well formed; the details stay behind a key. */
  ghost predicate Sound(b: B.State) {
    |b.lists| == B.MAX_ORDER && forall z: nat :: Key(z) ==> B.WF(b)
  }

  lemma Open(b: B.State)
    requires Sound(b)
    ensures B.WF(b)
  {
    assert Key(0);
  }

  /** The nodes of the device tree other than the primary, in order. */
  function Secondaries(primary: nat, nodes: seq<nat>): seq<nat> {
    if nodes == [] then []
    else
      var last := nodes[|nodes| - 1];
      Secondaries(primary, nodes[..|nodes| - 1]) + if last == primary then [] else [last]
  }

  /** `next_idx` starts at 1. At node i the loop either skips the primary, and
      `next_idx` stays, or meets the secondary that `next_idx` numbers. */
  lemma {:induction false} SkipsPrimary(primary: nat, nodes: seq<nat>, i: nat)
    requires i < |nodes|
    ensures Secondaries(primary, nodes[..0]) == []
    ensures var next := |Secondaries(primary, nodes[..i])| + 1; var secs := Secondaries(primary, nodes);
      if nodes[i] == primary then |Secondaries(primary, nodes[..i + 1])| + 1 == next
      else |Secondaries(primary, nodes[..i + 1])| == next <= |secs| && secs[next - 1] == nodes[i]
    decreases |nodes|
  {
    var n := |nodes| - 1;
    assert nodes[..i + 1][..i] == nodes[..i];
    if i < n {
      SkipsPrimary(primary, nodes[..n], i);
      assert nodes[..n][..i] == nodes[..i] && nodes[..n][..i + 1] == nodes[..i + 1];
    } else {
      assert nodes[..i + 1] == nodes;
    }
  }

  /** Bit of an id in the 64-bit word: the shift distance is taken modulo 64. */
  function Bit(cpu: nat): nat { cpu % 64 }

  predicate IsOnline(s: Boot, cpu: nat) { Bit(cpu) in s.online }

  ghost predicate Enabled(secs: seq<nat>, s: Boot, a: Action) {
    match a
    case Prepare => s.phase == Loop
    case CpuOn(_) => s.phase == Armed
    case Wait => s.phase == Waiting
    case Report(c) => c in s.started && c !in s.marked
    case Other(op) => R.Legal(s.buddy, op) && (op.DoFree? ==> op.pfn !in s.stacks.Values)
  }

  /** The next node of the device tree, if there is one: too many CPUs, no memory
      for a stack, or everything the secondary needs is in place. */
  function SetUpNext(secs: seq<nat>, base: nat, s: Boot): Boot
    requires |s.buddy.lists| == B.MAX_ORDER && 1 <= s.next
  {
    if s.next > |secs| then s.(phase := Ok)
    else if s.next >= MAX_CPUS then s.(phase := TooManyCpus)
    else
      var t := s.(data := s.data[s.next := secs[s.next - 1]]);
      match B.Alloc(s.buddy, STACK_ORDER)
      case (_, None) => t.(phase := OutOfMemory)
      case (b, Some(p)) =>
        t.(phase := Armed, buddy := b, stacks := s.stacks[s.next := p],
           tops := s.tops[s.next := PageAddr(base, p) + STACK_SIZE])
  }

  ghost function Next(secs: seq<nat>, base: nat, s: Boot, a: Action): Boot
    requires Sound(s.buddy) && 1 <= s.next && Enabled(secs, s, a)
  {
    match a
    case Prepare => SetUpNext(secs, base, s)
    case CpuOn(accepted) =>
      if accepted then s.(phase := Waiting, started := s.started + {s.next}) else s.(phase := Psci)
    case Wait => if IsOnline(s, s.next) then s.(phase := Loop, next := s.next + 1) else s
    case Report(c) => s.(online := s.online + {Bit(c)}, marked := s.marked + {c})
    case Other(op) => Open(s.buddy); s.(buddy := R.Step(s.buddy, op))
  }

  /** The primary has marked itself online and is about to look at the list. */
  function Initial(b: B.State): Boot {
    Boot(Loop, 1, {0}, {0}, {0}, map[], map[], map[], b)
  }

  /** How many ids have been set up. */
  function SetUp(s: Boot): int {
    if s.phase == Armed || s.phase == Waiting || s.phase == Psci then s.next else s.next - 1
  }

  ghost predicate StacksOk(base: nat, s: Boot) {
    && (forall c: nat :: c in s.stacks <==> 1 <= c <= SetUp(s))
    && (forall c: nat :: c in s.stacks ==> B.LiveBlock(s.buddy, s.stacks[c], STACK_ORDER))
    && (forall c: nat, d: nat :: c in s.stacks && d in s.stacks && c != d ==> s.stacks[c] != s.stacks[d])
    && (forall c: nat :: c in s.stacks ==> c in s.tops && s.tops[c] == PageAddr(base, s.stacks[c]) + STACK_SIZE)
  }

  ghost predicate IdsOk(secs: seq<nat>, s: Boot) {
    && 1 <= s.next <= |secs| + 1 && SetUp(s) <= |secs| && SetUp(s) < MAX_CPUS
    && (s.phase == Ok ==> s.next == |secs| + 1)
    && (forall c: nat :: 1 <= c <= SetUp(s) ==> c in s.data && s.data[c] == secs[c - 1])
    && (forall c: nat :: c in s.started <==> c < s.next || (s.phase == Waiting && c == s.next))
    && s.marked <= s.started && (forall b: nat :: b in s.online <==> exists c: nat :: c in s.marked && Bit(c) == b)
    && (forall c: nat :: c < s.next && c < 64 ==> c in s.marked)
  }

  ghost predicate Inv(secs: seq<nat>, base: nat, s: Boot) {
    IdsOk(secs, s) && Sound(s.buddy) && StacksOk(base, s)
  }

  lemma InitialInv(secs: seq<nat>, base: nat, b: B.State)
    requires B.WF(b)
    ensures Inv(secs, base, Initial(b))
  {
  }

  lemma PrepareInv(secs: seq<nat>, base: nat, s: Boot, t: Boot)
    requires Inv(secs, base, s) && s.phase == Loop && t == SetUpNext(secs, base, s)
    ensures Inv(secs, base, t)
  {
    PrepareIds(secs, base, s, t);
    StackFromBuddy(s.buddy);
    if t.phase == Armed { StackAdded(base, s, t, B.Alloc(s.buddy, STACK_ORDER).1.value); }
  }

  lemma PrepareIds(secs: seq<nat>, base: nat, s: Boot, t: Boot)
    requires IdsOk(secs, s) && |s.buddy.lists| == B.MAX_ORDER && s.phase == Loop && t == SetUpNext(secs, base, s)
    ensures IdsOk(secs, t)
  {
  }

  lemma StackAdded(base: nat, s: Boot, t: Boot, p: nat)
    requires StacksOk(base, s) && p !in s.buddy.live && t.buddy.live == s.buddy.live[p := STACK_ORDER]
    requires 1 <= s.next && SetUp(t) == SetUp(s) + 1 == s.next && t.stacks == s.stacks[s.next := p]
    requires t.tops == s.tops[s.next := PageAddr(base, p) + STACK_SIZE]
    ensures StacksOk(base, t)
  {
    assert forall c: nat :: c in s.stacks ==> s.stacks[c] != p;
  }

  /** A new stack is a block that was not live, and no other block changes. */
  lemma StackFromBuddy(b: B.State)
    requires Sound(b)
    ensures var (b', r) := B.Alloc(b, STACK_ORDER);
      Sound(b') && (r.Some? ==> r.value !in b.live && b'.live == b.live[r.value := STACK_ORDER])
  {
    Open(b);
    H.BuddyGives(b, STACK_ORDER);
  }

  /** A bit below 64 that a CPU waits for can only come from that CPU. */
  lemma OwnBit(secs: seq<nat>, base: nat, s: Boot)
    requires Inv(secs, base, s) && s.phase == Waiting && s.next < 64
    ensures IsOnline(s, s.next) <==> s.next in s.marked
  {
  }

  lemma StepInv(secs: seq<nat>, base: nat, s: Boot, t: Boot, a: Action)
    requires Inv(secs, base, s) && Enabled(secs, s, a) && t == Next(secs, base, s, a)
    ensures Inv(secs, base, t)
  {
    match a {
      case Prepare => PrepareInv(secs, base, s, t);
      case CpuOn(accepted) => CpuOnInv(secs, base, s, t, accepted);
      case Wait => WaitInv(secs, base, s, t);
      case Report(c) => ReportInv(secs, base, s, t, c);
      case Other(op) => OtherInv(secs, base, s, t, op);
    }
  }

  lemma CpuOnInv(secs: seq<nat>, base: nat, s: Boot, t: Boot, accepted: bool)
    requires Inv(secs, base, s) && s.phase == Armed && t == Next(secs, base, s, CpuOn(accepted))
    ensures Inv(secs, base, t)
  {
  }

  lemma WaitInv(secs: seq<nat>, base: nat, s: Boot, t: Boot)
    requires Inv(secs, base, s) && s.phase == Waiting && t == Next(secs, base, s, Wait)
    ensures Inv(secs, base, t)
  {
    if s.next < 64 { OwnBit(secs, base, s); }
  }

  lemma ReportInv(secs: seq<nat>, base: nat, s: Boot, t: Boot, c: nat)
    requires Inv(secs, base, s) && Enabled(secs, s, Report(c)) && t == Next(secs, base, s, Report(c))
    ensures Inv(secs, base, t)
  {
  }

  lemma OtherInv(secs: seq<nat>, base: nat, s: Boot, t: Boot, op: R.Op)
    requires Inv(secs, base, s) && Enabled(secs, s, Other(op)) && t == Next(secs, base, s, Other(op))
    ensures Inv(secs, base, t)
  {
    Open(s.buddy);
    OthersKeepStacks(s.buddy, t.buddy, op);
  }

  lemma OthersKeepStacks(b: B.State, b': B.State, op: R.Op)
    requires Sound(b) && B.WF(b) && R.Legal(b, op) && b' == R.Step(b, op)
    ensures Sound(b') && forall p: nat :: p in b.live && !(op.DoFree? && op.pfn == p) ==>
      p in b'.live && b'.live[p] == b.live[p]
  {
    R.StepWF(b, op);
    R.StepRefines(b, op);
  }

  // ---------- whole runs ----------

  ghost predicate LegalRun(secs: seq<nat>, base: nat, s: Boot, acts: seq<Action>)
    requires Inv(secs, base, s)
    decreases |acts|
  {
    acts == [] ||
    (Enabled(secs, s, acts[0]) &&
     (var t := Next(secs, base, s, acts[0]); StepInv(secs, base, s, t, acts[0]); LegalRun(secs, base, t, acts[1..])))
  }

  ghost function Run(secs: seq<nat>, base: nat, s: Boot, acts: seq<Action>): Boot
    requires Inv(secs, base, s) && LegalRun(secs, base, s, acts)
    decreases |acts|
  {
    if acts == [] then s
    else
      var t := Next(secs, base, s, acts[0]);
      StepInv(secs, base, s, t, acts[0]);
      Run(secs, base, t, acts[1..])
  }

  lemma {:induction false} RunInv(secs: seq<nat>, base: nat, s: Boot, acts: seq<Action>)
    requires Inv(secs, base, s) && LegalRun(secs, base, s, acts)
    ensures Inv(secs, base, Run(secs, base, s, acts))
    decreases |acts|
  {
    if acts != [] {
      var t := Next(secs, base, s, acts[0]);
      StepInv(secs, base, s, t, acts[0]);
      RunInv(secs, base, t, acts[1..]);
    }
  }

  /** Every listed secondary has marked its own id online. */
  predicate AllReported(secs: seq<nat>, s: Boot) {
    forall c: nat :: 1 <= c <= |secs| ==> c in s.marked
  }

  /** Each id has its own hardware id and its own stack: 64 KiB that no other stack
      meets, ending at its top, in a block that is still live. */
  ghost predicate StacksApart(base: nat, s: Boot) {
    && (forall c: nat :: c in s.stacks ==>
          c in s.tops && s.tops[c] == PageAddr(base, s.stacks[c]) + 0x1_0000
          && B.LiveBlock(s.buddy, s.stacks[c], 4))
    && (forall c: nat, d: nat :: c in s.stacks && d in s.stacks && c != d ==>
          ApartBytes(PageAddr(base, s.stacks[c]), 0x1_0000, PageAddr(base, s.stacks[d]), 0x1_0000))
  }

  lemma InvStacksApart(secs: seq<nat>, base: nat, s: Boot)
    requires Inv(secs, base, s)
    ensures StacksApart(base, s)
  {
    Open(s.buddy);
    forall c: nat, d: nat | c in s.stacks && d in s.stacks && c != d
      ensures ApartBytes(PageAddr(base, s.stacks[c]), STACK_SIZE, PageAddr(base, s.stacks[d]), STACK_SIZE)
    {
      assert B.IsBlock(s.buddy, s.stacks[c], STACK_ORDER) && B.IsBlock(s.buddy, s.stacks[d], STACK_ORDER);
      assert Pow2(STACK_ORDER) == 16;
    }
  }

  /** In every interleaving, when bring-up returns Ok the listed secondaries have
      the ids 1 up to their number, each with its own data and stack; and if there
      are at most 63 of them, each has reported in. */
  lemma BringUpResult(secs: seq<nat>, base: nat, s: Boot, acts: seq<Action>)
    requires Inv(secs, base, s) && LegalRun(secs, base, s, acts)
    ensures var t := Run(secs, base, s, acts);
      && StacksApart(base, t)
      && (t.phase == Ok ==>
            && |secs| < 128
            && (forall c: nat :: c in t.stacks <==> 1 <= c <= |secs|)
            && (forall c: nat :: 1 <= c <= |secs| ==> c in t.data && t.data[c] == secs[c - 1] && c in t.started)
            && (|secs| <= 63 ==> AllReported(secs, t)))
  {
    RunInv(secs, base, s, acts);
    InvStacksApart(secs, base, Run(secs, base, s, acts));
  }

  // ---------- how bring-up ends ----------

  /** This step ends bring-up in the given way: all listed CPUs are done; an id of 128
      is asked for; no block of 16 frames or more is left for a stack; or the firmware
      refuses. */
  ghost predicate Ends(secs: seq<nat>, s: Boot, a: Action, end: Phase) {
    match end
    case Ok => a == Prepare && s.next > |secs|
    case TooManyCpus => a == Prepare && 128 <= s.next <= |secs|
    case OutOfMemory => a == Prepare && s.next <= |secs| && s.next < 128 && U.Units(s.buddy.lists, 4) == 0
    case Psci => a == CpuOn(false)
    case _ => false
  }

  /** Some step of the run does. */
  ghost predicate Ended(secs: seq<nat>, base: nat, s: Boot, acts: seq<Action>, end: Phase)
    requires Inv(secs, base, s) && LegalRun(secs, base, s, acts)
    decreases |acts|
  {
    acts != [] &&
    (|| Ends(secs, s, acts[0], end)
     || (var t := Next(secs, base, s, acts[0]);
         StepInv(secs, base, s, t, acts[0]);
         Ended(secs, base, t, acts[1..], end)))
  }

  predicate UnderWay(phase: Phase) { phase == Loop || phase == Armed || phase == Waiting }

  lemma StepEnds(secs: seq<nat>, base: nat, s: Boot, t: Boot, a: Action, end: Phase)
    requires Inv(secs, base, s) && Enabled(secs, s, a) && t == Next(secs, base, s, a) && !UnderWay(end)
    ensures UnderWay(s.phase) ==> (t.phase == end <==> Ends(secs, s, a, end))
    ensures !UnderWay(s.phase) ==> t.phase == s.phase && t.next == s.next && !Ends(secs, s, a, end)
  {
    U.AllocTakesOneUnit(s.buddy, STACK_ORDER);
  }

  /** In every interleaving bring-up has ended in a given way exactly when a step of
      the run ended it so. */
  lemma {:induction false} BringUpEnds(secs: seq<nat>, base: nat, s: Boot, acts: seq<Action>, end: Phase)
    requires Inv(secs, base, s) && LegalRun(secs, base, s, acts) && !UnderWay(end)
    ensures var t := Run(secs, base, s, acts);
      if UnderWay(s.phase) then t.phase == end <==> Ended(secs, base, s, acts, end)
      else t.phase == s.phase && !Ended(secs, base, s, acts, end)
    decreases |acts|
  {
    if acts != [] {
      var t := Next(secs, base, s, acts[0]);
      StepInv(secs, base, s, t, acts[0]);
      StepEnds(secs, base, s, t, acts[0], end);
      BringUpEnds(secs, base, t, acts[1..], end);
    }
  }

  lemma {:induction false} RefusedIn(secs: seq<nat>, base: nat, s: Boot, acts: seq<Action>)
    requires Inv(secs, base, s) && LegalRun(secs, base, s, acts)
    ensures Ended(secs, base, s, acts, Psci) <==> CpuOn(false) in acts
    decreases |acts|
  {
    if acts != [] {
      var t := Next(secs, base, s, acts[0]);
      StepInv(secs, base, s, t, acts[0]);
      RefusedIn(secs, base, t, acts[1..]);
      assert acts == [acts[0]] + acts[1..];
    }
  }

  /** Bring-up fails with the firmware's error exactly when the firmware refused a
      CPU. That CPU is then neither started nor online, all before it are started, and
      no continuation turns the error into Ok. */
  lemma RefusalIsReported(secs: seq<nat>, base: nat, b: B.State, acts: seq<Action>)
    requires B.WF(b) && Inv(secs, base, Initial(b)) && LegalRun(secs, base, Initial(b), acts)
    ensures var t := Run(secs, base, Initial(b), acts);
      && (t.phase == Psci <==> CpuOn(false) in acts)
      && (t.phase == Psci ==>
            && 1 <= t.next <= |secs| && t.next !in t.started && t.next !in t.marked
            && forall c: nat :: c in t.started <==> c < t.next)
  {
    BringUpEnds(secs, base, Initial(b), acts, Psci);
    RefusedIn(secs, base, Initial(b), acts);
    RunInv(secs, base, Initial(b), acts);
  }

  // ---------- more than 64 CPUs ----------

  /** While stacks are to be had, the buddy allocator gives one and keeps the rest. */
  lemma StackAtHand(b: B.State)
    requires Sound(b) && U.Units(b.lists, STACK_ORDER) > 0
    ensures var (b', r) := B.Alloc(b, STACK_ORDER);
      r.Some? && Sound(b') && U.Units(b'.lists, STACK_ORDER) == U.Units(b.lists, STACK_ORDER) - 1
  {
    StackFromBuddy(b);
    U.AllocTakesOneUnit(b, STACK_ORDER);
  }

  ghost predicate OnTheWay(secs: seq<nat>, base: nat, s: Boot) {
    && Inv(secs, base, s) && s.phase == Loop && 64 !in s.marked
    && U.Units(s.buddy.lists, STACK_ORDER) + s.next > |secs|
  }

  /** One round of the loop in which id 64 does not report and any other does. */
  lemma Round(secs: seq<nat>, base: nat, s: Boot) returns (acts: seq<Action>, t: Boot)
    requires OnTheWay(secs, base, s) && s.next <= |secs| && s.next < MAX_CPUS
    ensures LegalRun(secs, base, s, acts) && t == Run(secs, base, s, acts)
    ensures OnTheWay(secs, base, t) && t.next == s.next + 1
  {
    var a := SetUpNext(secs, base, s);
    StackAtHand(s.buddy);
    StepInv(secs, base, s, a, Prepare);
    var rest;
    rest, t := RoundEnds(secs, base, a);
    acts := [Prepare] + rest;
    Unfold(secs, base, s, a, acts, Prepare, rest);
  }

  lemma RoundEnds(secs: seq<nat>, base: nat, s: Boot) returns (acts: seq<Action>, t: Boot)
    requires Inv(secs, base, s) && s.phase == Armed && 64 !in s.marked
    ensures LegalRun(secs, base, s, acts) && t == Run(secs, base, s, acts)
    ensures Inv(secs, base, t) && t.phase == Loop && t.next == s.next + 1 && 64 !in t.marked && t.buddy == s.buddy
  {
    var b := Next(secs, base, s, CpuOn(true));
    StepInv(secs, base, s, b, CpuOn(true));
    if s.next == 64 {
      assert 0 in b.marked && Bit(0) == Bit(64);
      assert IsOnline(b, 64);
      t := Next(secs, base, b, Wait);
      StepInv(secs, base, b, t, Wait);
      acts := [CpuOn(true), Wait];
      Unfold(secs, base, b, t, [Wait], Wait, []);
    } else {
      var c := Next(secs, base, b, Report(s.next));
      StepInv(secs, base, b, c, Report(s.next));
      t := Next(secs, base, c, Wait);
      StepInv(secs, base, c, t, Wait);
      acts := [CpuOn(true), Report(s.next), Wait];
      Unfold(secs, base, c, t, [Wait], Wait, []);
      Unfold(secs, base, b, c, [Report(s.next), Wait], Report(s.next), [Wait]);
    }
    Unfold(secs, base, s, b, acts, CpuOn(true), acts[1..]);
  }

  lemma Unfold(secs: seq<nat>, base: nat, s: Boot, t: Boot, acts: seq<Action>, a: Action, rest: seq<Action>)
    requires Inv(secs, base, s) && Enabled(secs, s, a) && t == Next(secs, base, s, a) && Inv(secs, base, t)
    requires acts == [a] + rest && LegalRun(secs, base, t, rest)
    ensures LegalRun(secs, base, s, acts) && Run(secs, base, s, acts) == Run(secs, base, t, rest)
  {
  }

  lemma {:induction false} Joined(secs: seq<nat>, base: nat, s: Boot, a: seq<Action>, b: seq<Action>)
    requires Inv(secs, base, s) && LegalRun(secs, base, s, a)
    requires (RunInv(secs, base, s, a); LegalRun(secs, base, Run(secs, base, s, a), b))
    ensures LegalRun(secs, base, s, a + b)
    ensures (RunInv(secs, base, s, a); Run(secs, base, s, a + b) == Run(secs, base, Run(secs, base, s, a), b))
    decreases |a|
  {
    if a == [] {
      assert a + b == b;
    } else {
      var t := Next(secs, base, s, a[0]);
      StepInv(secs, base, s, t, a[0]);
      Joined(secs, base, t, a[1..], b);
      assert (a + b)[0] == a[0] && (a + b)[1..] == a[1..] + b;
    }
  }

  /** Rounds to the end of the list. */
  lemma {:induction false} Rounds(secs: seq<nat>, base: nat, s: Boot) returns (acts: seq<Action>)
    requires OnTheWay(secs, base, s) && |secs| < MAX_CPUS
    ensures LegalRun(secs, base, s, acts)
    ensures Run(secs, base, s, acts).phase == Ok && 64 !in Run(secs, base, s, acts).marked
    decreases |secs| + 1 - s.next
  {
    if s.next <= |secs| {
      var first, t := Round(secs, base, s);
      var rest := Rounds(secs, base, t);
      Joined(secs, base, s, first, rest);
      acts := first + rest;
    } else {
      acts := [Prepare];
      var t := SetUpNext(secs, base, s);
      PrepareInv(secs, base, s, t);
      Unfold(secs, base, s, t, acts, Prepare, []);
    }
  }

  /** Ok means that every secondary has reported in, in all interleavings, exactly
      when there are at most 63 of them, or so many that Ok is never returned: id
      64 shares its bit with the primary. */
  lemma BringUpSafe(secs: seq<nat>, base: nat, s: Boot)
    requires Inv(secs, base, s) && s == Initial(s.buddy) && U.Units(s.buddy.lists, STACK_ORDER) >= |secs|
    ensures (forall acts: seq<Action> :: LegalRun(secs, base, s, acts) && Run(secs, base, s, acts).phase == Ok ==>
               AllReported(secs, Run(secs, base, s, acts)))
      <==> |secs| <= 63 || |secs| >= 128
  {
    forall acts: seq<Action> | LegalRun(secs, base, s, acts) && Run(secs, base, s, acts).phase == Ok
      ensures |secs| < MAX_CPUS && (|secs| <= 63 ==> AllReported(secs, Run(secs, base, s, acts)))
    {
      BringUpResult(secs, base, s, acts);
    }
    if 63 < |secs| < MAX_CPUS {
      var acts := Rounds(secs, base, s);
      assert !AllReported(secs, Run(secs, base, s, acts));
    }
  }

  /** With 64 secondaries and two blocks of the top order, 8 MiB, handed over in one
      piece, bring-up can return Ok although the last one has not reported in. */
  lemma SixtyFifthCpuMissed(secs: seq<nat>, base: nat, nr: nat) returns (acts: seq<Action>)
    requires |secs| == 64 && nr == 2 * Pow2(B.MAX_ORDER - 1)
    ensures var s := Initial(B.FreeRange(R.Initial(nr), 0, nr));
      && Inv(secs, base, s) && LegalRun(secs, base, s, acts)
      && Run(secs, base, s, acts).phase == Ok && 64 !in Run(secs, base, s, acts).marked
  {
    U.TwoTopBlocks(B.MAX_ORDER - 1, nr);
    var b := B.FreeRange(R.Initial(nr), 0, nr);
    assert U.Units(b.lists, STACK_ORDER) == 2 * Pow2(6) && Pow2(6) == 64;
    InitialInv(secs, base, b);
    acts := Rounds(secs, base, Initial(b));
  }
}
