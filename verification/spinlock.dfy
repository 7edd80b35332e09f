/**
 Spinlocks and per-CPU interrupt nesting, one step per instruction that touches
 shared or interrupt state. Any number of CPUs run any sequence of `acquire`,
 `release`, `push_off` and `pop_off` on any number of locks, interleaved
 arbitrarily; interrupt handlers, which may use locks themselves, can start
 between any two instructions while interrupts are enabled.
 */
module Spinlocks {
  import opened Common

  type LockId = nat
  type CpuId = nat

  datatype Lock = Lock(locked: bool, cpu: Option<CpuId>)

  /** Who called `push_off` or `holding`. */
  datatype Caller = Bare | Acquire(l: LockId)
  datatype Check = ByAcquire | ByRelease

  /** The next instruction of a CPU. */
  datatype Pc =
    | Idle
    | PushRead(k: Caller)
    | PushMask(k: Caller, was: bool)
    | PushSave(k: Caller, was: bool)
    | PushCount(k: Caller)
    | ReadLocked(l: LockId, who: Check)
    | ReadCpu(l: LockId, who: Check)
    | Swap(l: LockId)
    | SetCpu(l: LockId)
    | ClearCpu(l: LockId)
    | Unlock(l: LockId)
    | PopCheckIntr
    | PopCheckCount
    | PopCount
    | PopUnmask
    | Panicked

  /**
   One CPU. `intr`, `noff` and `intena` are the machine's and the kernel's own state;
   `saved` is the stack of interrupted computations. `held` (locks won by a swap and not yet
   given back), `bare` (outstanding bare `push_off` calls) and `base` (the interrupt
   state the running computation last chose for itself, or entered with) are history.
   */
  datatype Cpu = Cpu(intr: bool, noff: int, intena: bool, pc: Pc, saved: seq<Pc>,
                     held: set<LockId>, bare: nat, base: bool)

  datatype State = State(cpus: seq<Cpu>, locks: seq<Lock>)

  datatype Event =
    | CallAcquire(c: CpuId, l: LockId)
    | CallRelease(c: CpuId, l: LockId)
    | CallPush(c: CpuId)
    | CallPop(c: CpuId)
    | SetIntr(c: CpuId, on: bool)
    | Interrupt(c: CpuId)
    | Return(c: CpuId)
    | Step(c: CpuId)

  /** Every lock is free, and every CPU idle with interrupts either way. */
  ghost predicate Booted(s: State) {
    && (forall l :: 0 <= l < |s.locks| ==> s.locks[l] == Lock(false, None))
    && (forall c :: 0 <= c < |s.cpus| ==> s.cpus[c] == Cpu(s.cpus[c].intr, 0, false, Idle, [], {}, 0, s.cpus[c].intr))
  }

  ghost predicate Enabled(s: State, e: Event) {
    e.c < |s.cpus|
    && var cpu := s.cpus[e.c];
       match e
       case CallAcquire(_, l) => cpu.pc == Idle && l < |s.locks|
       case CallRelease(_, l) => cpu.pc == Idle && l < |s.locks|
       case CallPush(_) => cpu.pc == Idle
       case CallPop(_) => cpu.pc == Idle && cpu.bare > 0
       case SetIntr(_, _) => cpu.pc == Idle && cpu.noff == 0
       case Interrupt(_) => cpu.intr && cpu.pc != Panicked
       case Return(_) => cpu.pc == Idle && cpu.noff == 0 && cpu.saved != []
       case Step(_) =>
         cpu.pc != Idle && cpu.pc != Panicked && (PcLock(cpu.pc).Some? ==> PcLock(cpu.pc).value < |s.locks|)
  }

  /** The lock an instruction is about. */
  ghost function PcLock(pc: Pc): Option<LockId> {
    match pc
    case PushRead(Acquire(l)) => Some(l)
    case PushMask(Acquire(l), _) => Some(l)
    case PushSave(Acquire(l), _) => Some(l)
    case PushCount(Acquire(l)) => Some(l)
    case ReadLocked(l, _) => Some(l)
    case ReadCpu(l, _) => Some(l)
    case Swap(l) => Some(l)
    case SetCpu(l) => Some(l)
    case ClearCpu(l) => Some(l)
    case Unlock(l) => Some(l)
    case _ => None
  }

  /** Where the caller of `holding` goes with its answer. */
  ghost function Answer(l: LockId, who: Check, holding: bool): Pc {
    match who
    case ByAcquire => if holding then Panicked else Swap(l)
    case ByRelease => if holding then ClearCpu(l) else Panicked
  }

  /** The CPU's own part of an instruction, given the lock word and owner field it may read. */
  ghost function Local(c: CpuId, cpu: Cpu, lk: Lock): Cpu {
    match cpu.pc
    case Idle => cpu
    case PushRead(k) => cpu.(pc := PushMask(k, cpu.intr))
    case PushMask(k, was) => cpu.(intr := false, pc := PushSave(k, was))
    case PushSave(k, was) => cpu.(intena := if cpu.noff == 0 then was else cpu.intena, pc := PushCount(k))
    case PushCount(Bare) => cpu.(noff := cpu.noff + 1, bare := cpu.bare + 1, pc := Idle)
    case PushCount(Acquire(l)) => cpu.(noff := cpu.noff + 1, pc := ReadLocked(l, ByAcquire))
    case ReadLocked(l, who) => cpu.(pc := if lk.locked then ReadCpu(l, who) else Answer(l, who, false))
    case ReadCpu(l, who) => cpu.(pc := Answer(l, who, lk.cpu == Some(c)))
    case Swap(l) => if lk.locked then cpu else cpu.(pc := SetCpu(l), held := cpu.held + {l})
    case SetCpu(l) => cpu.(pc := Idle)
    case ClearCpu(l) => cpu.(pc := Unlock(l))
    case Unlock(l) => cpu.(pc := PopCheckIntr, held := cpu.held - {l})
    case PopCheckIntr => cpu.(pc := if cpu.intr then Panicked else PopCheckCount)
    case PopCheckCount => cpu.(pc := if cpu.noff < 1 then Panicked else PopCount)
    case PopCount => cpu.(noff := cpu.noff - 1, pc := PopUnmask)
    case PopUnmask => cpu.(intr := if cpu.noff == 0 && cpu.intena then true else cpu.intr, pc := Idle)
    case Panicked => cpu
  }

  /** The instruction's effect on the lock it is about. */
  ghost function OnLock(c: CpuId, pc: Pc, lk: Lock): Lock {
    match pc
    case Swap(_) => lk.(locked := true)
    case SetCpu(_) => lk.(cpu := Some(c))
    case ClearCpu(_) => lk.(cpu := None)
    case Unlock(_) => lk.(locked := false)
    case _ => lk
  }

  ghost function Apply(s: State, e: Event): State
    requires Enabled(s, e)
  {
    var c, cpu := e.c, s.cpus[e.c];
    match e
    case CallAcquire(_, l) => s.(cpus := s.cpus[c := cpu.(pc := PushRead(Acquire(l)))])
    case CallRelease(_, l) => s.(cpus := s.cpus[c := cpu.(pc := ReadLocked(l, ByRelease))])
    case CallPush(_) => s.(cpus := s.cpus[c := cpu.(pc := PushRead(Bare))])
    case CallPop(_) => s.(cpus := s.cpus[c := cpu.(pc := PopCheckIntr, bare := cpu.bare - 1)])
    case SetIntr(_, on) => s.(cpus := s.cpus[c := cpu.(intr := on, base := on)])
    case Interrupt(_) =>
      s.(cpus := s.cpus[c := cpu.(intr := false, pc := Idle, saved := cpu.saved + [cpu.pc], base := false)])
    case Return(_) =>
      var n := |cpu.saved| - 1;
      s.(cpus := s.cpus[c := cpu.(intr := true, pc := cpu.saved[n], saved := cpu.saved[..n], base := true)])
    case Step(_) =>
      match PcLock(cpu.pc)
      case None => s.(cpus := s.cpus[c := Local(c, cpu, Lock(false, None))])
      case Some(l) =>
        State(s.cpus[c := Local(c, cpu, s.locks[l])], s.locks[l := OnLock(c, cpu.pc, s.locks[l])])
  }

  ghost predicate Legal(s: State, es: seq<Event>)
    decreases |es|
  {
    es == [] || (Enabled(s, es[0]) && Legal(Apply(s, es[0]), es[1..]))
  }

  ghost function Exec(s: State, es: seq<Event>): State
    requires Legal(s, es)
    decreases |es|
  {
    if es == [] then s else Exec(Apply(s, es[0]), es[1..])
  }

  // ------------------------------------------------------------- invariant

  /** Outstanding `push_off` calls of an operation in progress. */
  ghost function InFlight(pc: Pc): nat {
    match pc
    case ReadLocked(_, ByAcquire) => 1
    case ReadCpu(_, ByAcquire) => 1
    case Swap(_) => 1
    case PopCheckIntr => 1
    case PopCheckCount => 1
    case PopCount => 1
    case _ => 0
  }

  /** Instructions that may find interrupts enabled. */
  ghost predicate Open(pc: Pc) {
    match pc
    case Idle => true
    case PushRead(_) => true
    case PushMask(_, _) => true
    case ReadLocked(_, who) => who == ByRelease
    case ReadCpu(_, who) => who == ByRelease
    case _ => false
  }

  /** `noff` counts exactly the outstanding pushes. */
  ghost predicate CountInv(cpu: Cpu) {
    cpu.pc != Panicked ==> cpu.noff == |cpu.held| + cpu.bare + InFlight(cpu.pc)
  }

  /** Interrupts are off from the first mask to the last unmask, and `intena` remembers what they were. */
  ghost predicate IntrInv(cpu: Cpu) {
    && (cpu.noff > 0 || !Open(cpu.pc) ==> !cpu.intr || cpu.pc == Panicked)
    && (cpu.noff > 0 || cpu.pc.PushCount? || cpu.pc.PopUnmask? ==> cpu.intena == cpu.base)
    && (cpu.noff == 0 && Open(cpu.pc) ==> cpu.intr == cpu.base)
    && (cpu.noff == 0 && (cpu.pc.PushMask? || cpu.pc.PushSave?) ==> cpu.pc.was == cpu.base)
  }

  /** Interrupted computations had interrupts enabled and held nothing. */
  ghost predicate SavedInv(cpu: Cpu, locks: nat) {
    forall i :: 0 <= i < |cpu.saved| ==>
      Open(cpu.saved[i]) && (cpu.saved[i].PushMask? ==> cpu.saved[i].was)
      && (PcLock(cpu.saved[i]).Some? ==> PcLock(cpu.saved[i]).value < locks)
  }

  ghost predicate CpuInv(cpu: Cpu, locks: nat) {
    && CountInv(cpu) && IntrInv(cpu) && SavedInv(cpu, locks)
    && (PcLock(cpu.pc).Some? ==> PcLock(cpu.pc).value < locks)
    && (forall l :: l in cpu.held ==> l < locks)
    && (cpu.pc.SetCpu? || cpu.pc.ClearCpu? || cpu.pc.Unlock? ==> cpu.pc.l in cpu.held)
    && (cpu.pc.Swap? ==> cpu.pc.l !in cpu.held)
    && cpu.noff >= 0
  }

  /** The owner field names exactly the CPU that holds the lock, outside two short windows of that CPU. */
  ghost predicate OwnerInv(s: State) {
    forall c, l :: 0 <= c < |s.cpus| && 0 <= l < |s.locks| ==>
      (s.locks[l].cpu == Some(c) <==> l in s.cpus[c].held && s.cpus[c].pc != SetCpu(l) && s.cpus[c].pc != Unlock(l))
  }

  ghost predicate Holds(s: State, c: CpuId, l: LockId) {
    c < |s.cpus| && l in s.cpus[c].held
  }

  /** The lock word is set exactly while some CPU holds the lock, and only one does. */
  ghost predicate WordInv(s: State) {
    && (forall l :: 0 <= l < |s.locks| ==> (s.locks[l].locked <==> exists c :: Holds(s, c, l)))
    && (forall c, d, l :: Holds(s, c, l) && Holds(s, d, l) ==> c == d)
  }

  ghost predicate Inv(s: State) {
    && (forall c :: 0 <= c < |s.cpus| ==> CpuInv(s.cpus[c], |s.locks|))
    && OwnerInv(s) && WordInv(s)
  }

  // ---------------------------------------------------------- preservation

  lemma BootInv(s: State)
    requires Booted(s)
    ensures Inv(s)
  {
  }

  ghost predicate Nesting(pc: Pc) {
    pc.PushRead? || pc.PushMask? || pc.PushSave? || pc.PushCount?
    || pc.PopCheckIntr? || pc.PopCheckCount? || pc.PopCount? || pc.PopUnmask?
  }

  /** A step of `push_off` or `pop_off` keeps what concerns its CPU alone. */
  lemma NestingKeepsCpu(c: CpuId, cpu: Cpu, lk: Lock, locks: nat)
    requires CpuInv(cpu, locks) && Nesting(cpu.pc)
    ensures CpuInv(Local(c, cpu, lk), locks)
  {
  }

  /** So does a read of `holding`. */
  lemma CheckKeepsCpu(c: CpuId, cpu: Cpu, lk: Lock, locks: nat)
    requires CpuInv(cpu, locks) && (cpu.pc.ReadLocked? || cpu.pc.ReadCpu?)
    requires cpu.pc.l in cpu.held ==> lk.locked
    requires cpu.pc.ReadCpu? ==> (lk.cpu == Some(c) <==> cpu.pc.l in cpu.held)
    ensures CpuInv(Local(c, cpu, lk), locks)
  {
  }

  /** A swap. */
  lemma SwapKeepsCpu(c: CpuId, cpu: Cpu, lk: Lock, locks: nat)
    requires CpuInv(cpu, locks) && cpu.pc.Swap?
    ensures CpuInv(Local(c, cpu, lk), locks)
  {
    assert |cpu.held + {cpu.pc.l}| == |cpu.held| + 1;
  }

  /** And a write to the owner field or the lock word. */
  lemma OwnerKeepsCpu(c: CpuId, cpu: Cpu, lk: Lock, locks: nat)
    requires CpuInv(cpu, locks) && (cpu.pc.SetCpu? || cpu.pc.ClearCpu?)
    ensures CpuInv(Local(c, cpu, lk), locks)
  {
  }

  lemma UnlockKeepsCpu(c: CpuId, cpu: Cpu, lk: Lock, locks: nat)
    requires CpuInv(cpu, locks) && cpu.pc.Unlock?
    ensures CpuInv(Local(c, cpu, lk), locks)
  {
    assert |cpu.held - {cpu.pc.l}| == |cpu.held| - 1;
  }

  /** Calls, interrupts and returns keep it too. */
  lemma CallKeepsCpu(s: State, e: Event)
    requires Enabled(s, e) && !e.Step? && CpuInv(s.cpus[e.c], |s.locks|)
    ensures var s' := Apply(s, e);
            s'.locks == s.locks && |s'.cpus| == |s.cpus| && CpuInv(s'.cpus[e.c], |s.locks|)
            && s'.cpus[e.c].held == s.cpus[e.c].held
            && (forall l :: s.cpus[e.c].pc != SetCpu(l) && s.cpus[e.c].pc != Unlock(l))
            && (forall l :: s'.cpus[e.c].pc != SetCpu(l) && s'.cpus[e.c].pc != Unlock(l))
  {
  }

  /** The owner field of `l` is not written while CPU `c` is here. */
  ghost predicate Windowless(pc: Pc) { !pc.SetCpu? && !pc.Unlock? }

  /** A step that leaves locks and held sets alone, outside the windows, keeps the shared part. */
  lemma QuietKeepsInv(s: State, s': State, c: CpuId)
    requires Inv(s) && c < |s.cpus| && |s'.cpus| == |s.cpus|
    requires s' == State(s.cpus[c := s'.cpus[c]], s.locks) && CpuInv(s'.cpus[c], |s.locks|)
    requires s'.cpus[c].held == s.cpus[c].held && Windowless(s.cpus[c].pc) && Windowless(s'.cpus[c].pc)
    ensures Inv(s')
  {
    hide CpuInv;
    forall d, l ensures Holds(s', d, l) <==> Holds(s, d, l) {}
  }

  lemma CallKeepsInv(s: State, e: Event)
    requires Inv(s) && Enabled(s, e) && !e.Step?
    ensures Inv(Apply(s, e))
  {
    CallKeepsCpu(s, e);
    QuietKeepsInv(s, Apply(s, e), e.c);
  }

  ghost predicate Writes(pc: Pc) { pc.Swap? || pc.SetCpu? || pc.ClearCpu? || pc.Unlock? }

  lemma StepKeepsCpu(s: State, c: CpuId)
    requires Inv(s) && Enabled(s, Step(c))
    ensures var s' := Apply(s, Step(c)); |s'.cpus| == |s.cpus| && CpuInv(s'.cpus[c], |s.locks|)
  {
    var cpu := s.cpus[c];
    var lk := match PcLock(cpu.pc) case None => Lock(false, None) case Some(l) => s.locks[l];
    if Nesting(cpu.pc) {
      NestingKeepsCpu(c, cpu, lk, |s.locks|);
    } else {
      assert Holds(s, c, cpu.pc.l) <==> cpu.pc.l in cpu.held;
      if cpu.pc.ReadLocked? || cpu.pc.ReadCpu? {
        CheckKeepsCpu(c, cpu, lk, |s.locks|);
      } else if cpu.pc.Swap? {
        SwapKeepsCpu(c, cpu, lk, |s.locks|);
      } else if cpu.pc.Unlock? {
        UnlockKeepsCpu(c, cpu, lk, |s.locks|);
      } else {
        OwnerKeepsCpu(c, cpu, lk, |s.locks|);
      }
    }
    hide CpuInv, Local;
  }

  lemma ReadingKeepsInv(s: State, c: CpuId)
    requires Inv(s) && Enabled(s, Step(c)) && !Writes(s.cpus[c].pc)
    ensures Inv(Apply(s, Step(c)))
  {
    StepKeepsCpu(s, c);
    var s' := Apply(s, Step(c));
    assert s'.locks == s.locks;
    hide CpuInv;
    QuietKeepsInv(s, s', c);
  }

  lemma SwapKeepsInv(s: State, c: CpuId)
    requires Inv(s) && Enabled(s, Step(c)) && s.cpus[c].pc.Swap?
    ensures Inv(Apply(s, Step(c)))
  {
    StepKeepsCpu(s, c);
    var l, s' := s.cpus[c].pc.l, Apply(s, Step(c));
    hide CpuInv;
    if s.locks[l].locked {
      assert s'.locks == s.locks;
      QuietKeepsInv(s, s', c);
    } else {
      forall d, k ensures Holds(s', d, k) <==> Holds(s, d, k) || (d == c && k == l) {}
      forall d ensures !Holds(s, d, l) {}
      assert OwnerInv(s');
      assert Holds(s', c, l);
      assert WordInv(s');
    }
  }

  lemma OwnerKeepsInv(s: State, c: CpuId)
    requires Inv(s) && Enabled(s, Step(c)) && (s.cpus[c].pc.SetCpu? || s.cpus[c].pc.ClearCpu?)
    ensures Inv(Apply(s, Step(c)))
  {
    StepKeepsCpu(s, c);
    var l, s' := s.cpus[c].pc.l, Apply(s, Step(c));
    assert l in s.cpus[c].held;
    hide CpuInv;
    forall d, k ensures Holds(s', d, k) <==> Holds(s, d, k) {}
    forall d ensures Holds(s, d, l) <==> d == c { assert Holds(s, c, l); }
    forall d, k | 0 <= d < |s'.cpus| && 0 <= k < |s'.locks|
      ensures s'.locks[k].cpu == Some(d) <==>
                k in s'.cpus[d].held && s'.cpus[d].pc != SetCpu(k) && s'.cpus[d].pc != Unlock(k)
    {
      assert Holds(s, d, k) <==> k in s.cpus[d].held;
    }
    assert WordInv(s');
  }

  lemma UnlockKeepsInv(s: State, c: CpuId)
    requires Inv(s) && Enabled(s, Step(c)) && s.cpus[c].pc.Unlock?
    ensures Inv(Apply(s, Step(c)))
  {
    StepKeepsCpu(s, c);
    var l, s' := s.cpus[c].pc.l, Apply(s, Step(c));
    assert l in s.cpus[c].held;
    hide CpuInv;
    forall d, k ensures Holds(s', d, k) <==> Holds(s, d, k) && !(d == c && k == l) {}
    forall d ensures Holds(s, d, l) <==> d == c { assert Holds(s, c, l); }
  }

  lemma StepKeepsInv(s: State, e: Event)
    requires Inv(s) && Enabled(s, e)
    ensures Inv(Apply(s, e))
  {
    hide Inv;
    if !e.Step? {
      CallKeepsInv(s, e);
    } else if !Writes(s.cpus[e.c].pc) {
      ReadingKeepsInv(s, e.c);
    } else if s.cpus[e.c].pc.Swap? {
      SwapKeepsInv(s, e.c);
    } else if s.cpus[e.c].pc.Unlock? {
      UnlockKeepsInv(s, e.c);
    } else {
      OwnerKeepsInv(s, e.c);
    }
  }

  lemma {:induction false} RunKeepsInv(s: State, es: seq<Event>)
    requires Inv(s) && Legal(s, es)
    ensures Inv(Exec(s, es))
    decreases |es|
  {
    if es != [] {
      StepKeepsInv(s, es[0]);
      RunKeepsInv(Apply(s, es[0]), es[1..]);
    }
  }

  ghost predicate Reachable(s: State) {
    exists b, es :: Booted(b) && Legal(b, es) && s == Exec(b, es)
  }

  lemma ReachableInv(s: State)
    requires Reachable(s)
    ensures Inv(s)
  {
    var b, es :| Booted(b) && Legal(b, es) && s == Exec(b, es);
    BootInv(b);
    RunKeepsInv(b, es);
  }

  // ---------------------------------------------------------- main theorems

  /**
   In every run at most one CPU is between winning the swap on a lock and giving it back, and
   the lock word says whether one is.
   */
  lemma MutualExclusion(s: State, c: CpuId, d: CpuId, l: LockId)
    requires Reachable(s) && l < |s.locks|
    ensures Holds(s, c, l) && Holds(s, d, l) ==> c == d
    ensures s.locks[l].locked <==> exists b :: Holds(s, b, l)
  {
    ReachableInv(s);
  }

  /**
   In every run `holding` is exact for its caller although it reads two fields with no
   lock, other CPUs may write both in between, and a handler may run in between:
   `acquire` panics exactly when the CPU already holds the lock, and `release` exactly
   when it does not. What the CPU holds is the same at both reads.
   */
  lemma HoldingIsExact(s: State, c: CpuId)
    requires Reachable(s) && Enabled(s, Step(c)) && (s.cpus[c].pc.ReadLocked? || s.cpus[c].pc.ReadCpu?)
    ensures var l, who, cpu := s.cpus[c].pc.l, s.cpus[c].pc.who, Apply(s, Step(c)).cpus[c];
            && cpu.held == s.cpus[c].held
            && (if s.cpus[c].pc.ReadLocked? && s.locks[l].locked then cpu.pc == ReadCpu(l, who)
                else if l in s.cpus[c].held then cpu.pc == if who == ByAcquire then Panicked else ClearCpu(l)
                else cpu.pc == if who == ByAcquire then Swap(l) else Panicked)
  {
    ReachableInv(s);
    var l := s.cpus[c].pc.l;
    assert Holds(s, c, l) ==> s.locks[l].locked;
  }

  /** In every run a CPU holding a lock, or with a push outstanding, has interrupts off. */
  lemma InterruptsAreOffInside(s: State, c: CpuId)
    requires Reachable(s) && c < |s.cpus| && s.cpus[c].pc != Panicked
    ensures s.cpus[c].noff == |s.cpus[c].held| + s.cpus[c].bare + InFlight(s.cpus[c].pc)
    ensures s.cpus[c].noff > 0 || s.cpus[c].held != {} ==> !s.cpus[c].intr
  {
    ReachableInv(s);
    assert CpuInv(s.cpus[c], |s.locks|);
  }

  /** In every run the two panics of `pop_off` are unreachable. */
  lemma PopNeverPanics(s: State, c: CpuId)
    requires Reachable(s) && Enabled(s, Step(c)) && (s.cpus[c].pc.PopCheckIntr? || s.cpus[c].pc.PopCheckCount?)
    ensures Apply(s, Step(c)).cpus[c].pc != Panicked
  {
    ReachableInv(s);
    assert CpuInv(s.cpus[c], |s.locks|);
  }

  /** The interrupt state chosen by a CPU's outermost computation: an interrupted one had them on. */
  ghost function Chosen(cpu: Cpu): bool { if cpu.saved == [] then cpu.base else true }

  lemma StepKeepsChosen(s: State, e: Event, c: CpuId)
    requires Inv(s) && Enabled(s, e) && c < |s.cpus| && !(e.SetIntr? && e.c == c)
    ensures |Apply(s, e).cpus| == |s.cpus| && Chosen(Apply(s, e).cpus[c]) == Chosen(s.cpus[c])
  {
    if e.c == c {
      assert CpuInv(s.cpus[c], |s.locks|);
    }
  }

  lemma {:induction false} RunKeepsChosen(s: State, es: seq<Event>, c: CpuId)
    requires Inv(s) && Legal(s, es) && c < |s.cpus|
    requires forall i :: 0 <= i < |es| ==> !(es[i].SetIntr? && es[i].c == c)
    ensures |Exec(s, es).cpus| == |s.cpus| && Chosen(Exec(s, es).cpus[c]) == Chosen(s.cpus[c])
    decreases |es|
  {
    if es != [] {
      StepKeepsInv(s, es[0]);
      StepKeepsChosen(s, es[0], c);
      RunKeepsChosen(Apply(s, es[0]), es[1..], c);
    }
  }

  /** Between lock operations, outside any handler, with nothing held and no push outstanding. */
  ghost predicate Outside(cpu: Cpu) {
    cpu.pc == Idle && cpu.saved == [] && cpu.held == {} && cpu.bare == 0
  }

  /**
   Whatever locks a CPU took and gave back, in whatever order, nested or not, with
   handlers running in between and other CPUs doing anything: when everything is given
   back its interrupts are as they were, unless it switched them itself.
   */
  lemma {:induction false} BalancedRunRestoresInterrupts(s: State, es: seq<Event>, c: CpuId)
    requires Reachable(s) && Legal(s, es) && c < |s.cpus| && Outside(s.cpus[c])
    requires forall i :: 0 <= i < |es| ==> !(es[i].SetIntr? && es[i].c == c)
    ensures |Exec(s, es).cpus| == |s.cpus|
    ensures Outside(Exec(s, es).cpus[c]) ==> Exec(s, es).cpus[c].intr == s.cpus[c].intr && Exec(s, es).cpus[c].noff == 0
  {
    ReachableInv(s);
    RunKeepsInv(s, es);
    RunKeepsChosen(s, es, c);
    assert CpuInv(s.cpus[c], |s.locks|) && CpuInv(Exec(s, es).cpus[c], |Exec(s, es).locks|);
  }
}
