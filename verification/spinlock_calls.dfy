/**
 What each spinlock operation has done when it returns, whatever other CPUs do meanwhile
 and whatever handlers run in between on the same CPU.
 */
module SpinlockCalls {
  import opened Common
  import opened Spinlocks

  /** `acquire`, `release`, a bare `push_off` and a bare `pop_off`. */
  datatype Op = Take(l: LockId) | Give(l: LockId) | Push | Pop

  ghost function Call(op: Op, c: CpuId): Event {
    match op
    case Take(l) => CallAcquire(c, l)
    case Give(l) => CallRelease(c, l)
    case Push => CallPush(c)
    case Pop => CallPop(c)
  }

  /**
   During the run CPU `c`, at nesting depth `d`, only steps and is interrupted; handlers, which
   run at greater depths, do anything.
   */
  ghost predicate During(s: State, es: seq<Event>, c: CpuId, d: nat)
    requires Legal(s, es)
    decreases |es|
  {
    es == []
    || ((es[0].c == c && |s.cpus[c].saved| == d ==> es[0].Step? || es[0].Interrupt?)
        && During(Apply(s, es[0]), es[1..], c, d))
  }

  // --------------------------------------------------- how far a call has come

  ghost predicate PushingFor(pc: Pc, k: Caller) {
    (pc.PushRead? || pc.PushMask? || pc.PushSave? || pc.PushCount?) && pc.k == k
  }

  ghost predicate Popping(pc: Pc) { pc.PopCheckIntr? || pc.PopCheckCount? || pc.PopCount? || pc.PopUnmask? }

  /** The call began with locks `h0` held and `b0` bare pushes; at `pc` they are `h` and `b`. */
  ghost predicate Reached(op: Op, pc: Pc, h: set<LockId>, b: nat, h0: set<LockId>, b0: nat) {
    match op
    case Take(l) =>
      b == b0
      && ((h == h0 && (PushingFor(pc, Acquire(l)) || pc == ReadLocked(l, ByAcquire) || pc == ReadCpu(l, ByAcquire)))
          || (h == h0 && pc == Swap(l) && l !in h0)
          || (h == h0 + {l} && (pc == SetCpu(l) || pc == Idle) && l !in h0)
          || (h == h0 && pc == Panicked && l in h0))
    case Give(l) =>
      b == b0
      && ((h == h0 && (pc == ReadLocked(l, ByRelease) || pc == ReadCpu(l, ByRelease)))
          || (h == h0 && (pc == ClearCpu(l) || pc == Unlock(l)) && l in h0)
          || (h == h0 - {l} && (Popping(pc) || pc == Idle) && l in h0)
          || (h == h0 && pc == Panicked && l !in h0))
    case Push => h == h0 && ((PushingFor(pc, Bare) && b == b0) || (pc == Idle && b == b0 + 1))
    case Pop => h == h0 && (Popping(pc) || pc == Idle) && b == b0 - 1
  }

  /** The call began on CPU `c` in state `cpu0`; under a handler its computation is saved, holding nothing. */
  ghost predicate CallInv(op: Op, cpu: Cpu, cpu0: Cpu) {
    var d := |cpu0.saved|;
    && |cpu.saved| >= d && cpu.saved[..d] == cpu0.saved
    && if |cpu.saved| == d then Reached(op, cpu.pc, cpu.held, cpu.bare, cpu0.held, cpu0.bare)
       else Reached(op, cpu.saved[d], {}, 0, cpu0.held, cpu0.bare)
  }

  lemma CallStarts(s: State, op: Op, c: CpuId)
    requires Enabled(s, Call(op, c))
    ensures CallInv(op, Apply(s, Call(op, c)).cpus[c], s.cpus[c])
  {
    assert s.cpus[c].saved[..|s.cpus[c].saved|] == s.cpus[c].saved;
  }

  /** What the invariant says about the CPU and the lock its next instruction reads. */
  ghost predicate Sound(c: CpuId, cpu: Cpu, lk: Lock) {
    match cpu.pc
    case ReadLocked(l, _) => l in cpu.held ==> lk.locked
    case ReadCpu(l, _) => lk.cpu == Some(c) <==> l in cpu.held
    case Swap(l) => l !in cpu.held
    case Unlock(l) => l in cpu.held
    case PopCheckIntr => !cpu.intr
    case PopCheckCount => cpu.noff >= 1
    case _ => true
  }

  lemma TakeReaches(l: LockId, c: CpuId, cpu: Cpu, lk: Lock, h0: set<LockId>, b0: nat)
    requires Sound(c, cpu, lk) && Reached(Take(l), cpu.pc, cpu.held, cpu.bare, h0, b0)
    ensures var cpu' := Local(c, cpu, lk); Reached(Take(l), cpu'.pc, cpu'.held, cpu'.bare, h0, b0)
  {
  }

  lemma GiveReaches(l: LockId, c: CpuId, cpu: Cpu, lk: Lock, h0: set<LockId>, b0: nat)
    requires Sound(c, cpu, lk) && Reached(Give(l), cpu.pc, cpu.held, cpu.bare, h0, b0)
    ensures var cpu' := Local(c, cpu, lk); Reached(Give(l), cpu'.pc, cpu'.held, cpu'.bare, h0, b0)
  {
  }

  lemma NestReaches(op: Op, c: CpuId, cpu: Cpu, lk: Lock, h0: set<LockId>, b0: nat)
    requires Sound(c, cpu, lk) && Reached(op, cpu.pc, cpu.held, cpu.bare, h0, b0) && (op.Push? || op.Pop?)
    ensures var cpu' := Local(c, cpu, lk); Reached(op, cpu'.pc, cpu'.held, cpu'.bare, h0, b0)
  {
  }

  /** What an instruction of CPU c reads and does. */
  lemma StepIsLocal(s: State, c: CpuId) returns (lk: Lock)
    requires Inv(s) && Enabled(s, Step(c))
    ensures Sound(c, s.cpus[c], lk) && Apply(s, Step(c)).cpus[c] == Local(c, s.cpus[c], lk)
    ensures Apply(s, Step(c)).cpus[c].saved == s.cpus[c].saved
  {
    var pc := s.cpus[c].pc;
    lk := match PcLock(pc) case None => Lock(false, None) case Some(l) => s.locks[l];
    assert CpuInv(s.cpus[c], |s.locks|);
    if pc.ReadLocked? || pc.ReadCpu? {
      assert Holds(s, c, pc.l) ==> s.locks[pc.l].locked;
    }
    LocalKeepsSaved(c, s.cpus[c], lk);
    hide Local;
  }

  lemma LocalKeepsSaved(c: CpuId, cpu: Cpu, lk: Lock)
    ensures Local(c, cpu, lk).saved == cpu.saved
  {
  }

  lemma StepReaches(s: State, op: Op, c: CpuId, cpu0: Cpu)
    requires Inv(s) && Enabled(s, Step(c)) && CallInv(op, s.cpus[c], cpu0)
    ensures CallInv(op, Apply(s, Step(c)).cpus[c], cpu0)
  {
    hide Local, Reached, Inv, Sound, Apply;
    var lk := StepIsLocal(s, c);
    var cpu := s.cpus[c];
    if |cpu.saved| == |cpu0.saved| {
      match op
      case Take(l) => TakeReaches(l, c, cpu, lk, cpu0.held, cpu0.bare);
      case Give(l) => GiveReaches(l, c, cpu, lk, cpu0.held, cpu0.bare);
      case _ => NestReaches(op, c, cpu, lk, cpu0.held, cpu0.bare);
    }
  }

  /** Outside any lock nothing is held and no push is outstanding. */
  lemma NothingHeld(s: State, c: CpuId)
    requires Inv(s) && c < |s.cpus| && s.cpus[c].pc != Panicked && s.cpus[c].noff == 0
    ensures s.cpus[c].held == {} && s.cpus[c].bare == 0
  {
    assert CpuInv(s.cpus[c], |s.locks|);
  }

  lemma OthersReach(s: State, e: Event, op: Op, c: CpuId, cpu0: Cpu)
    requires Inv(s) && Enabled(s, e) && !e.Step? && c < |s.cpus| && CallInv(op, s.cpus[c], cpu0)
    requires e.c == c && |s.cpus[c].saved| == |cpu0.saved| ==> e.Interrupt?
    ensures CallInv(op, Apply(s, e).cpus[c], cpu0)
  {
    var cpu, d := s.cpus[c], |cpu0.saved|;
    hide Reached;
    if e.c == c {
      assert CpuInv(cpu, |s.locks|);
      if e.Interrupt? || e.Return? {
        NothingHeld(s, c);
      }
      hide Inv, CpuInv;
      assert Apply(s, e).cpus[c].saved[..d] == cpu.saved[..d];
    }
  }

  lemma EventReaches(s: State, e: Event, op: Op, c: CpuId, cpu0: Cpu)
    requires Inv(s) && Enabled(s, e) && c < |s.cpus| && CallInv(op, s.cpus[c], cpu0)
    requires e.c == c && |s.cpus[c].saved| == |cpu0.saved| ==> e.Step? || e.Interrupt?
    ensures |Apply(s, e).cpus| == |s.cpus| && CallInv(op, Apply(s, e).cpus[c], cpu0)
  {
    hide Inv, CallInv, Local;
    if e == Step(c) {
      StepReaches(s, op, c, cpu0);
    } else if !e.Step? {
      OthersReach(s, e, op, c, cpu0);
    }
  }

  lemma {:induction false} RunReaches(s: State, es: seq<Event>, op: Op, c: CpuId, cpu0: Cpu)
    requires Inv(s) && Legal(s, es) && c < |s.cpus| && CallInv(op, s.cpus[c], cpu0)
    requires During(s, es, c, |cpu0.saved|)
    ensures Inv(Exec(s, es)) && |Exec(s, es).cpus| == |s.cpus| && CallInv(op, Exec(s, es).cpus[c], cpu0)
    decreases |es|
  {
    hide Inv, CallInv, Apply, Enabled;
    if es != [] {
      StepKeepsInv(s, es[0]);
      EventReaches(s, es[0], op, c, cpu0);
      RunReaches(Apply(s, es[0]), es[1..], op, c, cpu0);
    }
  }

  // ---------------------------------------------------------- main theorems

  /** This run carries a call on CPU c to its return, or to a panic. */
  ghost predicate Carries(s: State, op: Op, c: CpuId, es: seq<Event>) {
    && Reachable(s) && Enabled(s, Call(op, c))
    && var s1 := Apply(s, Call(op, c));
       && Legal(s1, es) && During(s1, es, c, |s.cpus[c].saved|)
       && var s2 := Exec(s1, es);
          && c < |s2.cpus| && |s2.cpus[c].saved| == |s.cpus[c].saved|
          && (s2.cpus[c].pc == Idle || s2.cpus[c].pc == Panicked)
  }

  lemma {:induction false} CallEnds(s: State, op: Op, c: CpuId, es: seq<Event>)
    requires Carries(s, op, c, es)
    ensures var s2 := Exec(Apply(s, Call(op, c)), es);
            && Inv(s2) && s2.cpus[c].saved == s.cpus[c].saved
            && Reached(op, s2.cpus[c].pc, s2.cpus[c].held, s2.cpus[c].bare, s.cpus[c].held, s.cpus[c].bare)
  {
    hide Inv, Reached;
    ReachableInv(s);
    StepKeepsInv(s, Call(op, c));
    CallStarts(s, op, c);
    var s1 := Apply(s, Call(op, c));
    assert c < |s1.cpus|;
    RunReaches(s1, es, op, c, s.cpus[c]);
    var cpu := Exec(s1, es).cpus[c];
    assert cpu.saved[..|cpu.saved|] == cpu.saved;
  }

  lemma HeldIsOwned(s: State, c: CpuId, l: LockId)
    requires Inv(s) && c < |s.cpus| && l in s.cpus[c].held
    ensures l < |s.locks| && (s.cpus[c].pc == Idle ==> s.locks[l] == Lock(true, Some(c)))
  {
    assert CpuInv(s.cpus[c], |s.locks|);
    assert Holds(s, c, l);
  }

  /**
   In every run an `acquire` that returns has the lock, which it did not have before, and nothing
   else of its CPU's changed hands; it panics exactly when the CPU held the lock already.
   */
  lemma {:induction false} AcquireReturnsHolding(s: State, l: LockId, c: CpuId, es: seq<Event>)
    requires Carries(s, Take(l), c, es)
    ensures var s2 := Exec(Apply(s, CallAcquire(c, l)), es);
            var cpu, cpu' := s.cpus[c], s2.cpus[c];
            && cpu'.saved == cpu.saved && cpu'.bare == cpu.bare
            && (cpu'.pc == Panicked <==> l in cpu.held)
            && cpu'.held == cpu.held + {l} && l < |s2.locks|
            && (cpu'.pc == Idle ==> s2.locks[l] == Lock(true, Some(c)))
  {
    CallEnds(s, Take(l), c, es);
    var s2 := Exec(Apply(s, CallAcquire(c, l)), es);
    hide During, Legal, Apply, Enabled, Inv, Reachable;
    assert l in s2.cpus[c].held;
    HeldIsOwned(s2, c, l);
    if s2.cpus[c].pc != Idle {
      assert s2.cpus[c].held + {l} == s2.cpus[c].held;
    }
  }

  /**
   In every run a `release` that returns has given the lock back, which it had before; it
   panics exactly when the CPU did not hold the lock.
   */
  lemma {:induction false} ReleaseReturnsWithout(s: State, l: LockId, c: CpuId, es: seq<Event>)
    requires Carries(s, Give(l), c, es)
    ensures var s2 := Exec(Apply(s, CallRelease(c, l)), es);
            var cpu, cpu' := s.cpus[c], s2.cpus[c];
            && cpu'.saved == cpu.saved && cpu'.bare == cpu.bare
            && (cpu'.pc == Panicked <==> l !in cpu.held)
            && cpu'.held == cpu.held - {l}
            && (l < |s2.locks| ==> s2.locks[l].cpu != Some(c))
  {
    CallEnds(s, Give(l), c, es);
    var s2 := Exec(Apply(s, CallRelease(c, l)), es);
  }

  /**
   In every run a bare `push_off` that returns has counted one more push and left interrupts off,
   and a bare `pop_off` returns with one fewer and never panics.
   */
  lemma {:induction false} NestingReturnsCounted(s: State, op: Op, c: CpuId, es: seq<Event>)
    requires Carries(s, op, c, es) && (op.Push? || op.Pop?)
    ensures var cpu, cpu' := s.cpus[c], Exec(Apply(s, Call(op, c)), es).cpus[c];
            && cpu'.pc == Idle && cpu'.saved == cpu.saved && cpu'.held == cpu.held
            && cpu'.noff == cpu.noff + (if op.Push? then 1 else -1)
            && cpu'.bare == cpu.bare + (if op.Push? then 1 else -1)
            && (cpu'.noff > 0 ==> !cpu'.intr)
  {
    ReachableInv(s);
    CallEnds(s, op, c, es);
    var s2 := Exec(Apply(s, Call(op, c)), es);
    assert CpuInv(s.cpus[c], |s.locks|) && CpuInv(s2.cpus[c], |s2.locks|);
  }

  // ------------------------------------------------------------- progress

  ghost function Own(c: CpuId, n: nat): seq<Event> { seq(n, _ => Step(c)) }

  lemma {:induction false} OneMore(s: State, s': State, c: CpuId, n: nat)
    requires Enabled(s, Step(c)) && s' == Apply(s, Step(c)) && Legal(s', Own(c, n))
    ensures Legal(s, Own(c, n + 1)) && Exec(s, Own(c, n + 1)) == Exec(s', Own(c, n))
  {
    assert Own(c, n + 1)[1..] == Own(c, n) && Own(c, n + 1)[0] == Step(c);
  }

  /** A free lock is won by the next swap; one that is taken leaves the CPU swapping. */
  lemma SwapWinsIff(s: State, c: CpuId, l: LockId)
    requires Reachable(s) && Enabled(s, Step(c)) && s.cpus[c].pc == Swap(l)
    ensures l in Apply(s, Step(c)).cpus[c].held <==> !s.locks[l].locked
    ensures s.locks[l].locked ==> Apply(s, Step(c)) == s
  {
    ReachableInv(s);
    assert CpuInv(s.cpus[c], |s.locks|);
    hide Inv, CpuInv;
    if s.locks[l].locked {
      assert Apply(s, Step(c)).locks == s.locks;
    }
  }

  /** CPU c stands at pc, and lock l has this word and owner. */
  ghost predicate Stands(s: State, c: CpuId, pc: Pc, l: LockId, lk: Lock) {
    c < |s.cpus| && l < |s.locks| && s.cpus[c].pc == pc && s.locks[l] == lk
  }

  lemma {:induction false} SwapsAndOwns(s: State, c: CpuId, l: LockId, owner: Option<CpuId>)
    requires Stands(s, c, Swap(l), l, Lock(false, owner))
    ensures Legal(s, Own(c, 2))
    ensures var s' := Exec(s, Own(c, 2)); Stands(s', c, Idle, l, Lock(true, Some(c))) && l in s'.cpus[c].held
  {
    var s1 := Apply(s, Step(c));
    var s2 := Apply(s1, Step(c));
    OneMore(s1, s2, c, 0);
    OneMore(s, s1, c, 1);
  }

  /** An `acquire` of a free lock returns with it after seven instructions if nobody interferes. */
  lemma {:induction false} FreeLockIsTaken(s: State, c: CpuId, l: LockId)
    requires Enabled(s, CallAcquire(c, l)) && !s.locks[l].locked
    ensures var s1 := Apply(s, CallAcquire(c, l));
            && Legal(s1, Own(c, 7))
            && var s' := Exec(s1, Own(c, 7));
               Stands(s', c, Idle, l, Lock(true, Some(c))) && l in s'.cpus[c].held
  {
    hide Local, OnLock, PcLock;
    var lk := s.locks[l];
    var s1 := Apply(s, CallAcquire(c, l));
    assert Stands(s1, c, PushRead(Acquire(l)), l, lk);
    hide Apply, Enabled, Stands;
    var s2 := Pushes(s1, c, l, PushRead(Acquire(l)), lk);
    var s3 := Pushes(s2, c, l, s2.cpus[c].pc, lk);
    var s4 := Pushes(s3, c, l, s3.cpus[c].pc, lk);
    var s5 := Pushes(s4, c, l, s4.cpus[c].pc, lk);
    FindsFree(s5, c, l, lk.cpu);
    OneMore(s4, s5, c, 3);
    OneMore(s3, s4, c, 4);
    OneMore(s2, s3, c, 5);
    OneMore(s1, s2, c, 6);
  }

  lemma {:induction false} FindsFree(s: State, c: CpuId, l: LockId, owner: Option<CpuId>)
    requires Stands(s, c, ReadLocked(l, ByAcquire), l, Lock(false, owner))
    ensures Legal(s, Own(c, 3))
    ensures var s' := Exec(s, Own(c, 3)); Stands(s', c, Idle, l, Lock(true, Some(c))) && l in s'.cpus[c].held
  {
    var s1 := Apply(s, Step(c));
    assert Enabled(s, Step(c)) && Stands(s1, c, Swap(l), l, Lock(false, owner));
    hide Apply, Enabled, Stands;
    SwapsAndOwns(s1, c, l, owner);
    OneMore(s, s1, c, 2);
  }

  /** One instruction of `push_off` inside `acquire`. */
  lemma Pushes(s: State, c: CpuId, l: LockId, pc: Pc, lk: Lock) returns (s': State)
    requires Stands(s, c, pc, l, lk) && PushingFor(pc, Acquire(l))
    ensures Enabled(s, Step(c)) && s' == Apply(s, Step(c)) && c < |s'.cpus| && Stands(s', c, s'.cpus[c].pc, l, lk)
    ensures pc.PushRead? ==> s'.cpus[c].pc.PushMask? && s'.cpus[c].pc.k == Acquire(l)
    ensures pc.PushMask? ==> s'.cpus[c].pc.PushSave? && s'.cpus[c].pc.k == Acquire(l)
    ensures pc.PushSave? ==> s'.cpus[c].pc == PushCount(Acquire(l))
    ensures pc.PushCount? ==> s'.cpus[c].pc == ReadLocked(l, ByAcquire)
  {
    s' := Apply(s, Step(c));
  }

  /** A `release` of a lock the CPU holds frees it after four instructions and returns after eight. */
  lemma {:induction false} HeldLockIsFreed(s: State, c: CpuId, l: LockId)
    requires Reachable(s) && Enabled(s, CallRelease(c, l)) && l in s.cpus[c].held
    ensures var s1 := Apply(s, CallRelease(c, l));
            && Legal(s1, Own(c, 8))
            && Stands(Exec(s1, Own(c, 8)), c, Idle, l, Lock(false, None))
  {
    ReachableInv(s);
    StepKeepsInv(s, CallRelease(c, l));
    assert Holds(s, c, l) && CpuInv(s.cpus[c], |s.locks|);
    var s1 := Apply(s, CallRelease(c, l));
    assert Stands(s1, c, ReadLocked(l, ByRelease), l, Lock(true, Some(c))) && CanPop(s1, c);
    hide Inv, CpuInv, Reachable;
    GivesBack(s1, c, l);
  }

  /** CPU c is about to pop a push with interrupts off. */
  ghost predicate CanPop(s: State, c: CpuId) { c < |s.cpus| && s.cpus[c].noff >= 1 && !s.cpus[c].intr }

  lemma {:induction false} GivesBack(s: State, c: CpuId, l: LockId)
    requires Stands(s, c, ReadLocked(l, ByRelease), l, Lock(true, Some(c))) && CanPop(s, c)
    ensures Legal(s, Own(c, 8)) && Stands(Exec(s, Own(c, 8)), c, Idle, l, Lock(false, None))
  {
    var s1 := Apply(s, Step(c));
    assert Enabled(s, Step(c)) && Stands(s1, c, ReadCpu(l, ByRelease), l, Lock(true, Some(c))) && CanPop(s1, c);
    var s2 := Apply(s1, Step(c));
    assert Enabled(s1, Step(c)) && Stands(s2, c, ClearCpu(l), l, Lock(true, Some(c))) && CanPop(s2, c);
    hide Apply, Enabled, Stands, CanPop;
    Unlocks(s2, c, l);
    OneMore(s1, s2, c, 6);
    OneMore(s, s1, c, 7);
  }

  lemma {:induction false} Unlocks(s: State, c: CpuId, l: LockId)
    requires Stands(s, c, ClearCpu(l), l, Lock(true, Some(c))) && CanPop(s, c)
    ensures Legal(s, Own(c, 6)) && Stands(Exec(s, Own(c, 6)), c, Idle, l, Lock(false, None))
  {
    var s1 := Apply(s, Step(c));
    assert Enabled(s, Step(c)) && Stands(s1, c, Unlock(l), l, Lock(true, None)) && CanPop(s1, c);
    var s2 := Apply(s1, Step(c));
    assert Enabled(s1, Step(c)) && Stands(s2, c, PopCheckIntr, l, Lock(false, None)) && CanPop(s2, c);
    hide Apply, Enabled, Stands, CanPop;
    Pops(s2, c, l);
    OneMore(s1, s2, c, 4);
    OneMore(s, s1, c, 5);
  }

  lemma {:induction false} Pops(s: State, c: CpuId, l: LockId)
    requires Stands(s, c, PopCheckIntr, l, Lock(false, None)) && CanPop(s, c)
    ensures Legal(s, Own(c, 4)) && Stands(Exec(s, Own(c, 4)), c, Idle, l, Lock(false, None))
  {
    var s2 := Apply(s, Step(c));
    var s3 := Apply(s2, Step(c));
    var s4 := Apply(s3, Step(c));
    var s5 := Apply(s4, Step(c));
    OneMore(s4, s5, c, 0);
    OneMore(s3, s4, c, 1);
    OneMore(s2, s3, c, 2);
    OneMore(s, s2, c, 3);
  }
}
