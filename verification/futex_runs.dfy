/**
 Futex operations of any number of threads of one process, under every interleaving
 with each other, with plain stores to the futex words, and with POSIX signals and
 timeouts that wake sleepers.

 The process lock is held from the comparison in `futex_wait` until the thread is queued,
 and all through the loops of `futex_wakeup` and `futex_requeue`. Stores, signals and
 timeouts do not take it, so each turn of such a loop is several steps: the test for a
 waiter, its removal, the test of its state, and what is then done with it.
 */
module FutexRuns {
  import opened Common
  import opened Futexes

  datatype Waiter = Waiter(t: Tid, a: Addr, timed: bool)

  /** Where a loop stands; `t` is the waiter that was removed last. */
  datatype Point = Test | Remove | Check(t: Tid) | Finish(t: Tid) | End

  /**
   What the holder of the process lock is doing. `Comparing`: a thread inside `futex_wait`
   whose comparison succeeded. `Looping`: the loop of a wake, or of a requeue to `target`,
   that has `left` waiters of its request still to take.
   */
  datatype Section =
    | Idle
    | Comparing(w: Waiter)
    | Looping(a: Addr, target: Option<Addr>, left: int, at: Point)

  /**
   `table.asleep` sleep in `futex_wait`, `elsewhere` in some other call; the timer of `timed`
   is set. `home` is the address a thread went to sleep on, and `stale` are the sleepers for
   whom that address's entry has been freed since: their `wait_chan_entry` points into freed
   memory. `failed`: a panic, the use of freed memory, or a thread queued that does not sleep.
   `arrived` records per address the threads that entered its queue, without those that a
   signal or timeout took out again, and `departed` those that a loop took. They are history.
   */
  datatype State = State(table: Table, elsewhere: set<Tid>, timed: set<Tid>, home: map<Tid, Addr>,
                         stale: set<Tid>, mem: map<Addr, nat>, section: Section, failed: bool,
                         arrived: map<Addr, seq<Tid>>, departed: map<Addr, seq<Tid>>)

  datatype Event =
    | Store(a: Addr, v: nat)
    | Compare(t: Tid, a: Addr, expected: nat, timed: bool)  // `futex_wait` up to the comparison
    | Sleep                                                 // and from there to the scheduler
    | Begin(a: Addr, target: Option<Addr>, nr: int)         // a wake, or a requeue to `target`
    | Step                                                  // and the next step of its loop
    | Signalled(t: Tid)  // a POSIX signal wakes a sleeper
    | Expire(t: Tid)     // a timer fires
    | Disarm(t: Tid)     // a woken thread deletes its timer
    | Doze(t: Tid)       // a thread goes to sleep in some other call
    | Rouse(t: Tid)      // and is woken there

  ghost predicate Initial(s: State) {
    s == State(Table(map[], {}), {}, {}, map[], {}, s.mem, Idle, false, map[], map[])
  }

  /** The thread runs in user code or in a call that is not blocked. */
  ghost predicate Running(s: State, t: Tid) {
    t !in s.table.asleep && t !in s.elsewhere && t !in s.timed
  }

  ghost predicate Enabled(s: State, e: Event) {
    !s.failed
    && match e
       case Store(_, _) => true
       case Compare(t, a, v, _) => s.section == Idle && Running(s, t) && a in s.mem && s.mem[a] == v
       case Sleep => s.section.Comparing?
       case Begin(_, _, _) => s.section == Idle
       case Step => s.section.Looping?
       case Signalled(t) => t in s.table.asleep
       case Expire(t) => t in s.timed
       case Disarm(t) => t in s.timed && t !in s.table.asleep
       case Doze(t) => Running(s, t) && (s.section.Comparing? ==> s.section.w.t != t)
       case Rouse(t) => t in s.elsewhere
  }

  /** The history without the last arrival of t. */
  ghost function WithoutLast(h: seq<Tid>, t: Tid): seq<Tid> {
    if h == [] then [] else
      var n := |h| - 1;
      if h[n] == t then h[..n] else WithoutLast(h[..n], t) + [h[n]]
  }

  /** `thread_wakeup` from a signal or a timer, which takes the lock of the queue `wait_chan_entry` names. */
  ghost function Interrupted(s: State, t: Tid): State {
    if t in s.stale then s.(failed := true)
    else
      s.(table := Table(Dropped(s.table.queues, t), s.table.asleep - {t}),
         arrived := map a | a in s.arrived ::
                      if t in Queue(s.table.queues, a) then WithoutLast(s.arrived[a], t) else s.arrived[a])
  }

  ghost function At(s: State, p: Point): State
    requires s.section.Looping?
  {
    s.(section := s.section.(at := p))
  }

  ghost function TestWaiter(s: State): (s': State)
    requires s.section.Looping?
    ensures s'.table == s.table && s'.section.Looping? && s'.home == s.home && s'.stale == s.stale
  {
    At(s, if Queue(s.table.queues, s.section.a) != [] && s.section.left > 0 then Remove else End)
  }

  ghost function RemoveWaiter(s: State): (s': State)
    requires s.section.Looping?
    ensures s'.table.asleep == s.table.asleep && s'.section.Looping?
  {
    var a := s.section.a;
    if Queue(s.table.queues, a) == [] then s.(failed := true)
    else
      var t := s.table.queues[a][0];
      At(s.(table := s.table.(queues := Popped(s.table.queues, a)), departed := Pushed(s.departed, a, t)), Check(t))
  }

  ghost predicate Awake(s: State, t: Tid) { t !in s.table.asleep && t !in s.elsewhere }

  ghost function CheckWaiter(s: State, t: Tid): (s': State)
    requires s.section.Looping?
    ensures s'.table == s.table && s'.section.Looping? && s'.home == s.home && s'.stale == s.stale
  {
    if Awake(s, t) then s.(failed := true) else At(s, Finish(t))
  }

  /** The wake makes the thread run whatever it sleeps in; the requeue links it into the other queue. */
  ghost function FinishWaiter(s: State, t: Tid): (s': State)
    requires s.section.Looping?
    ensures s.table.asleep - {t} <= s'.table.asleep <= s.table.asleep && s'.section.Looping?
  {
    var again := s.section.(left := s.section.left - 1, at := Test);
    match s.section.target
    case None =>
      if Awake(s, t) then s.(failed := true)
      else s.(table := s.table.(asleep := s.table.asleep - {t}), elsewhere := s.elsewhere - {t}, section := again)
    case Some(b) =>
      if t !in s.table.asleep then s.(failed := true)
      else s.(table := s.table.(queues := Pushed(s.table.queues, b, t)), arrived := Pushed(s.arrived, b, t),
              section := again)
  }

  /** An emptied entry is freed, and with it the queue that sleepers requeued from it still point to. */
  ghost function EndLoop(s: State): (s': State)
    requires s.section.Looping?
    ensures s'.table.asleep == s.table.asleep && s'.section == Idle
  {
    var a := s.section.a;
    var queues' := Freed(s.table.queues, a);
    s.(table := s.table.(queues := queues'), section := Idle,
       stale := s.stale + if a in queues' then {} else set t | t in s.home && s.home[t] == a && t in s.table.asleep)
  }

  ghost function StepLoop(s: State): (s': State)
    requires s.section.Looping?
    ensures s'.timed == s.timed && s'.table.asleep <= s.table.asleep
  {
    match s.section.at
    case Test => TestWaiter(s)
    case Remove => RemoveWaiter(s)
    case Check(t) => CheckWaiter(s, t)
    case Finish(t) => FinishWaiter(s, t)
    case End => EndLoop(s)
  }

  ghost function Apply(s: State, e: Event): State
    requires Enabled(s, e)
  {
    match e
    case Store(a, v) => s.(mem := s.mem[a := v])
    case Compare(t, a, _, timed) => s.(section := Comparing(Waiter(t, a, timed)))
    case Sleep =>
      var w := s.section.w;
      s.(table := Enqueue(s.table, w.a, w.t), section := Idle, arrived := Pushed(s.arrived, w.a, w.t),
         timed := if w.timed then s.timed + {w.t} else s.timed, home := s.home[w.t := w.a], stale := s.stale - {w.t})
    case Begin(a, target, nr) =>
      if a !in s.table.queues then s
      else
        var queues' := if target.Some? then WithEntry(s.table.queues, target.value) else s.table.queues;
        s.(section := Looping(a, target, nr, Test), table := s.table.(queues := queues'))
    case Step => StepLoop(s)
    case Signalled(t) => Interrupted(s, t)
    case Expire(t) =>
      if t in s.table.asleep then Interrupted(s.(timed := s.timed - {t}), t) else s.(failed := true)
    case Disarm(t) => s.(timed := s.timed - {t})
    case Doze(t) => s.(elsewhere := s.elsewhere + {t})
    case Rouse(t) => s.(elsewhere := s.elsewhere - {t})
  }

  ghost predicate Legal(s: State, es: seq<Event>)
    decreases |es|
  {
    es == [] || (Enabled(s, es[0]) && Legal(Apply(s, es[0]), es[1..]))
  }

  ghost function Exec(s: State, es: seq<Event>): State
    requires Legal(s, es)
    decreases |es|
  {
    if es == [] then s else Exec(Apply(s, es[0]), es[1..])
  }

  // ------------------------------------------------------------- invariant

  /** The waiter that a loop has removed and not yet dealt with. */
  ghost predicate Taken(s: State, t: Tid) {
    s.section.Looping? && (s.section.at == Check(t) || s.section.at == Finish(t))
  }

  /** The sleepers are the queued threads and perhaps the one that is taken; nobody sleeps twice. */
  ghost predicate SleepInv(s: State) {
    && Unique(s.table.queues)
    && (forall t :: IsQueued(s.table.queues, t) ==> t in s.table.asleep && !Taken(s, t))
    && (forall t :: t in s.table.asleep ==> IsQueued(s.table.queues, t) || Taken(s, t))
    && (forall t :: t in s.elsewhere ==> t !in s.table.asleep && t !in s.timed)
  }

  ghost predicate SectionInv(s: State) {
    match s.section
    case Idle => true
    case Comparing(w) => Running(s, w.t)
    case Looping(a, target, left, at) =>
      && a in s.table.queues && (target.Some? ==> target.value in s.table.queues)
      && (at.Remove? || at.Check? || at.Finish? ==> left > 0)
      && (at == End ==> left <= 0 || Queue(s.table.queues, a) == [])
  }

  /** Everything that entered a queue left it in the same order or is still there. */
  ghost predicate FifoInv(s: State) {
    forall a :: Queue(s.arrived, a) == Queue(s.departed, a) + Queue(s.table.queues, a)
  }

  ghost predicate Inv(s: State) { SleepInv(s) && SectionInv(s) && FifoInv(s) }

  // ---------------------------------------------------------- sleepers

  lemma InterruptKeepsSleep(s: State, t: Tid)
    requires SleepInv(s) && t in s.table.asleep
    ensures SleepInv(Interrupted(s, t))
  {
    hide Taken, Awake, Running, WithoutLast, Without, Queue;
    TakenBySection(s, Interrupted(s, t));
    if t !in s.stale {
      DropKeeps(s.table.queues, t);
      hide Unique, IsQueued, Dropped;
    }
  }

  lemma TakenBySection(s: State, s': State)
    requires s.section == s'.section
    ensures forall u :: Taken(s', u) <==> Taken(s, u)
  {
  }

  lemma InterruptKeepsSection(s: State, t: Tid)
    requires SectionInv(s)
    ensures SectionInv(Interrupted(s, t))
  {
    hide WithoutLast, Taken, Awake;
    if s.section.Looping? {
      assert Queue(s.table.queues, s.section.a) == [] ==> Without(Queue(s.table.queues, s.section.a), t) == [];
    }
  }

  lemma RemoveKeepsSleep(s: State)
    requires SleepInv(s) && SectionInv(s) && s.section.Looping? && s.section.at == Remove
    ensures SleepInv(RemoveWaiter(s)) && SectionInv(RemoveWaiter(s))
  {
    var a := s.section.a;
    if Queue(s.table.queues, a) != [] {
      assert IsQueued(s.table.queues, s.table.queues[a][0]);
      PopKeeps(s.table.queues, a);
      hide Unique, IsQueued;
    }
  }

  lemma WakingKeepsSleep(s: State, t: Tid)
    requires SleepInv(s) && s.section.Looping? && s.section.at == Finish(t) && s.section.target == None
    ensures SleepInv(FinishWaiter(s, t))
  {
    hide Unique, IsQueued, Pushed;
    assert Taken(s, t);
  }

  lemma RequeueingKeepsSleep(s: State, t: Tid)
    requires SleepInv(s) && s.section.Looping? && s.section.at == Finish(t) && s.section.target.Some?
    ensures SleepInv(FinishWaiter(s, t))
  {
    assert Taken(s, t);
    if t in s.table.asleep {
      PushKeeps(s.table.queues, s.section.target.value, t);
      hide Unique, IsQueued, Pushed;
    } else {
      hide Unique, IsQueued;
    }
  }

  lemma FinishKeepsSleep(s: State, t: Tid)
    requires SleepInv(s) && SectionInv(s) && s.section.Looping? && s.section.at == Finish(t)
    ensures SleepInv(FinishWaiter(s, t)) && SectionInv(FinishWaiter(s, t))
  {
    hide SleepInv;
    if s.section.target == None {
      WakingKeepsSleep(s, t);
    } else {
      RequeueingKeepsSleep(s, t);
    }
  }

  lemma EndKeepsSleep(s: State)
    requires SleepInv(s) && SectionInv(s) && s.section.Looping? && s.section.at == End
    ensures SleepInv(EndLoop(s)) && SectionInv(EndLoop(s))
  {
    FreedKeeps(s.table.queues, s.section.a);
    hide Unique, IsQueued;
  }

  lemma CheckKeepsSleep(s: State, t: Tid)
    requires SleepInv(s) && SectionInv(s) && s.section.Looping? && s.section.at == Check(t)
    ensures SleepInv(CheckWaiter(s, t)) && SectionInv(CheckWaiter(s, t))
  {
    hide Unique, IsQueued;
    assert forall u :: Taken(s, u) <==> u == t;
  }

  lemma TestKeepsSleep(s: State)
    requires SleepInv(s) && SectionInv(s) && s.section.Looping? && s.section.at == Test
    ensures SleepInv(TestWaiter(s)) && SectionInv(TestWaiter(s))
  {
    hide Unique, IsQueued;
  }

  lemma StepKeepsSleep(s: State)
    requires SleepInv(s) && SectionInv(s) && s.section.Looping?
    ensures SleepInv(StepLoop(s)) && SectionInv(StepLoop(s))
  {
    hide SleepInv, SectionInv;
    match s.section.at
    case Test => TestKeepsSleep(s);
    case Remove => RemoveKeepsSleep(s);
    case Check(t) => CheckKeepsSleep(s, t);
    case Finish(t) => FinishKeepsSleep(s, t);
    case End => EndKeepsSleep(s);
  }

  lemma QueueingKeepsSleep(s: State, e: Event)
    requires SleepInv(s) && SectionInv(s) && Enabled(s, e) && (e == Sleep || e.Begin?)
    ensures SleepInv(Apply(s, e)) && SectionInv(Apply(s, e))
  {
    match e
    case Sleep => PushKeeps(s.table.queues, s.section.w.a, s.section.w.t); hide Unique, IsQueued;
    case Begin(a, target, _) =>
      if target.Some? {
        WithEntryKeeps(s.table.queues, target.value);
      }
      hide Unique, IsQueued;
  }

  lemma EventKeepsSleep(s: State, e: Event)
    requires SleepInv(s) && SectionInv(s) && Enabled(s, e)
    ensures SleepInv(Apply(s, e)) && SectionInv(Apply(s, e))
  {
    match e
    case Sleep => QueueingKeepsSleep(s, e); hide SleepInv, SectionInv;
    case Begin(_, _, _) => QueueingKeepsSleep(s, e); hide SleepInv, SectionInv;
    case Step => StepKeepsSleep(s); hide SleepInv, SectionInv;
    case Signalled(t) =>
      InterruptKeepsSleep(s, t);
      InterruptKeepsSection(s, t);
      hide SleepInv, SectionInv;
    case Expire(t) =>
      if t in s.table.asleep {
        hide Unique, IsQueued;
        assert SleepInv(s.(timed := s.timed - {t})) && SectionInv(s.(timed := s.timed - {t}));
        hide SleepInv, SectionInv;
        InterruptKeepsSleep(s.(timed := s.timed - {t}), t);
        InterruptKeepsSection(s.(timed := s.timed - {t}), t);
      }
    case _ => hide Unique, IsQueued;
  }

  // -------------------------------------------------- first in, first out

  lemma {:induction false} WithoutLastOf(dep: seq<Tid>, q: seq<Tid>, p: nat)
    requires NoDup(q) && p < |q|
    ensures WithoutLast(dep + q, q[p]) == dep + (q[..p] + q[p + 1..])
  {
    var n, t, h := |q| - 1, q[p], dep + q;
    assert h[..|h| - 1] == dep + q[..n] && h[|h| - 1] == q[n];
    if p < n {
      WithoutLastOf(dep, q[..n], p);
      assert q[..p] + q[p + 1..] == (q[..n][..p] + q[..n][p + 1..]) + [q[n]];
    } else {
      assert q[..p] + q[p + 1..] == q[..n];
    }
  }

  lemma InterruptKeepsFifo(s: State, t: Tid)
    requires FifoInv(s) && SleepInv(s)
    ensures FifoInv(Interrupted(s, t))
  {
    var s' := Interrupted(s, t);
    if t !in s.stale {
      forall a ensures Queue(s'.arrived, a) == Queue(s'.departed, a) + Queue(s'.table.queues, a) {
        var q := Queue(s.table.queues, a);
        assert NoDup(q);
        if t in q {
          var p :| 0 <= p < |q| && q[p] == t;
          WithoutLastOf(Queue(s.departed, a), q, p);
          WithoutShape(q, p);
        } else {
          WithoutAbsent(q, t);
        }
      }
    }
  }

  lemma RemoveKeepsFifo(s: State)
    requires FifoInv(s) && SectionInv(s) && s.section.Looping? && s.section.at == Remove
    ensures FifoInv(RemoveWaiter(s))
  {
    var s', m := RemoveWaiter(s), s.section.a;
    if Queue(s.table.queues, m) != [] {
      var q := s.table.queues[m];
      forall a ensures Queue(s'.arrived, a) == Queue(s'.departed, a) + Queue(s'.table.queues, a) {
        assert Queue(s.arrived, a) == Queue(s.departed, a) + Queue(s.table.queues, a);
        if a == m {
          assert q == [q[0]] + q[1..];
        }
      }
    }
  }

  lemma FinishKeepsFifo(s: State, t: Tid)
    requires FifoInv(s) && s.section.Looping? && s.section.at == Finish(t)
    ensures FifoInv(FinishWaiter(s, t))
  {
    if s.section.target.Some? && t in s.table.asleep {
      PushKeepsFifo(s, FinishWaiter(s, t), s.section.target.value, t);
      hide FifoInv;
    }
  }

  lemma PushKeepsFifo(s: State, s': State, b: Addr, t: Tid)
    requires FifoInv(s) && s'.arrived == Pushed(s.arrived, b, t) && s'.departed == s.departed
    requires s'.table.queues == Pushed(s.table.queues, b, t)
    ensures FifoInv(s')
  {
    forall a ensures Queue(s'.arrived, a) == Queue(s'.departed, a) + Queue(s'.table.queues, a) {
      PushedAt(s.arrived, b, t, a);
      PushedAt(s.table.queues, b, t, a);
      hide Pushed, Queue;
    }
  }

  lemma PushedAt(m: map<Addr, seq<Tid>>, a: Addr, t: Tid, x: Addr)
    ensures Queue(Pushed(m, a, t), x) == Queue(m, x) + (if x == a then [t] else [])
  {
  }

  lemma StepKeepsFifo(s: State)
    requires FifoInv(s) && SectionInv(s) && s.section.Looping?
    ensures FifoInv(StepLoop(s))
  {
    match s.section.at
    case Remove => RemoveKeepsFifo(s); hide FifoInv;
    case Finish(t) => FinishKeepsFifo(s, t); hide FifoInv;
    case _ =>
  }

  lemma EventKeepsFifo(s: State, e: Event)
    requires FifoInv(s) && SleepInv(s) && SectionInv(s) && Enabled(s, e)
    ensures FifoInv(Apply(s, e))
  {
    match e
    case Step => StepKeepsFifo(s); hide FifoInv;
    case Signalled(t) => InterruptKeepsFifo(s, t); hide FifoInv;
    case Expire(t) =>
      hide Unique;
      if t in s.table.asleep {
        InterruptKeepsFifo(s.(timed := s.timed - {t}), t);
      }
    case Sleep =>
      PushKeepsFifo(s, Apply(s, e), s.section.w.a, s.section.w.t);
      hide FifoInv;
    case _ =>
  }

  lemma EventKeepsInv(s: State, e: Event)
    requires Inv(s) && Enabled(s, e)
    ensures Inv(Apply(s, e))
  {
    hide SleepInv, SectionInv, FifoInv, Apply;
    EventKeepsSleep(s, e);
    EventKeepsFifo(s, e);
  }

  lemma {:induction false} RunKeepsInv(s: State, es: seq<Event>)
    requires Inv(s) && Legal(s, es)
    ensures Inv(Exec(s, es))
    decreases |es|
  {
    if es != [] {
      EventKeepsInv(s, es[0]);
      RunKeepsInv(Apply(s, es[0]), es[1..]);
    }
  }

  ghost predicate Reachable(s: State) {
    exists b, es :: Initial(b) && Legal(b, es) && s == Exec(b, es)
  }

  lemma ReachableInv(s: State)
    requires Reachable(s)
    ensures Inv(s)
  {
    var b, es :| Initial(b) && Legal(b, es) && s == Exec(b, es);
    RunKeepsInv(b, es);
  }

  // ---------------------------------------------------------- main theorems

  /**
   In every run a sleeping thread is in exactly one queue, once, or it is the one that a loop
   has just taken from its queue; every queued thread sleeps.
   */
  lemma SleepersAreQueuedOnce(s: State, a: Addr, b: Addr, t: Tid)
    requires Reachable(s)
    ensures t in Queue(s.table.queues, a) ==> t in s.table.asleep
    ensures t in s.table.asleep ==> (Taken(s, t) <==> !exists x :: t in Queue(s.table.queues, x))
    ensures t in Queue(s.table.queues, a) && t in Queue(s.table.queues, b) ==> a == b
    ensures NoDup(Queue(s.table.queues, a))
  {
    ReachableInv(s);
    QueuedIffInQueue(s.table.queues, t);
    assert t in Queue(s.table.queues, a) ==> IsQueued(s.table.queues, t);
  }

  lemma QueuedIffInQueue(m: map<Addr, seq<Tid>>, t: Tid)
    ensures IsQueued(m, t) <==> exists x :: t in Queue(m, x)
  {
    if IsQueued(m, t) {
      var x :| x in m && t in m[x];
      assert t in Queue(m, x);
    }
    if x :| t in Queue(m, x) {
      assert x in m && t in m[x];
    }
  }

  /**
   In every run each queue is first-in first-out: the threads that a loop took from it, followed
   by those in it, are those that entered it and were not taken out by a signal or timeout.
   */
  lemma QueuesAreFifo(s: State, a: Addr)
    requires Reachable(s)
    ensures Queue(s.arrived, a) == Queue(s.departed, a) + Queue(s.table.queues, a)
  {
    ReachableInv(s);
  }
  /** A store decides who may wait: the comparison succeeds exactly for those who expect the value stored. */
  lemma StoreDecidesWhoWaits(s: State, a: Addr, v: nat, t: Tid, expected: nat, timed: bool)
    requires !s.failed && s.section == Idle && Running(s, t)
    ensures var s' := Apply(s, Store(a, v));
            && (Enabled(s', Compare(t, a, expected, timed)) <==> expected == v)
            && (forall b :: b != a ==>
                  (Enabled(s', Compare(t, b, expected, timed)) <==> Enabled(s, Compare(t, b, expected, timed))))
  {
  }

  /** A thread that waits goes to sleep as the youngest waiter of its queue, with its timer set if it asked for one. */
  lemma {:induction false} WaitIsExact(s: State, t: Tid, a: Addr, expected: nat, timed: bool)
    requires Reachable(s) && Enabled(s, Compare(t, a, expected, timed))
    ensures Enabled(Apply(s, Compare(t, a, expected, timed)), Sleep)
    ensures var s' := Apply(Apply(s, Compare(t, a, expected, timed)), Sleep);
            && Queue(s'.table.queues, a) == Queue(s.table.queues, a) + [t]
            && (forall b :: b != a ==> Queue(s'.table.queues, b) == Queue(s.table.queues, b))
            && s'.table.asleep == s.table.asleep + {t} && (t in s'.timed <==> timed)
            && (forall u :: u != t ==> (u in s'.timed <==> u in s.timed))
            && s'.mem == s.mem && s'.elsewhere == s.elsewhere && s'.section == Idle && !s'.failed
  {
  }

  /** In every run a thread whose wait has ended, and whose timer is spent or deleted, runs again. */
  lemma {:induction false} WaitEndsRunning(s: State, e: Event, t: Tid)
    requires Reachable(s) && Enabled(s, e) && !Apply(s, e).failed
    requires e == Expire(t) || e == Disarm(t) || e == Rouse(t) || (e == Signalled(t) && t !in s.timed)
    ensures Running(Apply(s, e), t)
  {
    hide Unique, IsQueued, FifoInv, SectionInv, WithoutLast, Dropped, StepLoop, Enqueue, Pushed;
    ReachableInv(s);
    assert t in s.elsewhere ==> t !in s.table.asleep && t !in s.timed;
    hide Reachable, Inv, SleepInv;
  }
}
