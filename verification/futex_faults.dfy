/**
 When the futex code fails: the panics of wake and requeue, the thread a requeue queues
 although it no longer sleeps, the wakeup that takes the lock of a freed queue, and the
 timer that finds nobody asleep.
 */
module FutexFaults {
  import opened Common
  import opened Futexes
  import opened FutexRuns
  import opened FutexSections

  // -------------------------------------------- between two steps of a loop

  lemma BetweenEvent(s: State, e: Event, t: Tid, a: Addr)
    requires Inv(s) && s.section.Looping? && Enabled(s, e) && e != Step && !Apply(s, e).failed
    ensures var s' := Apply(s, e);
            && s'.section == s.section
            && (t in s'.table.asleep <==> t in s.table.asleep && !Interrupts([e], t))
            && (t in Queue(s'.table.queues, a) <==> t in Queue(s.table.queues, a) && !Interrupts([e], t))
  {
    hide Inv, Awake, StepLoop, Interrupted, Queue;
    match e
    case Signalled(u) => InterruptedAt(s, u, t, a);
    case Expire(u) =>
      if u in s.table.asleep {
        InterruptedAt(s.(timed := s.timed - {u}), u, t, a);
      }
    case _ =>
  }

  lemma InterruptedAt(s: State, u: Tid, t: Tid, a: Addr)
    ensures var s' := Interrupted(s, u);
            && s'.section == s.section
            && (!s'.failed ==>
                  && (t in s'.table.asleep <==> t in s.table.asleep && t != u)
                  && (t in Queue(s'.table.queues, a) <==> t in Queue(s.table.queues, a) && t != u))
  {
    hide WithoutLast, Queue;
  }

  /** Between two steps only signals and timeouts take threads out of a queue or wake them. */
  lemma {:induction false} BetweenSteps(s: State, es: seq<Event>, t: Tid, a: Addr)
    requires Inv(s) && s.section.Looping? && Legal(s, es) && Step !in es && !Exec(s, es).failed
    ensures var s' := Exec(s, es);
            && Inv(s') && s'.section == s.section
            && (t in s'.table.asleep <==> t in s.table.asleep && !Interrupts(es, t))
            && (t in Queue(s'.table.queues, a) <==> t in Queue(s.table.queues, a) && !Interrupts(es, t))
    decreases |es|
  {
    hide Inv, Apply, Enabled, Queue;
    if es != [] {
      var e, rest := es[0], es[1..];
      assert es == [e] + rest;
      NotFailedBefore(s, es);
      EventKeepsInv(s, e);
      BetweenEvent(s, e, t, a);
      BetweenSteps(Apply(s, e), rest, t, a);
    }
  }

  lemma {:induction false} NotFailedBefore(s: State, es: seq<Event>)
    requires Legal(s, es) && es != [] && !Exec(s, es).failed
    ensures !Apply(s, es[0]).failed
  {
    if es[1..] != [] {
      assert Enabled(Apply(s, es[0]), es[1..][0]);
    }
  }

  // ------------------------------------------------ the panics of the loops

  /**
   The removal after a test that found waiters finds nobody, and panics, exactly when every one
   of them has been woken by a signal or timeout since.
   */
  lemma {:induction false} RemovalFailsIff(s: State, es: seq<Event>)
    requires Reachable(s) && s.section.Looping? && s.section.at == Remove
    requires Legal(s, es) && Step !in es && !Exec(s, es).failed
    ensures var q := Queue(s.table.queues, s.section.a);
            && Enabled(Exec(s, es), Step)
            && (Apply(Exec(s, es), Step).failed <==> forall t :: t in q ==> Interrupts(es, t))
  {
    ReachableInv(s);
    var s', q := Exec(s, es), Queue(s.table.queues, s.section.a);
    var q' := Queue(s'.table.queues, s.section.a);
    hide Inv, Apply, Enabled, Queue, Interrupts;
    BetweenSteps(s, es, 0, s.section.a);
    RemovalFails(s');
    forall t ensures t in q' <==> t in q && !Interrupts(es, t) {
      BetweenSteps(s, es, t, s.section.a);
    }
    if q' != [] {
      assert q'[0] in q';
    }
  }

  lemma RemovalFails(s: State)
    requires s.section.Looping? && s.section.at == Remove && !s.failed
    ensures Enabled(s, Step) && (Apply(s, Step).failed <==> Queue(s.table.queues, s.section.a) == [])
  {
  }

  /**
   The waiter that was removed is looked at twice, when its state is tested and when it is
   woken or queued again. The step fails exactly when a signal or timeout has woken the waiter
   and, for the two tests, it has not gone to sleep in another call since. When a wake finds
   it asleep in another call, it ends that call's wait instead.
   */
  lemma {:induction false} TakenFailsIff(s: State, es: seq<Event>, t: Tid)
    requires Reachable(s) && Taken(s, t) && Legal(s, es) && Step !in es && !Exec(s, es).failed
    ensures var s' := Exec(s, es);
            var woken := t !in s.table.asleep || Interrupts(es, t);
            var queueing := s.section.at == Finish(t) && s.section.target.Some?;
            && Enabled(s', Step)
            && (Apply(s', Step).failed <==> woken && (queueing || t !in s'.elsewhere))
            && (woken && s.section.at == Finish(t) && !Apply(s', Step).failed ==>
                  t in s'.elsewhere && t !in Apply(s', Step).elsewhere)
  {
    ReachableInv(s);
    BetweenSteps(s, es, t, 0);
    hide SleepInv, SectionInv, FifoInv, Pushed, Popped, Freed;
  }

  // ---------------------------------------------------- freed wait queues

  /** The entry of address a is freed. */
  ghost predicate Frees(s: State, e: Event, a: Addr) {
    e == Step && s.section.Looping? && s.section.at == End && s.section.a == a && Queue(s.table.queues, a) == []
  }

  ghost predicate FreesIn(s: State, es: seq<Event>, a: Addr)
    requires Legal(s, es)
    decreases |es|
  {
    es != [] && (Frees(s, es[0], a) || FreesIn(Apply(s, es[0]), es[1..], a))
  }

  /** The thread does not call `futex_wait` again. */
  ghost predicate NoCompareBy(es: seq<Event>, t: Tid) { forall e :: e in es && e.Compare? ==> e.t != t }

  ghost predicate ComparedBy(s: State, t: Tid) { s.section.Comparing? && s.section.w.t == t }

  lemma {:induction false} AwakeStaysAwake(s: State, es: seq<Event>, t: Tid)
    requires Legal(s, es) && NoCompareBy(es, t) && t !in s.table.asleep && !ComparedBy(s, t)
    ensures t !in Exec(s, es).table.asleep
    decreases |es|
  {
    if es != [] {
      var e, rest := es[0], es[1..];
      assert es == [e] + rest;
      AwakeAfter(s, e, t);
      hide Apply, Enabled, ComparedBy;
      AwakeStaysAwake(Apply(s, e), rest, t);
    }
  }

  lemma AwakeAfter(s: State, e: Event, t: Tid)
    requires Enabled(s, e) && t !in s.table.asleep && !ComparedBy(s, t) && (e.Compare? ==> e.t != t)
    ensures t !in Apply(s, e).table.asleep && !ComparedBy(Apply(s, e), t)
  {
    hide Queue, Pushed, Popped, Dropped, Freed, TestWaiter, RemoveWaiter, CheckWaiter, FinishWaiter, EndLoop;
  }

  /** A thread asleep in `futex_wait`: where it went to sleep, and whether that entry is gone. */
  ghost predicate SleepsFrom(s: State, t: Tid, a: Addr, stale: bool) {
    t in s.table.asleep && t in s.home && s.home[t] == a && (t in s.stale <==> stale)
  }

  lemma StaleAfter(s: State, e: Event, t: Tid, a: Addr, stale: bool)
    requires Inv(s) && Enabled(s, e) && SleepsFrom(s, t, a, stale) && t in Apply(s, e).table.asleep
    ensures SleepsFrom(Apply(s, e), t, a, stale || Frees(s, e, a))
  {
    hide SleepInv, FifoInv, Pushed, Popped, Dropped, WithoutLast, StepLoop;
    if e == Step {
      StaleAfterStep(s, t, a, stale);
    }
  }

  lemma StaleAfterStep(s: State, t: Tid, a: Addr, stale: bool)
    requires SectionInv(s) && Enabled(s, Step) && SleepsFrom(s, t, a, stale) && t in StepLoop(s).table.asleep
    ensures SleepsFrom(StepLoop(s), t, a, stale || Frees(s, Step, a))
  {
    if s.section.at == End {
      StaleAfterEnd(s, t, a, stale);
      hide EndLoop, SleepsFrom, Frees;
    } else {
      hide SectionInv, Freed, Queue, EndLoop, Pushed, Popped, Awake, TestWaiter, CheckWaiter;
    }
  }

  lemma StaleAfterEnd(s: State, t: Tid, a: Addr, stale: bool)
    requires SectionInv(s) && s.section.Looping? && s.section.at == End && SleepsFrom(s, t, a, stale)
    ensures SleepsFrom(EndLoop(s), t, a, stale || Frees(s, Step, a))
  {
    assert s.section.a in Freed(s.table.queues, s.section.a) <==> Queue(s.table.queues, s.section.a) != [];
    hide Freed, Queue;
  }

  lemma {:induction false} StaleIff(s: State, es: seq<Event>, t: Tid, a: Addr, stale: bool)
    requires Inv(s) && SleepsFrom(s, t, a, stale)
    requires Legal(s, es) && NoCompareBy(es, t) && t in Exec(s, es).table.asleep
    ensures SleepsFrom(Exec(s, es), t, a, stale || FreesIn(s, es, a))
    decreases |es|
  {
    if es != [] {
      var e, rest := es[0], es[1..];
      assert es == [e] + rest;
      EventKeepsInv(s, e);
      if t !in Apply(s, e).table.asleep {
        NotComparing(s, e, t);
        AwakeStaysAwake(Apply(s, e), rest, t);
      }
      StaleAfter(s, e, t, a, stale);
      hide Inv, Apply, Enabled, Frees, SleepsFrom;
      StaleIff(Apply(s, e), rest, t, a, stale || Frees(s, e, a));
    }
  }

  lemma NotComparing(s: State, e: Event, t: Tid)
    requires Inv(s) && Enabled(s, e) && t in s.table.asleep
    ensures !ComparedBy(Apply(s, e), t)
  {
    hide SleepInv, FifoInv, Pushed, Popped, Dropped, WithoutLast;
  }

  /**
   A signal to a sleeper takes the lock of a freed queue exactly when the entry of the address
   it went to sleep on has been freed since. The thread need not sleep there any more: a
   requeue leaves its `wait_chan_entry` as it was.
   */
  lemma {:induction false} SignalUsesFreedQueueIff(s: State, es: seq<Event>, t: Tid, a: Addr)
    requires Reachable(s) && ComparedBy(s, t) && s.section.w.a == a && Enabled(s, Sleep)
    requires var s1 := Apply(s, Sleep);
             && Legal(s1, es) && NoCompareBy(es, t)
             && t in Exec(s1, es).table.asleep && !Exec(s1, es).failed
    ensures var s1 := Apply(s, Sleep);
            && Enabled(Exec(s1, es), Signalled(t))
            && (Apply(Exec(s1, es), Signalled(t)).failed <==> FreesIn(s1, es, a))
  {
    ReachableInv(s);
    EventKeepsInv(s, Sleep);
    var s1 := Apply(s, Sleep);
    assert SleepsFrom(s1, t, a, false);
    hide Inv, WithoutLast, Dropped;
    StaleIff(s1, es, t, a, false);
  }

  /** While nothing is requeued every sleeper is where it went to sleep, or just taken from there. */
  ghost predicate AtHome(s: State) {
    && (s.section.Looping? ==> s.section.target == None)
    && forall t :: t in s.table.asleep ==>
         t in s.home && t !in s.stale && (t in Queue(s.table.queues, s.home[t]) || Taken(s, t))
  }

  lemma AtHomeAfterStep(s: State)
    requires AtHome(s) && s.section.Looping?
    ensures AtHome(StepLoop(s))
  {
    match s.section.at
    case Remove => RemoveLeavesHome(s); hide AtHome, RemoveWaiter;
    case Finish(t) => hide Queue, Pushed;
    case End => EndLeavesHome(s); hide AtHome, EndLoop;
    case _ => hide Queue;
  }

  lemma RemoveLeavesHome(s: State)
    requires AtHome(s) && s.section.Looping? && s.section.at == Remove
    ensures AtHome(RemoveWaiter(s))
  {
    var s', a, q := RemoveWaiter(s), s.section.a, Queue(s.table.queues, s.section.a);
    if q != [] {
      assert q == [q[0]] + q[1..];
      forall t | t in s'.table.asleep
        ensures t in Queue(s'.table.queues, s'.home[t]) || Taken(s', t)
      {
        if s.home[t] == a && t != q[0] {
          assert t in q[1..];
        }
      }
    }
  }

  lemma EndLeavesHome(s: State)
    requires AtHome(s) && s.section.Looping? && s.section.at == End
    ensures AtHome(EndLoop(s))
  {
  }

  lemma AtHomeAfter(s: State, e: Event)
    requires AtHome(s) && Enabled(s, e) && (e.Begin? ==> e.target == None)
    ensures AtHome(Apply(s, e))
  {
    match e
    case Step => AtHomeAfterStep(s); hide AtHome, StepLoop;
    case Sleep => SleepLeavesHome(s); hide AtHome, Queue;
    case Signalled(t) => hide WithoutLast, Dropped;
    case Expire(t) => hide WithoutLast, Dropped;
    case _ => hide Queue;
  }

  lemma SleepLeavesHome(s: State)
    requires AtHome(s) && Enabled(s, Sleep)
    ensures AtHome(Apply(s, Sleep))
  {
    var s', w := Apply(s, Sleep), s.section.w;
    forall t | t in s'.table.asleep
      ensures t in Queue(s'.table.queues, s'.home[t])
    {
      PushedAt(s.table.queues, w.a, w.t, s'.home[t]);
      hide Queue, Pushed;
    }
  }

  lemma {:induction false} AtHomeRun(s: State, es: seq<Event>)
    requires AtHome(s) && Legal(s, es)
    requires forall e :: e in es && e.Begin? ==> e.target == None
    ensures AtHome(Exec(s, es))
    decreases |es|
  {
    hide AtHome, Apply, Enabled;
    if es != [] {
      assert es == [es[0]] + es[1..];
      AtHomeAfter(s, es[0]);
      AtHomeRun(Apply(s, es[0]), es[1..]);
    }
  }

  /** It takes a requeue: in a run without any, no signal to a sleeper uses freed memory. */
  lemma {:induction false} OnlyRequeuesStrand(b: State, es: seq<Event>, t: Tid)
    requires Initial(b) && Legal(b, es) && forall e :: e in es && e.Begin? ==> e.target == None
    requires Enabled(Exec(b, es), Signalled(t))
    ensures !Apply(Exec(b, es), Signalled(t)).failed
  {
    AtHomeRun(b, es);
  }

  // ------------------------------------------------------------- timeouts

  /** Something takes the thread out of its sleep. */
  ghost predicate WokenIn(s: State, es: seq<Event>, t: Tid)
    requires Legal(s, es)
    decreases |es|
  {
    && es != []
    && ((t in s.table.asleep && t !in Apply(s, es[0]).table.asleep) || WokenIn(Apply(s, es[0]), es[1..], t))
  }

  lemma ArmedAfter(s: State, e: Event, t: Tid)
    requires Inv(s) && Enabled(s, e) && t in s.timed && e != Disarm(t) && e != Expire(t)
    ensures t in Apply(s, e).timed
    ensures t !in s.table.asleep ==> t !in Apply(s, e).table.asleep
  {
    hide SleepInv, FifoInv, Queue, Pushed, Popped, Dropped, Freed, WithoutLast;
    hide StepLoop;
  }

  lemma {:induction false} ArmedUntilDisarmed(s: State, es: seq<Event>, t: Tid)
    requires Inv(s) && Legal(s, es) && t in s.timed && Disarm(t) !in es && Expire(t) !in es
    ensures t in Exec(s, es).timed
    ensures t in Exec(s, es).table.asleep <==> t in s.table.asleep && !WokenIn(s, es, t)
    decreases |es|
  {
    hide Inv, Apply, Enabled;
    if es != [] {
      var e, rest := es[0], es[1..];
      assert es == [e] + rest;
      EventKeepsInv(s, e);
      ArmedAfter(s, e, t);
      ArmedUntilDisarmed(Apply(s, e), rest, t);
    }
  }

  /**
   A timer that fires for a thread whose sleep it guards fails exactly when the thread has been
   woken and has not deleted the timer yet, or its queue has been freed after a requeue.
   */
  lemma {:induction false} ExpiryFailsIff(s: State, es: seq<Event>, t: Tid)
    requires Reachable(s) && t in s.table.asleep && t in s.timed
    requires Legal(s, es) && Disarm(t) !in es && Expire(t) !in es && !Exec(s, es).failed
    ensures var s' := Exec(s, es);
            && Enabled(s', Expire(t))
            && (Apply(s', Expire(t)).failed <==> WokenIn(s, es, t) || t in s'.stale)
  {
    ReachableInv(s);
    ArmedUntilDisarmed(s, es, t);
    hide Inv, WithoutLast, Dropped;
  }

  // ------------------------------------------------------- runs that fail

  lemma {:induction false} Then(s: State, e: Event, s': State, rest: seq<Event>)
    requires Enabled(s, e) && Apply(s, e) == s' && Legal(s', rest)
    ensures Legal(s, [e] + rest) && Exec(s, [e] + rest) == Exec(s', rest)
  {
    assert ([e] + rest)[1..] == rest;
  }

  ghost function Start(): State {
    State(Table(map[], {}), {}, {}, map[], {}, map[0 := 0], Idle, false, map[], map[])
  }

  /** Thread 1 has gone to sleep on address 0, with a timeout if `timed`. */
  ghost function Slept(timed: bool): State {
    State(Table(map[0 := [1]], {1}), {}, if timed then {1} else {}, map[1 := 0], {}, map[0 := 0], Idle, false,
          map[0 := [1]], map[])
  }

  lemma {:induction false} GoesToSleep(timed: bool, rest: seq<Event>)
    requires Legal(Slept(timed), rest)
    ensures var es := [Compare(1, 0, 0, timed), Sleep] + rest;
            Legal(Start(), es) && Exec(Start(), es) == Exec(Slept(timed), rest)
  {
    var s := Start().(section := Comparing(Waiter(1, 0, timed)));
    assert Queue(s.arrived, 0) + [1] == [1];
    Then(s, Sleep, Slept(timed), rest);
    Then(Start(), Compare(1, 0, 0, timed), s, [Sleep] + rest);
    assert [Compare(1, 0, 0, timed)] + ([Sleep] + rest) == [Compare(1, 0, 0, timed), Sleep] + rest;
  }

  /** A wake of one waiter on address 0, or a requeue of one to address 8. */
  ghost function Target(requeue: bool): Option<Addr> { if requeue then Some(8) else None }

  ghost function Entries(requeue: bool, q: seq<Tid>): map<Addr, seq<Tid>> {
    if requeue then map[0 := q, 8 := []] else map[0 := q]
  }

  /** The loop has found thread 1. */
  ghost function Found(requeue: bool): State {
    Slept(false).(table := Table(Entries(requeue, [1]), {1}), section := Looping(0, Target(requeue), 1, Remove))
  }

  /** The loop has removed thread 1. */
  ghost function Removed(requeue: bool, asleep: set<Tid>, at: Point): State {
    Slept(false).(table := Table(Entries(requeue, []), asleep), section := Looping(0, Target(requeue), 1, at),
                  departed := map[0 := [1]])
  }

  ghost function Run(requeue: bool, rest: seq<Event>): seq<Event> {
    [Compare(1, 0, 0, false), Sleep] + ([Begin(0, Target(requeue), 1), Step] + rest)
  }

  lemma {:induction false} FindsIt(requeue: bool, rest: seq<Event>)
    requires Legal(Found(requeue), rest)
    ensures Legal(Start(), Run(requeue, rest)) && Exec(Start(), Run(requeue, rest)) == Exec(Found(requeue), rest)
  {
    var s, b := Found(requeue).(section := Looping(0, Target(requeue), 1, Test)), Begin(0, Target(requeue), 1);
    assert Entries(requeue, [1]) == if requeue then WithEntry(map[0 := [1]], 8) else map[0 := [1]];
    Then(s, Step, Found(requeue), rest);
    Then(Slept(false), b, s, [Step] + rest);
    assert [b] + ([Step] + rest) == [b, Step] + rest;
    GoesToSleep(false, [b, Step] + rest);
  }

  lemma {:induction false} RemovesIt(requeue: bool, rest: seq<Event>)
    requires Legal(Removed(requeue, {1}, Check(1)), rest)
    ensures var es := [Step] + rest;
            && Legal(Start(), Run(requeue, es))
            && Exec(Start(), Run(requeue, es)) == Exec(Removed(requeue, {1}, Check(1)), rest)
  {
    var q: seq<Tid> := [];
    assert [1][1..] == q && Queue(Found(requeue).departed, 0) + [1] == [1];
    assert Popped(Entries(requeue, [1]), 0) == Entries(requeue, []);
    Then(Found(requeue), Step, Removed(requeue, {1}, Check(1)), rest);
    FindsIt(requeue, [Step] + rest);
  }

  /** Thread 1 is signalled after its removal. */
  lemma SignalledWhenRemoved(requeue: bool, at: Point)
    ensures Enabled(Removed(requeue, {1}, at), Signalled(1))
    ensures Apply(Removed(requeue, {1}, at), Signalled(1)) == Removed(requeue, {}, at)
  {
    var s := Removed(requeue, {1}, at);
    assert Dropped(Entries(requeue, []), 1) == Entries(requeue, []);
    assert Interrupted(s, 1).arrived == map[0 := [1]];
  }

  lemma DropsTheOnly(requeue: bool)
    ensures Dropped(Entries(requeue, [1]), 1) == Entries(requeue, [])
  {
    assert Without([1], 1) == [];
  }

  lemma SignalledWhenFound(requeue: bool)
    ensures var s := Found(requeue);
            && Enabled(s, Signalled(1))
            && Apply(s, Signalled(1)) == s.(table := Table(Entries(requeue, []), {}), arrived := map[0 := []])
  {
    hide Dropped, Without, StepLoop;
    var s := Found(requeue);
    DropsTheOnly(requeue);
    assert WithoutLast([1], 1) == [];
    assert Queue(s.table.queues, 0) == [1];
    hide WithoutLast, Queue, Entries;
    assert Interrupted(s, 1).arrived == map[0 := []];
    assert Interrupted(s, 1).table.asleep == {};
  }

  /** The signal comes between test and removal. */
  lemma {:induction false} FailsAtRemoval(requeue: bool)
    ensures var es := Run(requeue, [Signalled(1), Step]);
            Legal(Start(), es) && Exec(Start(), es).failed
  {
    var s1 := Found(requeue);
    var s2 := s1.(table := Table(Entries(requeue, []), {}), arrived := map[0 := []]);
    SignalledWhenFound(requeue);
    Then(s2, Step, s2.(failed := true), []);
    Then(s1, Signalled(1), s2, [Step]);
    FindsIt(requeue, [Signalled(1), Step]);
  }

  /** It comes between removal and the test of the state. */
  lemma {:induction false} FailsAtCheck(requeue: bool)
    ensures var es := Run(requeue, [Step, Signalled(1), Step]);
            Legal(Start(), es) && Exec(Start(), es).failed
  {
    var s := Removed(requeue, {}, Check(1));
    Then(s, Step, s.(failed := true), []);
    SignalledWhenRemoved(requeue, Check(1));
    Then(Removed(requeue, {1}, Check(1)), Signalled(1), s, [Step]);
    RemovesIt(requeue, [Signalled(1), Step]);
    assert [Step] + [Signalled(1), Step] == [Step, Signalled(1), Step];
  }

  /** It comes after that test: the wake panics, the requeue queues a thread that runs. */
  lemma {:induction false} FailsAtFinish(requeue: bool)
    ensures var es := Run(requeue, [Step, Step, Signalled(1), Step]);
            Legal(Start(), es) && Exec(Start(), es).failed
  {
    var s := Removed(requeue, {}, Finish(1));
    Then(s, Step, s.(failed := true), []);
    SignalledWhenRemoved(requeue, Finish(1));
    Then(Removed(requeue, {1}, Finish(1)), Signalled(1), s, [Step]);
    Then(Removed(requeue, {1}, Check(1)), Step, Removed(requeue, {1}, Finish(1)), [Signalled(1), Step]);
    RemovesIt(requeue, [Step, Signalled(1), Step]);
    assert [Step] + [Step, Signalled(1), Step] == [Step, Step, Signalled(1), Step];
  }

  /** A thread that the wake has removed is signalled and goes to sleep in another call: the wake ends that sleep. */
  lemma {:induction false} EndsAnotherWait()
    ensures var es := Run(false, [Step, Signalled(1), Doze(1), Step]);
            && Legal(Start(), es) && Enabled(Exec(Start(), es), Step)
            && 1 in Exec(Start(), es).elsewhere
            && 1 !in Apply(Exec(Start(), es), Step).elsewhere && !Apply(Exec(Start(), es), Step).failed
  {
    var s := Removed(false, {}, Check(1)).(elsewhere := {1});
    DozesAndIsWoken(s);
    Then(Removed(false, {}, Check(1)), Doze(1), s, [Step]);
    SignalledWhenRemoved(false, Check(1));
    hide Apply, Enabled;
    Then(Removed(false, {1}, Check(1)), Signalled(1), Removed(false, {}, Check(1)), [Doze(1), Step]);
    RemovesIt(false, [Signalled(1), Doze(1), Step]);
    assert [Step] + [Signalled(1), Doze(1), Step] == [Step, Signalled(1), Doze(1), Step];
  }

  lemma {:induction false} DozesAndIsWoken(s: State)
    requires s == Removed(false, {}, Check(1)).(elsewhere := {1})
    ensures Legal(s, [Step]) && 1 in Exec(s, [Step]).elsewhere && Enabled(Exec(s, [Step]), Step)
    ensures 1 !in Apply(Exec(s, [Step]), Step).elsewhere && !Apply(Exec(s, [Step]), Step).failed
  {
    Then(s, Step, s.(section := Looping(0, None, 1, Finish(1))), []);
  }

  /** Thread 1 has been requeued to address 8. */
  ghost function Requeued(at: Point): State {
    Removed(true, {1}, Check(1)).(table := Table(map[0 := [], 8 := [1]], {1}), arrived := map[0 := [1], 8 := [1]],
                                  section := Looping(0, Some(8), 0, at))
  }

  lemma {:induction false} FreesTheOldQueue()
    ensures var es := [Step, Step, Signalled(1)];
            Legal(Requeued(Test), es) && Exec(Requeued(Test), es).failed
  {
    var s := Requeued(End).(table := Table(map[8 := [1]], {1}), section := Idle, stale := {1});
    Then(s, Signalled(1), s.(failed := true), []);
    assert Freed(map[0 := [], 8 := [1]], 0) == map[8 := [1]];
    assert EndLoop(Requeued(End)).stale == {1};
    Then(Requeued(End), Step, s, [Signalled(1)]);
    Then(Requeued(Test), Step, Requeued(End), [Step, Signalled(1)]);
  }

  lemma FinishesRequeue()
    ensures Enabled(Removed(true, {1}, Finish(1)), Step)
    ensures Apply(Removed(true, {1}, Finish(1)), Step) == Requeued(Test)
  {
    var s := Removed(true, {1}, Finish(1));
    assert Queue(s.table.queues, 8) + [1] == [1] && Queue(s.arrived, 8) + [1] == [1];
    assert Pushed(Entries(true, []), 8, 1) == map[0 := [], 8 := [1]];
    assert Pushed(s.arrived, 8, 1) == map[0 := [1], 8 := [1]];
  }

  /** After the only sleeper is requeued its old entry is freed, and a signal to it uses the freed queue. */
  lemma {:induction false} UsesFreedQueue()
    ensures var es := Run(true, [Step, Step, Step, Step, Step, Signalled(1)]);
            Legal(Start(), es) && Exec(Start(), es).failed
  {
    hide Requeued, Interrupted, EndLoop, TestWaiter, RemoveWaiter, FinishWaiter;
    FreesTheOldQueue();
    FinishesRequeue();
    Then(Removed(true, {1}, Finish(1)), Step, Requeued(Test), [Step, Step, Signalled(1)]);
    Then(Removed(true, {1}, Check(1)), Step, Removed(true, {1}, Finish(1)), [Step, Step, Step, Signalled(1)]);
    RemovesIt(true, [Step, Step, Step, Step, Signalled(1)]);
    assert [Step] + [Step, Step, Step, Step, Signalled(1)] == [Step, Step, Step, Step, Step, Signalled(1)];
  }

  /** A signal wakes a thread that sleeps with a timeout, and its timer fires before it can delete it. */
  lemma {:induction false} TimerFindsNobody()
    ensures var es := [Compare(1, 0, 0, true), Sleep] + [Signalled(1), Expire(1)];
            Legal(Start(), es) && Exec(Start(), es).failed
  {
    var s := Slept(true).(table := Table(map[0 := []], {}), arrived := map[0 := []]);
    assert Dropped(map[0 := [1]], 1) == map[0 := []];
    assert Interrupted(Slept(true), 1).arrived == map[0 := []];
    Then(s, Expire(1), s.(failed := true), []);
    Then(Slept(true), Signalled(1), s, [Expire(1)]);
    GoesToSleep(true, [Signalled(1), Expire(1)]);
  }
}
