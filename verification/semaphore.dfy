/**
 The kernel's counting semaphore (`value`, `wakeup` and the wait queue of its
 condition variable) under any number of threads, any interleaving of its
 critical sections, spurious wakeups and killed waiters.

 One step is one critical section of `sem_lock`, except that `sema_signal` is three:
 `cond_signal` tests the wait queue and removes from it under two separate holds of
 the queue's own lock, and looks at the removed thread's state under that thread's lock.
 A spurious wakeup, which does not take `sem_lock`, can come between them. `cond_wait`
 releases `sem_lock` in the middle of `sema_wait`, so a wait is an `Enter` section
 followed by zero or more `Resume` sections.
 */
module Semaphores {
  import opened Common

  type Tid = nat

  /** The fields of the source's `struct semaphore` that `sem_lock` protects. */
  datatype Fields = Fields(value: int, wakeup: int, queue: seq<Tid>)

  /** `sema_wait` up to its return (true) or to the release inside `cond_wait` (false). */
  function Enter(m: Fields, t: Tid): (Fields, bool) {
    if m.value - 1 < 0 then
      (Fields(m.value - 1, m.wakeup, m.queue + [t]), false)
    else
      (m.(value := m.value - 1), true)
  }

  /** `sema_wait` from reacquiring the lock after a wakeup to the next sleep or the return. */
  function Resume(m: Fields, t: Tid): (Fields, bool) {
    if m.wakeup == 0 then (m.(queue := m.queue + [t]), false)
    else (m.(wakeup := m.wakeup - 1), true)
  }

  /** `sema_signal` up to the emptiness test in `cond_signal`; whether a waiter is to be taken. */
  function Post(m: Fields): (Fields, bool) {
    if m.value + 1 <= 0 then (Fields(m.value + 1, m.wakeup + 1, m.queue), m.queue != [])
    else (m.(value := m.value + 1), false)
  }

  /** `Queue_provide_atomic`; None is the null pointer that `cond_signal` goes on to dereference. */
  function Provide(m: Fields): (Fields, Option<Tid>) {
    if m.queue == [] then (m, None) else (m.(queue := m.queue[1..]), Some(m.queue[0]))
  }

  class Semaphore {
    var value: int
    var wakeup: int
    var queue: seq<Tid>

    ghost function View(): (m: Fields)
      reads this
    {
      Fields(value, wakeup, queue)
    }

    constructor (initial: int)
      ensures View() == Fields(initial, 0, [])
    {
      value, wakeup, queue := initial, 0, [];
    }

    /** The tail of `cond_wait` under the mutex: the caller goes to the back of the queue. */
    method CondWait(t: Tid)
      modifies this`queue
      ensures queue == old(queue) + [t]
    {
      queue := queue + [t];
    }

    /** The caller returns exactly if the value was positive; otherwise it sleeps behind all others. */
    method WaitEnter(t: Tid) returns (done: bool)
      modifies this
      ensures value == old(value) - 1 && wakeup == old(wakeup) && (done <==> old(value) > 0)
      ensures queue == if done then old(queue) else old(queue) + [t]
      ensures (View(), done) == Enter(old(View()), t)
    {
      value := value - 1;
      done := true;
      if value < 0 {
        CondWait(t);
        done := false;
      }
    }

    /** A waiter that runs again returns exactly if there is a wakeup to use up. */
    method WaitResume(t: Tid) returns (done: bool)
      modifies this
      ensures value == old(value) && (done <==> old(wakeup) != 0)
      ensures wakeup == old(wakeup) - (if done then 1 else 0)
      ensures queue == if done then old(queue) else old(queue) + [t]
      ensures (View(), done) == Resume(old(View()), t)
    {
      if wakeup == 0 {
        CondWait(t);
        done := false;
      } else {
        wakeup := wakeup - 1;
        done := true;
      }
    }

    /** `sema_signal` and `cond_signal` up to the emptiness test. */
    method Signal() returns (taking: bool)
      modifies this
      ensures value == old(value) + 1 && queue == old(queue)
      ensures wakeup == old(wakeup) + (if old(value) < 0 then 1 else 0)
      ensures taking <==> old(value) < 0 && old(queue) != []
      ensures (View(), taking) == Post(old(View()))
    {
      taking := false;
      value := value + 1;
      if value <= 0 {
        wakeup := wakeup + 1;
        taking := queue != [];
      }
    }

    /** The removal in `cond_signal`: nobody exactly if nobody waits, and otherwise whoever waits longest. */
    method TakeWaiter() returns (t: Option<Tid>)
      modifies this`queue
      ensures t == None <==> old(queue) == []
      ensures t.Some? ==> [t.value] + queue == old(queue)
      ensures t == None ==> queue == []
      ensures (View(), t) == Provide(old(View()))
    {
      t := None;
      if queue != [] {
        t, queue := Some(queue[0]), queue[1..];
      }
    }
  }

  // ------------------------------------------------------------------ runs

  /**
   How far a signaller that holds the lock has come: its test found a sleeper, or it has
   removed thread `t`, which is still asleep unless something else has woken it since.
   */
  datatype Signaller = Nobody | Tested | Removed(t: Tid, asleep: bool)

  /**
   A semaphore with its users. `crashed`: the removal found nobody, or the removed thread
   did not sleep. `awake` are the threads woken that have not run their `Resume` section
   yet. The last four fields are history: waiters that exited inside `cond_wait`, waits
   that returned, signals, and the threads whose wait returned and that have not signalled
   since.
   */
  datatype State = State(sem: Fields, signaller: Signaller, crashed: bool, awake: set<Tid>,
                         killed: nat, completed: nat, signals: nat, holders: multiset<Tid>)

  datatype Event =
    | Wait(t: Tid)      // a thread calls sema_wait
    | Wakeup(t: Tid)    // an awake waiter reacquires the lock
    | Signal(t: Tid)    // a thread calls sema_signal
    | Remove            // and removes the oldest waiter
    | Check             // and wakes it if it sleeps
    | Spurious(t: Tid)  // a sleeper is woken for another reason, for example by a POSIX signal
    | Kill(t: Tid)      // an awake waiter finds itself killed and exits inside cond_wait

  ghost function Init(initial: nat): State {
    State(Fields(initial, 0, []), Nobody, false, {}, 0, 0, 0, multiset{})
  }

  /** Removed by a signaller and not woken yet. */
  ghost predicate Taken(s: State, t: Tid) { s.signaller == Removed(t, true) }

  ghost predicate Running(s: State, t: Tid) { t !in s.sem.queue && t !in s.awake }

  ghost predicate Enabled(s: State, e: Event) {
    !s.crashed
    && match e
       case Wait(t) => s.signaller == Nobody && Running(s, t)
       case Wakeup(t) => s.signaller == Nobody && t in s.awake
       case Signal(t) => s.signaller == Nobody && Running(s, t)
       case Remove => s.signaller == Tested
       case Check => s.signaller.Removed?
       case Spurious(t) => t in s.sem.queue || Taken(s, t)
       case Kill(t) => t in s.awake
  }

  ghost function Returned(s: State, t: Tid, done: bool): State {
    if done then s.(completed := s.completed + 1, holders := s.holders + multiset{t}) else s
  }

  ghost function Apply(s: State, e: Event): State
    requires Enabled(s, e)
  {
    match e
    case Wait(t) =>
      var (m, done) := Enter(s.sem, t);
      Returned(s.(sem := m), t, done)
    case Wakeup(t) =>
      var (m, done) := Resume(s.sem, t);
      Returned(s.(sem := m, awake := s.awake - {t}), t, done)
    case Signal(t) =>
      var (m, taking) := Post(s.sem);
      s.(sem := m, signaller := if taking then Tested else Nobody, signals := s.signals + 1,
         holders := s.holders - multiset{t})
    case Remove =>
      var (m, t) := Provide(s.sem);
      if t == None then s.(signaller := Nobody, crashed := true)
      else s.(sem := m, signaller := Removed(t.value, true))
    case Check =>
      if s.signaller.asleep then s.(signaller := Nobody, awake := s.awake + {s.signaller.t})
      else s.(signaller := Nobody, crashed := true)
    case Spurious(t) =>
      if Taken(s, t) then s.(signaller := Removed(t, false), awake := s.awake + {t})
      else s.(sem := s.sem.(queue := Without(s.sem.queue, t)), awake := s.awake + {t})
    case Kill(t) =>
      s.(awake := s.awake - {t}, killed := s.killed + 1)
  }

  ghost predicate Legal(s: State, es: seq<Event>)
    decreases |es|
  {
    es == [] || (Enabled(s, es[0]) && Legal(Apply(s, es[0]), es[1..]))
  }

  ghost function Exec(s: State, es: seq<Event>): State
    requires Legal(s, es)
    decreases |es|
  {
    if es == [] then s else Exec(Apply(s, es[0]), es[1..])
  }

  ghost function Unmet(s: State): nat {
    if s.sem.value < 0 then -s.sem.value else 0
  }

  /** The permits an abstract counting semaphore would hold in this state. */
  ghost function Permits(m: Fields): int {
    (if m.value > 0 then m.value else 0) + m.wakeup
  }

  ghost function Sleepers(s: State): nat {
    |s.sem.queue| + (if s.signaller.Removed? && s.signaller.asleep then 1 else 0)
  }

  /** A signaller still has to wake somebody. */
  ghost predicate Coming(s: State) { s.signaller == Tested || (s.signaller.Removed? && s.signaller.asleep) }

  ghost predicate Inv(s: State, initial: nat) {
    && 0 <= s.sem.wakeup
    && NoDup(s.sem.queue)
    && (forall t :: t in s.sem.queue || Taken(s, t) ==> t !in s.awake)
    && (forall t :: Taken(s, t) ==> t !in s.sem.queue)
    // threads in the slow path, the dead ones included, are the unmet requests plus the wakeups granted
    && Sleepers(s) + |s.awake| + s.killed == Unmet(s) + s.sem.wakeup
    && s.sem.wakeup <= |s.awake| + s.killed + (if Coming(s) then 1 else 0)
    && s.completed + Permits(s.sem) == initial + s.signals
  }

  lemma RemoveKeepsInv(s: State, initial: nat)
    requires Inv(s, initial) && Enabled(s, Remove)
    ensures Inv(Apply(s, Remove), initial)
  {
    var q := s.sem.queue;
    if q != [] {
      assert forall t :: t in q[1..] ==> t in q && t != q[0];
    }
  }

  lemma CheckKeepsInv(s: State, initial: nat)
    requires Inv(s, initial) && Enabled(s, Check)
    ensures Inv(Apply(s, Check), initial)
  {
    if s.signaller.asleep {
      assert Taken(s, s.signaller.t);
      assert |s.awake + {s.signaller.t}| == |s.awake| + 1;
    }
  }

  lemma WakeupKeepsInv(s: State, t: Tid, initial: nat)
    requires Inv(s, initial) && Enabled(s, Wakeup(t))
    ensures Inv(Apply(s, Wakeup(t)), initial)
  {
    assert |s.awake - {t}| == |s.awake| - 1;
  }

  lemma SpuriousKeepsInv(s: State, t: Tid, initial: nat)
    requires Inv(s, initial) && Enabled(s, Spurious(t))
    ensures Inv(Apply(s, Spurious(t)), initial)
  {
    assert |s.awake + {t}| == |s.awake| + 1;
  }

  lemma CallKeepsInv(s: State, e: Event, initial: nat)
    requires Inv(s, initial) && Enabled(s, e) && (e.Wait? || e.Signal?)
    ensures Inv(Apply(s, e), initial)
  {
  }

  lemma StepKeepsInv(s: State, e: Event, initial: nat)
    requires Inv(s, initial) && Enabled(s, e)
    ensures Inv(Apply(s, e), initial)
  {
    match e
    case Wait(t) =>
      CallKeepsInv(s, e, initial);
      hide Inv, Apply;
    case Wakeup(t) =>
      WakeupKeepsInv(s, t, initial);
      hide Inv, Apply;
    case Signal(t) =>
      CallKeepsInv(s, e, initial);
      hide Inv, Apply;
    case Remove =>
      RemoveKeepsInv(s, initial);
      hide Inv, Apply;
    case Check =>
      CheckKeepsInv(s, initial);
      hide Inv, Apply;
    case Spurious(t) =>
      SpuriousKeepsInv(s, t, initial);
      hide Inv, Apply;
    case Kill(t) =>
      assert |s.awake - {t}| == |s.awake| - 1;
  }

  /** Every reachable state, over every interleaving, satisfies the counting invariant. */
  lemma {:induction false} RunKeepsInv(s: State, es: seq<Event>, initial: nat)
    requires Inv(s, initial) && Legal(s, es)
    ensures Inv(Exec(s, es), initial)
    decreases |es|
  {
    if es != [] {
      StepKeepsInv(s, es[0], initial);
      RunKeepsInv(Apply(s, es[0]), es[1..], initial);
    }
  }

  // ------------------------------------------------------- main theorems

  /**
   Completed waits never outnumber the initial value plus the signals, and the two
   differ by exactly the permits still in the semaphore, whatever is woken or killed.
   */
  lemma {:induction false} CompletedWaitsAreBounded(initial: nat, es: seq<Event>)
    requires Legal(Init(initial), es)
    ensures var s := Exec(Init(initial), es);
            && s.completed <= initial + s.signals
            && s.completed + Permits(s.sem) == initial + s.signals
  {
    RunKeepsInv(Init(initial), es, initial);
  }

  /**
   No wakeup is lost while no waiter has been killed: granted wakeups never exceed the
   threads already awake to collect them, plus the one a signaller is about to wake;
   with no signaller in between, a thread sleeps only when the value is negative, and
   when nobody is awake the sleepers are exactly the unmet requests and no permit is left.
   */
  lemma {:induction false} NoWakeupIsLost(initial: nat, es: seq<Event>)
    requires Legal(Init(initial), es)
    ensures var s := Exec(Init(initial), es);
            s.killed == 0 ==>
              && s.sem.wakeup <= |s.awake| + (if Coming(s) then 1 else 0)
              && (s.sem.queue != [] && s.signaller == Nobody ==> s.sem.value < 0 && Permits(s.sem) <= |s.awake|)
              && (s.awake == {} && s.sem.queue != [] && s.signaller == Nobody ==>
                    Permits(s.sem) == 0 && |s.sem.queue| == -s.sem.value)
  {
    RunKeepsInv(Init(initial), es, initial);
  }

  /** Only threads whose wait returned signal. */
  ghost predicate Disciplined(s: State, es: seq<Event>)
    requires Legal(s, es)
    decreases |es|
  {
    es == [] || ((es[0].Signal? ==> es[0].t in s.holders) && Disciplined(Apply(s, es[0]), es[1..]))
  }

  lemma {:induction false} HoldersAreCounted(s: State, es: seq<Event>)
    requires Legal(s, es) && Disciplined(s, es) && |s.holders| + s.signals == s.completed
    ensures var s' := Exec(s, es); |s'.holders| + s'.signals == s'.completed
    decreases |es|
  {
    if es != [] {
      HoldersAreCounted(Apply(s, es[0]), es[1..]);
    }
  }

  /**
   With an initial value of one, and signals only by threads whose wait returned, at
   most one thread is between its wait and its signal.
   */
  lemma {:induction false} BinarySemaphoreExcludes(es: seq<Event>)
    requires Legal(Init(1), es) && Disciplined(Init(1), es)
    ensures |Exec(Init(1), es).holders| <= 1
  {
    RunKeepsInv(Init(1), es, 1);
    HoldersAreCounted(Init(1), es);
  }

  /**
   Refinement: through `Permits`, every step of the two-counter protocol is a step
   of the plain counting semaphore. A wait returns exactly when it takes a permit,
   and it never takes one that is not there.
   */
  lemma RefinesCountingSemaphore(s: State, e: Event, initial: nat)
    requires Inv(s, initial) && Enabled(s, e)
    ensures var s' := Apply(s, e);
            match e
            case Signal(_) => Permits(s'.sem) == Permits(s.sem) + 1 && s'.completed == s.completed
            case Wait(t) =>
              && (s'.completed == s.completed + 1 <==> s.sem.value > 0)
              && Permits(s.sem) - Permits(s'.sem) == s'.completed - s.completed <= Permits(s.sem)
              && (s'.completed != s.completed <==> t !in s'.sem.queue)
            case Wakeup(t) =>
              && (s'.completed == s.completed + 1 <==> s.sem.wakeup > 0)
              && Permits(s.sem) - Permits(s'.sem) == s'.completed - s.completed <= Permits(s.sem)
              && (s'.completed != s.completed <==> t !in s'.sem.queue)
            case _ => Permits(s'.sem) == Permits(s.sem) && s'.completed == s.completed
  {
    StepKeepsInv(s, e, initial);
  }

  /** The threads that are awake can always collect every wakeup granted so far, in any order. */
  lemma {:induction false} GrantedWakeupsAreCollected(s: State, initial: nat, order: seq<Tid>)
    requires Inv(s, initial) && s.signaller == Nobody && !s.crashed
    requires NoDup(order) && |order| <= s.sem.wakeup
    requires forall t :: t in order ==> t in s.awake
    ensures var es := seq(|order|, i requires 0 <= i < |order| => Wakeup(order[i]));
            && Legal(s, es)
            && Exec(s, es).completed == s.completed + |order|
            && Exec(s, es).sem == s.sem.(wakeup := s.sem.wakeup - |order|)
    decreases |order|
  {
    var es := seq(|order|, i requires 0 <= i < |order| => Wakeup(order[i]));
    if order != [] {
      var s' := Apply(s, es[0]);
      StepKeepsInv(s, es[0], initial);
      assert forall t :: t in order[1..] ==> t in order && t != order[0];
      GrantedWakeupsAreCollected(s', initial, order[1..]);
      assert es[1..] == seq(|order| - 1, i requires 0 <= i < |order| - 1 => Wakeup(order[1..][i]));
    }
  }

  // ---------------------------------------------------- order of the sleepers

  ghost predicate Before(q: seq<Tid>, t: Tid, u: Tid) {
    exists i, j :: 0 <= i < j < |q| && q[i] == t && q[j] == u
  }

  /**
   Sleepers are served in the order in which they went to sleep: no step lets one pass
   another, and a signal takes nobody while an earlier sleeper is in the queue.
   */
  lemma SleepersKeepTheirOrder(s: State, e: Event, t: Tid, u: Tid, initial: nat)
    requires Inv(s, initial) && Enabled(s, e) && Before(s.sem.queue, t, u)
    ensures var q' := Apply(s, e).sem.queue;
            && (t in q' && u in q' ==> Before(q', t, u))
            && (e.Remove? ==> u in q')
  {
    match e
    case Wait(x) => BeforeAppend(s.sem.queue, t, u, x);
    case Wakeup(x) => BeforeAppend(s.sem.queue, t, u, x);
    case Remove => BeforeTail(s.sem.queue, t, u);
    case Spurious(x) =>
      if x in s.sem.queue {
        BeforeWithout(s.sem.queue, t, u, x);
      }
    case _ =>
  }

  lemma BeforeAppend(q: seq<Tid>, t: Tid, u: Tid, x: Tid)
    requires Before(q, t, u)
    ensures Before(q + [x], t, u)
  {
    var i, j :| 0 <= i < j < |q| && q[i] == t && q[j] == u;
    assert (q + [x])[i] == t && (q + [x])[j] == u;
  }

  lemma BeforeTail(q: seq<Tid>, t: Tid, u: Tid)
    requires Before(q, t, u) && NoDup(q)
    ensures u in q[1..] && (t in q[1..] ==> Before(q[1..], t, u))
  {
    var i, j :| 0 <= i < j < |q| && q[i] == t && q[j] == u;
    assert q[1..][j - 1] == u;
    assert i > 0 ==> q[1..][i - 1] == t;
  }

  lemma {:induction false} BeforeWithout(q: seq<Tid>, t: Tid, u: Tid, x: Tid)
    requires Before(q, t, u) && NoDup(q) && x in q
    ensures t in Without(q, x) && u in Without(q, x) ==> Before(Without(q, x), t, u)
  {
    var i, j :| 0 <= i < j < |q| && q[i] == t && q[j] == u;
    var p :| 0 <= p < |q| && q[p] == x;
    WithoutShape(q, p);
    hide Without;
    if x != t && x != u {
      BeforeCut(q, p, i, j);
    } else {
      CutLoses(q, p);
    }
  }

  lemma BeforeCut(q: seq<Tid>, p: nat, i: nat, j: nat)
    requires i < j < |q| && p < |q| && p != i && p != j
    ensures Before(q[..p] + q[p + 1..], q[i], q[j])
  {
    var q' := q[..p] + q[p + 1..];
    var i', j' := if i < p then i else i - 1, if j < p then j else j - 1;
    assert q'[i'] == q[i] && q'[j'] == q[j];
  }

  lemma CutLoses(q: seq<Tid>, p: nat)
    requires p < |q| && NoDup(q)
    ensures q[p] !in q[..p] + q[p + 1..]
  {
  }

  // ---------------------------------------------- signals and spurious wakeups

  /** How many spurious wakeups a run holds. */
  ghost function Spurs(es: seq<Event>): nat {
    if es == [] then 0 else (if es[0].Spurious? then 1 else 0) + Spurs(es[1..])
  }

  ghost predicate WithoutLock(es: seq<Event>) {
    forall e :: e in es ==> e.Spurious? || e.Kill?
  }

  /** While a signaller is at work only its own next step and such steps are possible. */
  lemma OnlyTheseInBetween(s: State, e: Event)
    requires s.signaller != Nobody && Enabled(s, e) && e != Remove && e != Check
    ensures e.Spurious? || e.Kill?
  {
  }

  lemma {:induction false} SpursShorten(s: State, es: seq<Event>, initial: nat)
    requires Inv(s, initial) && !s.crashed && s.signaller == Tested && Legal(s, es) && Remove !in es
    ensures var s' := Exec(s, es);
            WithoutLock(es) && s'.signaller == Tested && !s'.crashed && |s'.sem.queue| + Spurs(es) == |s.sem.queue|
    decreases |es|
  {
    if es != [] {
      StepKeepsInv(s, es[0], initial);
      OnlyTheseInBetween(s, es[0]);
      assert es == [es[0]] + es[1..];
      SpursShorten(Apply(s, es[0]), es[1..], initial);
    }
  }

  lemma TakenStep(s: State, e: Event, t: Tid, initial: nat)
    requires Inv(s, initial) && Enabled(s, e) && e != Check
    requires s.signaller.Removed? && s.signaller.t == t && (s.signaller.asleep || t !in s.sem.queue)
    ensures var s' := Apply(s, e);
            && (e.Spurious? || e.Kill?) && !s'.crashed && t !in s'.sem.queue
            && s'.signaller == Removed(t, s.signaller.asleep && e != Spurious(t))
  {
    assert Taken(s, t) ==> t !in s.sem.queue;
  }

  lemma {:induction false} TakenSleepsUntilWoken(s: State, es: seq<Event>, t: Tid, initial: nat)
    requires Inv(s, initial) && !s.crashed && Legal(s, es) && Check !in es
    requires s.signaller.Removed? && s.signaller.t == t && (s.signaller.asleep || t !in s.sem.queue)
    ensures var s' := Exec(s, es);
            && WithoutLock(es) && !s'.crashed
            && s'.signaller == Removed(t, s.signaller.asleep && Spurious(t) !in es)
    decreases |es|
  {
    if es != [] {
      var e, rest := es[0], es[1..];
      assert es == [e] + rest;
      StepKeepsInv(s, e, initial);
      TakenStep(s, e, t, initial);
      hide Inv, Apply, Enabled;
      TakenSleepsUntilWoken(Apply(s, e), rest, t, initial);
    }
  }

  /**
   When a signal that found waiters faults, whatever else happens meanwhile (and only
   spurious wakeups and exits of killed waiters can): its removal does exactly when as many
   spurious wakeups as there were waiters fall between test and removal, and its check does
   exactly when the removed thread is woken spuriously between removal and check.
   */
  lemma {:induction false} SignalFaultsIff(s: State, t: Tid, es1: seq<Event>, es2: seq<Event>, initial: nat)
    requires Inv(s, initial) && Enabled(s, Signal(t)) && Apply(s, Signal(t)).signaller == Tested
    requires Legal(Apply(s, Signal(t)), es1) && Remove !in es1
    ensures var s1 := Exec(Apply(s, Signal(t)), es1);
            Enabled(s1, Remove) && (Apply(s1, Remove).crashed <==> Spurs(es1) == |s.sem.queue|)
    ensures var s2 := Apply(Exec(Apply(s, Signal(t)), es1), Remove);
            !s2.crashed && Legal(s2, es2) && Check !in es2 ==>
              && WithoutLock(es2) && s2.signaller.Removed? && Enabled(Exec(s2, es2), Check)
              && (Apply(Exec(s2, es2), Check).crashed <==> Spurious(s2.signaller.t) in es2)
    ensures WithoutLock(es1)
  {
    StepKeepsInv(s, Signal(t), initial);
    SpursShorten(Apply(s, Signal(t)), es1, initial);
    RunKeepsInv(Apply(s, Signal(t)), es1, initial);
    var s1 := Exec(Apply(s, Signal(t)), es1);
    StepKeepsInv(s1, Remove, initial);
    var s2 := Apply(s1, Remove);
    if !s2.crashed && Legal(s2, es2) && Check !in es2 {
      TakenSleepsUntilWoken(s2, es2, s2.signaller.t, initial);
    }
  }

  /**
   Two runs that fault: the one sleeper is woken spuriously after the test has seen it, and
   after it has been removed.
   */
  lemma {:induction false} SignalCanFault()
    ensures var es := [Wait(1), Signal(2), Spurious(1), Remove];
            Legal(Init(0), es) && Exec(Init(0), es).crashed
    ensures var es := [Wait(1), Signal(2), Remove, Spurious(1), Check];
            Legal(Init(0), es) && Exec(Init(0), es).crashed
  {
    var s1 := State(Fields(-1, 0, [1]), Nobody, false, {}, 0, 0, 0, multiset{});
    var s2 := State(Fields(0, 1, [1]), Tested, false, {}, 0, 0, 1, multiset{});
    var s3 := State(Fields(0, 1, []), Tested, false, {1}, 0, 0, 1, multiset{});
    var r3 := State(Fields(0, 1, []), Removed(1, true), false, {}, 0, 0, 1, multiset{});
    var r4 := State(Fields(0, 1, []), Removed(1, false), false, {1}, 0, 0, 1, multiset{});
    Then(s3, Remove, s3.(signaller := Nobody, crashed := true), []);
    Then(s2, Spurious(1), s3, [Remove]);
    Then(s1, Signal(2), s2, [Spurious(1), Remove]);
    Then(Init(0), Wait(1), s1, [Signal(2), Spurious(1), Remove]);
    Then(r4, Check, r4.(signaller := Nobody, crashed := true), []);
    Then(r3, Spurious(1), r4, [Check]);
    Then(s2, Remove, r3, [Spurious(1), Check]);
    Then(s1, Signal(2), s2, [Remove, Spurious(1), Check]);
    Then(Init(0), Wait(1), s1, [Signal(2), Remove, Spurious(1), Check]);
  }

  /** A signal in progress will fault unless somebody joins the queue, which nobody can. */
  ghost predicate Doomed(s: State) {
    (s.signaller == Tested && s.sem.queue == []) || (s.signaller.Removed? && !s.signaller.asleep)
  }

  lemma {:induction false} NoSpursNoFault(s: State, es: seq<Event>)
    requires Legal(s, es) && Spurs(es) == 0 && !s.crashed && !Doomed(s)
    ensures !Exec(s, es).crashed
    decreases |es|
  {
    if es != [] {
      NoSpursNoFault(Apply(s, es[0]), es[1..]);
    }
  }

  /** Without spurious wakeups no signal ever faults. */
  lemma {:induction false} QuietRunsNeverFault(initial: nat, es: seq<Event>)
    requires Legal(Init(initial), es) && Spurs(es) == 0
    ensures !Exec(Init(initial), es).crashed
  {
    NoSpursNoFault(Init(initial), es);
  }

  // ---------------------------------------------------------- killed waiters

  /** A thread sleeps beside a permit, and nobody is awake or about to wake it. */
  ghost predicate Stranded(s: State) {
    s.signaller == Nobody && !s.crashed && s.sem.queue != [] && s.awake == {} && Permits(s.sem) > 0
  }

  ghost predicate KillFree(es: seq<Event>) { forall i :: 0 <= i < |es| ==> !es[i].Kill? }

  ghost predicate Ordinary(es: seq<Event>) { forall i :: 0 <= i < |es| ==> !es[i].Kill? && !es[i].Spurious? }

  lemma FreshThread(s: set<Tid>) returns (t: Tid)
    ensures t !in s
  {
    var n := |s| + 1;
    if Below(n) <= s {
      SubsetSize(Below(n), s);
    }
    t :| t in Below(n) && t !in s;
  }

  lemma {:induction false} Then(s: State, e: Event, s': State, rest: seq<Event>)
    requires Enabled(s, e) && Apply(s, e) == s' && Legal(s', rest)
    ensures Legal(s, [e] + rest) && Exec(s, [e] + rest) == Exec(s', rest)
  {
    assert ([e] + rest)[1..] == rest;
  }

  lemma {:induction false} ThenRun(s: State, e: Event, rest: seq<Event>)
    requires Enabled(s, e) && Legal(Apply(s, e), rest) && Ordinary(rest) && !e.Kill? && !e.Spurious?
    ensures Legal(s, [e] + rest) && Ordinary([e] + rest)
    ensures Exec(s, [e] + rest) == Exec(Apply(s, e), rest)
  {
    assert ([e] + rest)[1..] == rest;
  }

  /** The one sleeper has been removed; it is woken, exits, and another thread comes to wait. */
  lemma {:induction false} RemovedWaiterKilled(s: State)
    requires s == State(Fields(0, 1, []), Removed(1, true), false, {}, 0, 0, 1, multiset{})
    ensures var es := [Check, Kill(1), Wait(2)]; Legal(s, es) && Stranded(Exec(s, es))
  {
    var s1 := State(Fields(0, 1, []), Nobody, false, {1}, 0, 0, 1, multiset{});
    var s2 := State(Fields(0, 1, []), Nobody, false, {}, 1, 0, 1, multiset{});
    var s3 := State(Fields(-1, 1, [2]), Nobody, false, {}, 1, 0, 1, multiset{});
    Then(s2, Wait(2), s3, []);
    Then(s1, Kill(1), s2, [Wait(2)]);
    Then(s, Check, s1, [Kill(1), Wait(2)]);
  }

  lemma {:induction false} GrantedWaiterKilled()
    ensures var es := [Wait(1), Signal(3), Remove, Check, Kill(1), Wait(2)];
            Legal(Init(0), es) && Stranded(Exec(Init(0), es))
  {
    var s1 := State(Fields(-1, 0, [1]), Nobody, false, {}, 0, 0, 0, multiset{});
    var s2 := State(Fields(0, 1, [1]), Tested, false, {}, 0, 0, 1, multiset{});
    var s3 := State(Fields(0, 1, []), Removed(1, true), false, {}, 0, 0, 1, multiset{});
    RemovedWaiterKilled(s3);
    Then(s2, Remove, s3, [Check, Kill(1), Wait(2)]);
    Then(s1, Signal(3), s2, [Remove, Check, Kill(1), Wait(2)]);
    Then(Init(0), Wait(1), s1, [Signal(3), Remove, Check, Kill(1), Wait(2)]);
  }

  lemma {:induction false} WokenWaiterKilled()
    ensures var es := [Wait(1), Spurious(1), Kill(1), Signal(3), Wait(2)];
            Legal(Init(0), es) && Stranded(Exec(Init(0), es))
  {
    var s1 := State(Fields(-1, 0, [1]), Nobody, false, {}, 0, 0, 0, multiset{});
    var s2 := State(Fields(-1, 0, []), Nobody, false, {1}, 0, 0, 0, multiset{});
    var s3 := State(Fields(-1, 0, []), Nobody, false, {}, 1, 0, 0, multiset{});
    var s4 := State(Fields(0, 1, []), Nobody, false, {}, 1, 0, 1, multiset{});
    var s5 := State(Fields(-1, 1, [2]), Nobody, false, {}, 1, 0, 1, multiset{});
    Then(s4, Wait(2), s5, []);
    Then(s3, Signal(3), s4, [Wait(2)]);
    Then(s2, Kill(1), s3, [Signal(3), Wait(2)]);
    Then(s1, Spurious(1), s2, [Kill(1), Signal(3), Wait(2)]);
    Then(Init(0), Wait(1), s1, [Spurious(1), Kill(1), Signal(3), Wait(2)]);
  }

  /**
   Two short runs that lose a permit: the killed waiter had been granted a wakeup in the
   first, and had been woken spuriously in the second.
   */
  lemma {:induction false} KilledWaiterStrandsPermit()
    ensures var es := [Wait(1), Signal(3), Remove, Check, Kill(1), Wait(2)];
            Legal(Init(0), es) && Stranded(Exec(Init(0), es))
    ensures var es := [Wait(1), Spurious(1), Kill(1), Signal(3), Wait(2)];
            Legal(Init(0), es) && Stranded(Exec(Init(0), es))
  {
    hide *;
    GrantedWaiterKilled();
    WokenWaiterKilled();
  }

  ghost function Distance(s: State): nat { if s.sem.value < 0 then -s.sem.value else s.sem.value }

  ghost function StepsLeft(p: Signaller): nat {
    match p
    case Nobody => 0
    case Tested => 2
    case Removed(_, _) => 1
  }

  ghost predicate Closer(s': State, s: State) {
    || Distance(s') < Distance(s)
    || (Distance(s') == Distance(s) && StepsLeft(s'.signaller) < StepsLeft(s.signaller))
    || (Distance(s') == Distance(s) && s'.signaller == s.signaller && |s'.awake| < |s.awake|)
  }

  ghost predicate Losable(s: State) { s.killed > 0 && !s.crashed && !Doomed(s) }

  lemma SignallerIsCloser(s: State, e: Event)
    requires Losable(s) && Enabled(s, e) && (e == Remove || e == Check)
    ensures var s' := Apply(s, e); Losable(s') && Closer(s', s)
  {
  }

  lemma SignalIsCloser(s: State, t: Tid)
    requires Losable(s) && Enabled(s, Signal(t)) && s.sem.value < 0
    ensures var s' := Apply(s, Signal(t)); Losable(s') && Closer(s', s)
  {
  }

  lemma WaitIsCloser(s: State, t: Tid, initial: nat)
    requires Inv(s, initial) && Losable(s) && Enabled(s, Wait(t)) && s.sem.value >= 0
    requires s.sem.value > 0 || s.awake == {}
    ensures var s' := Apply(s, Wait(t)); Stranded(s') || (Losable(s') && Closer(s', s))
  {
  }

  lemma WakeupIsCloser(s: State, t: Tid, initial: nat)
    requires Inv(s, initial) && Losable(s) && Enabled(s, Wakeup(t))
    ensures var s' := Apply(s, Wakeup(t)); Losable(s') && Closer(s', s)
  {
    assert |s.awake - {t}| == |s.awake| - 1;
  }

  /** The next step towards a stranded permit: bring the value to zero, let the awake collect, then wait. */
  lemma NextTowardsStranding(s: State, initial: nat) returns (e: Event)
    requires Inv(s, initial) && Losable(s)
    ensures Enabled(s, e) && !e.Kill? && !e.Spurious?
    ensures var s' := Apply(s, e); Stranded(s') || (Losable(s') && Closer(s', s))
  {
    assert !s.crashed by { assert Losable(s); }
    hide Inv, Closer, Losable, Stranded, Apply;
    if s.signaller == Tested {
      e := Remove;
      SignallerIsCloser(s, e);
    } else if s.signaller.Removed? {
      e := Check;
      SignallerIsCloser(s, e);
    } else if s.sem.value == 0 && s.awake != {} {
      var u :| u in s.awake;
      e := Wakeup(u);
      WakeupIsCloser(s, u, initial);
    } else {
      var t := FreshThread(Elements(s.sem.queue) + s.awake);
      if s.sem.value < 0 {
        e := Signal(t);
        SignalIsCloser(s, t);
      } else {
        e := Wait(t);
        WaitIsCloser(s, t, initial);
      }
    }
  }

  /** After a kill, an ordinary run of waits and signals strands a permit. */
  lemma {:induction false} KillStrands(s: State, initial: nat) returns (es: seq<Event>)
    requires Inv(s, initial) && Losable(s)
    ensures Legal(s, es) && Ordinary(es) && Stranded(Exec(s, es))
    decreases Distance(s), StepsLeft(s.signaller), |s.awake|
  {
    var e := NextTowardsStranding(s, initial);
    StepKeepsInv(s, e, initial);
    var s' := Apply(s, e);
    if Stranded(s') {
      es := [];
    } else {
      es := KillStrands(s', initial);
    }
    ThenRun(s, e, es);
    es := [e] + es;
  }

  lemma {:induction false} KillFreeRun(s: State, es: seq<Event>)
    requires Legal(s, es) && KillFree(es)
    ensures Exec(s, es).killed == s.killed
    decreases |es|
  {
    if es != [] {
      assert forall i :: 0 <= i < |es[1..]| ==> es[1..][i] == es[i + 1];
      KillFreeRun(Apply(s, es[0]), es[1..]);
    }
  }

  /**
   Exactly when a permit can be lost. From a state of any run in which no signal is about
   to fault, some continuation without further kills leaves a thread asleep beside a permit
   if and only if some waiter has been killed, however long ago and whether or not it
   had been granted a wakeup.
   */
  lemma {:induction false} PermitIsLostIff(initial: nat, es: seq<Event>)
    requires Legal(Init(initial), es)
    requires var s := Exec(Init(initial), es); !s.crashed && !Doomed(s)
    ensures var s := Exec(Init(initial), es);
            (exists more :: Legal(s, more) && KillFree(more) && Stranded(Exec(s, more))) <==> s.killed > 0
  {
    var s := Exec(Init(initial), es);
    RunKeepsInv(Init(initial), es, initial);
    if more :| Legal(s, more) && KillFree(more) && Stranded(Exec(s, more)) {
      KillFreeRun(s, more);
      RunKeepsInv(s, more, initial);
    }
    if s.killed > 0 {
      var more := KillStrands(s, initial);
      assert Legal(s, more) && KillFree(more) && Stranded(Exec(s, more));
    }
  }

  /**
   A stranded thread sleeps on until somebody signals or wakes it for another reason; new
   waiters join it.
   */
  lemma {:induction false} StrandedUntilSignal(s: State, es: seq<Event>, initial: nat)
    requires Inv(s, initial) && Stranded(s) && Legal(s, es)
    requires forall i :: 0 <= i < |es| ==> !es[i].Signal? && !es[i].Spurious?
    ensures Stranded(Exec(s, es)) && s.sem.queue <= Exec(s, es).sem.queue
    decreases |es|
  {
    if es != [] {
      var s' := Apply(s, es[0]);
      StepKeepsInv(s, es[0], initial);
      assert s.sem.queue <= s'.sem.queue;
      assert forall i :: 0 <= i < |es[1..]| ==> es[1..][i] == es[i + 1];
      StrandedUntilSignal(s', es[1..], initial);
    }
  }
}
