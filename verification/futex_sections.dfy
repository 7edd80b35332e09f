/**
 What one whole wake or requeue amounts to, from the start of its loop to the end, when
 stores, signals, timeouts and threads in other calls come between its steps.
 */
module FutexSections {
  import opened Common
  import opened Futexes
  import opened FutexRuns

  /** The threads of q that are not gone. */
  ghost function Kept(q: seq<Tid>, gone: set<Tid>): (r: seq<Tid>)
    ensures forall t :: t in r <==> t in q && t !in gone
    ensures |r| <= |q| && (NoDup(q) ==> NoDup(r))
  {
    if q == [] then []
    else
      assert NoDup(q) ==> NoDup(q[1..]) && q[0] !in q[1..];
      var rest := Kept(q[1..], gone);
      assert NoDup(q) ==> q[0] !in rest;
      if q[0] in gone then rest else [q[0]] + rest
  }

  lemma {:induction false} KeptAll(q: seq<Tid>)
    ensures Kept(q, {}) == q
  {
    if q != [] {
      KeptAll(q[1..]);
    }
  }

  lemma {:induction false} KeptWithout(q: seq<Tid>, gone: set<Tid>, t: Tid)
    ensures Kept(q, gone + {t}) == Without(Kept(q, gone), t)
  {
    if q != [] {
      KeptWithout(q[1..], gone, t);
    }
  }

  lemma {:induction false} WithoutLater(p: seq<Tid>, q: seq<Tid>, t: Tid)
    requires t !in p
    ensures Without(p + q, t) == p + Without(q, t)
  {
    if p != [] {
      assert (p + q)[1..] == p[1..] + q;
      WithoutLater(p[1..], q, t);
    } else {
      assert p + q == q;
    }
  }

  lemma InOnePart(p: seq<Tid>, q: seq<Tid>, t: Tid)
    requires NoDup(p + q) && t in q
    ensures t !in p
  {
    var j :| 0 <= j < |q| && q[j] == t;
    forall i | 0 <= i < |p| ensures p[i] != t {
      assert (p + q)[i] == p[i] && (p + q)[|p| + j] == t;
    }
  }

  // ---------------------------------------------- what a loop has done so far

  /** The waiter that this event takes from the queue of the loop. */
  ghost function Takes(s: State, e: Event): seq<Tid> {
    if e == Step && s.section.Looping? && s.section.at == Remove && Queue(s.table.queues, s.section.a) != []
    then [Queue(s.table.queues, s.section.a)[0]] else []
  }

  /** The waiter that a signal or timeout takes from the queue of address a. */
  ghost function Loses(s: State, e: Event, a: Addr): set<Tid> {
    if (e.Signalled? || e.Expire?) && e.t in Queue(s.table.queues, a) then {e.t} else {}
  }

  ghost function TakenIn(s: State, es: seq<Event>): seq<Tid>
    requires Legal(s, es)
    decreases |es|
  {
    if es == [] then [] else Takes(s, es[0]) + TakenIn(Apply(s, es[0]), es[1..])
  }

  ghost function LostIn(s: State, es: seq<Event>, a: Addr): set<Tid>
    requires Legal(s, es)
    decreases |es|
  {
    if es == [] then {} else Loses(s, es[0], a) + LostIn(Apply(s, es[0]), es[1..], a)
  }

  ghost predicate NoBegin(es: seq<Event>) { forall e :: e in es ==> !e.Begin? }

  ghost predicate Interrupts(es: seq<Event>, t: Tid) { Signalled(t) in es || Expire(t) in es }

  /** What a loop was begun with, `q` being the queue at that time. */
  datatype Request = Request(a: Addr, target: Option<Addr>, nr: int, q: seq<Tid>)

  /**
   The loop of request `r` has taken `p` so far, and signals and timeouts have taken `gone`
   out of its queue.
   */
  ghost predicate Progress(s: State, r: Request, p: seq<Tid>, gone: set<Tid>) {
    && s.section.Looping? && s.section.a == r.a && s.section.target == r.target != Some(r.a)
    && p + Queue(s.table.queues, r.a) == Kept(r.q, gone)
    && |p| + s.section.left - (if s.section.at.Check? || s.section.at.Finish? then 1 else 0) == r.nr
    && (s.section.left >= 0 || p == [])
    && (forall t :: Taken(s, t) ==> t in p)
    && (r.target == None ==> forall t :: t in p ==> t !in s.table.asleep || Taken(s, t))
  }

  lemma InterruptedProgress(s: State, t: Tid, r: Request, p: seq<Tid>, gone: set<Tid>)
    requires Progress(s, r, p, gone) && NoDup(r.q) && !Interrupted(s, t).failed
    ensures var lost := if t in Queue(s.table.queues, r.a) then {t} else {};
            Progress(Interrupted(s, t), r, p, gone + lost)
  {
    InterruptedKeeps(s, t, r, p, gone);
    TakenBySection(s, Interrupted(s, t));
    hide Kept, WithoutLast, Taken, Queue, Dropped, NoDup;
  }

  lemma {:induction false} InterruptedKeeps(s: State, t: Tid, r: Request, p: seq<Tid>, gone: set<Tid>)
    requires p + Queue(s.table.queues, r.a) == Kept(r.q, gone) && NoDup(r.q) && !Interrupted(s, t).failed
    ensures var lost := if t in Queue(s.table.queues, r.a) then {t} else {};
            p + Queue(Interrupted(s, t).table.queues, r.a) == Kept(r.q, gone + lost)
  {
    var w := Queue(s.table.queues, r.a);
    hide WithoutLast;
    if t in w {
      InOnePart(p, w, t);
      KeptWithout(r.q, gone, t);
      WithoutLater(p, w, t);
    } else {
      WithoutAbsent(w, t);
      assert gone + {} == gone;
    }
  }

  lemma RemoveProgress(s: State, r: Request, p: seq<Tid>, gone: set<Tid>)
    requires SectionInv(s) && Progress(s, r, p, gone) && s.section.at == Remove && !RemoveWaiter(s).failed
    ensures Progress(RemoveWaiter(s), r, p + Takes(s, Step), gone)
  {
    hide Kept;
    var w := Queue(s.table.queues, r.a);
    assert p + w == (p + [w[0]]) + w[1..];
  }

  lemma FinishProgress(s: State, t: Tid, r: Request, p: seq<Tid>, gone: set<Tid>)
    requires SectionInv(s) && Progress(s, r, p, gone) && s.section.at == Finish(t) && !FinishWaiter(s, t).failed
    ensures Progress(FinishWaiter(s, t), r, p, gone)
  {
    hide Kept, Pushed, Queue;
    assert Taken(s, t);
    FinishKeepsOthers(s, t, r.a);
  }

  /** The test for a waiter, or the test of its state. */
  lemma LookProgress(s: State, r: Request, p: seq<Tid>, gone: set<Tid>)
    requires Progress(s, r, p, gone) && (s.section.at == Test || s.section.at.Check?) && !StepLoop(s).failed
    ensures Progress(StepLoop(s), r, p, gone)
  {
    hide Kept, Queue;
  }

  lemma StepProgress(s: State, r: Request, p: seq<Tid>, gone: set<Tid>)
    requires Inv(s) && Progress(s, r, p, gone) && Enabled(s, Step)
    requires var s' := Apply(s, Step); !s'.failed && s'.section.Looping?
    ensures Progress(Apply(s, Step), r, p + Takes(s, Step), gone)
  {
    hide Progress, RemoveWaiter, FinishWaiter, TestWaiter, CheckWaiter, EndLoop, SleepInv, FifoInv, Queue;
    assert p + [] == p;
    match s.section.at
    case Remove => RemoveProgress(s, r, p, gone);
    case Finish(t) => FinishProgress(s, t, r, p, gone);
    case End =>
    case _ => LookProgress(s, r, p, gone);
  }

  lemma FinishKeepsOthers(s: State, t: Tid, a: Addr)
    requires s.section.Looping? && s.section.target != Some(a)
    ensures Queue(FinishWaiter(s, t).table.queues, a) == Queue(s.table.queues, a)
  {
    if s.section.target.Some? {
      PushedAt(s.table.queues, s.section.target.value, t, a);
      hide Pushed, Queue;
    }
  }

  /** Events that touch neither the queues nor the loop. */
  lemma OtherProgress(s: State, s': State, r: Request, p: seq<Tid>, gone: set<Tid>)
    requires Progress(s, r, p, gone) && s'.section == s.section && s'.table == s.table
    ensures Progress(s', r, p, gone)
  {
    hide Kept;
  }

  lemma EventProgress(s: State, e: Event, r: Request, p: seq<Tid>, gone: set<Tid>)
    requires Inv(s) && Progress(s, r, p, gone) && NoDup(r.q) && Enabled(s, e) && s.section.Looping?
    requires var s' := Apply(s, e); !s'.failed && s'.section.Looping?
    ensures Progress(Apply(s, e), r, p + Takes(s, e), gone + Loses(s, e, r.a))
  {
    hide Kept, Progress, Inv, NoDup, Interrupted, StepLoop, Dropped, Queue;
    assert gone + {} == gone && p + [] == p;
    match e
    case Step => StepProgress(s, r, p, gone);
    case Signalled(t) => InterruptedProgress(s, t, r, p, gone);
    case Expire(t) =>
      OtherProgress(s, s.(timed := s.timed - {t}), r, p, gone);
      InterruptedProgress(s.(timed := s.timed - {t}), t, r, p, gone);
    case Store(_, _) => OtherProgress(s, Apply(s, e), r, p, gone);
    case Disarm(_) => OtherProgress(s, Apply(s, e), r, p, gone);
    case Doze(_) => OtherProgress(s, Apply(s, e), r, p, gone);
    case Rouse(_) => OtherProgress(s, Apply(s, e), r, p, gone);
    case _ =>
  }

  lemma {:induction false} NoLoopWithoutBegin(s: State, es: seq<Event>)
    requires Legal(s, es) && NoBegin(es) && !s.section.Looping?
    ensures !Exec(s, es).section.Looping?
    decreases |es|
  {
    if es != [] {
      assert es == [es[0]] + es[1..];
      NoLoopWithoutBegin(Apply(s, es[0]), es[1..]);
    }
  }

  lemma {:induction false} StillLooping(s: State, es: seq<Event>)
    requires Legal(s, es) && NoBegin(es) && es != [] && Exec(s, es).section.Looping? && !Exec(s, es).failed
    ensures var s' := Apply(s, es[0]);
            !es[0].Begin? && NoBegin(es[1..]) && s'.section.Looping? && !s'.failed && s.section.Looping?
  {
    assert es == [es[0]] + es[1..];
    hide Apply;
    if !Apply(s, es[0]).section.Looping? {
      NoLoopWithoutBegin(Apply(s, es[0]), es[1..]);
    }
    if !s.section.Looping? {
      NoLoopWithoutBegin(s, es);
    }
  }

  lemma {:induction false} RunProgress(s: State, es: seq<Event>, r: Request, p: seq<Tid>, gone: set<Tid>)
    requires Inv(s) && Progress(s, r, p, gone) && NoDup(r.q)
    requires Legal(s, es) && NoBegin(es) && Exec(s, es).section.Looping? && !Exec(s, es).failed
    ensures Inv(Exec(s, es))
    ensures Progress(Exec(s, es), r, p + TakenIn(s, es), gone + LostIn(s, es, r.a))
    decreases |es|
  {
    hide Inv, Progress, Apply, Enabled, Takes, Loses, NoDup, NoBegin;
    if es == [] {
      assert p + [] == p && gone + {} == gone;
    } else {
      var e, rest := es[0], es[1..];
      var s' := Apply(s, e);
      EventKeepsInv(s, e);
      StillLooping(s, es);
      EventProgress(s, e, r, p, gone);
      RunProgress(s', rest, r, p + Takes(s, e), gone + Loses(s, e, r.a));
      assert (p + Takes(s, e)) + TakenIn(s', rest) == p + TakenIn(s, es);
      assert (gone + Loses(s, e, r.a)) + LostIn(s', rest, r.a) == gone + LostIn(s, es, r.a);
    }
  }

  /** One event of a loop wakes only the waiter taken before, and whom a signal or timeout wakes. */
  lemma WokenByEvent(s: State, e: Event, t: Tid)
    requires Inv(s) && Enabled(s, e) && s.section.Looping?
    requires t in s.table.asleep && t !in Apply(s, e).table.asleep
    ensures Taken(s, t) || e == Signalled(t) || e == Expire(t)
  {
    hide SleepInv, FifoInv, Dropped, Queue, StepLoop;
    if e == Step {
      WokenByStep(s, t);
    }
  }

  lemma WokenByStep(s: State, t: Tid)
    requires s.section.Looping? && t in s.table.asleep && t !in StepLoop(s).table.asleep
    ensures Taken(s, t)
  {
    hide TestWaiter, RemoveWaiter, CheckWaiter, FinishWaiter, EndLoop;
  }

  lemma TakenByEvent(s: State, e: Event, t: Tid)
    requires Enabled(s, e) && s.section.Looping? && Taken(Apply(s, e), t)
    ensures Taken(s, t) || t in Takes(s, e)
  {
    hide Dropped;
  }

  /** Whoever stops sleeping while a wake loops is taken by it or woken by a signal or timeout. */
  lemma {:induction false} WokenByLoopOrInterrupt(s: State, es: seq<Event>, t: Tid)
    requires Inv(s) && Legal(s, es) && NoBegin(es) && Exec(s, es).section.Looping? && !Exec(s, es).failed
    requires t in s.table.asleep && t !in Exec(s, es).table.asleep
    ensures t in TakenIn(s, es) || Taken(s, t) || Interrupts(es, t)
    decreases |es|
  {
    hide Inv, Apply, Enabled, Takes, NoBegin, Taken;
    var e, rest := es[0], es[1..];
    assert es == [e] + rest;
    EventKeepsInv(s, e);
    StillLooping(s, es);
    if t in Apply(s, e).table.asleep {
      WokenByLoopOrInterrupt(Apply(s, e), rest, t);
      if Taken(Apply(s, e), t) {
        TakenByEvent(s, e, t);
      }
    } else {
      WokenByEvent(s, e, t);
    }
  }

  // ------------------------------------------------------------ main theorems

  /** This run takes the loop that `Begin(a, target, nr)` starts in s to its end. */
  ghost predicate WholeLoop(s: State, a: Addr, target: Option<Addr>, nr: int, es: seq<Event>) {
    && Enabled(s, Begin(a, target, nr)) && a in s.table.queues
    && var s1 := Apply(s, Begin(a, target, nr));
       && Legal(s1, es) && NoBegin(es) && !Exec(s1, es).failed
       && Exec(s1, es).section.Looping? && Exec(s1, es).section.at == End
  }

  lemma BeginProgress(s: State, r: Request)
    requires Inv(s) && Enabled(s, Begin(r.a, r.target, r.nr)) && r.a in s.table.queues && r.target != Some(r.a)
    requires r.q == s.table.queues[r.a]
    ensures var s1 := Apply(s, Begin(r.a, r.target, r.nr));
            && NoDup(r.q) && Progress(s1, r, [], {})
            && s1.table.asleep == s.table.asleep && forall t :: !Taken(s1, t)
  {
    hide Kept, IsQueued, FifoInv, SectionInv, Running;
    KeptAll(r.q);
    assert [] + r.q == r.q;
  }

  ghost function RequestFor(s: State, a: Addr, target: Option<Addr>, nr: int): Request {
    Request(a, target, nr, Queue(s.table.queues, a))
  }

  lemma {:induction false} LoopProgress(s: State, a: Addr, target: Option<Addr>, nr: int, es: seq<Event>)
    requires Inv(s) && WholeLoop(s, a, target, nr, es) && target != Some(a)
    ensures var s1 := Apply(s, Begin(a, target, nr));
            && Inv(Exec(s1, es))
            && Progress(Exec(s1, es), RequestFor(s, a, target, nr), TakenIn(s1, es), LostIn(s1, es, a))
  {
    var r, s1 := RequestFor(s, a, target, nr), Apply(s, Begin(a, target, nr));
    BeginProgress(s, r);
    EventKeepsInv(s, Begin(a, target, nr));
    hide Inv, Progress, Apply, Queue, NoDup, Enabled;
    RunProgress(s1, es, r, [], {});
    assert [] + TakenIn(s1, es) == TakenIn(s1, es);
    assert {} + LostIn(s1, es, a) == LostIn(s1, es, a);
  }

  lemma {:induction false} ProgressAtEnd(s: State, r: Request, p: seq<Tid>, gone: set<Tid>)
    requires Inv(s) && Progress(s, r, p, gone) && s.section.at == End
    ensures var kept := Kept(r.q, gone);
            var k := Count(r.nr, |kept|);
            && p == kept[..k] && Queue(s.table.queues, r.a) == kept[k..]
            && (r.target == None ==> forall t :: t in p ==> t !in s.table.asleep)
  {
    hide Kept, SleepInv, FifoInv;
    var w, kept := Queue(s.table.queues, r.a), Kept(r.q, gone);
    assert p + w == kept;
    assert kept[..|p|] == p && kept[|p|..] == w;
  }

  /**
   In every run a wake, or a requeue to another address, takes exactly the min(nr, length)
   oldest of the waiters that no signal or timeout takes out of the queue meanwhile, in their
   order, and leaves exactly the others.
   */
  lemma {:induction false} LoopTakesTheOldest(s: State, a: Addr, target: Option<Addr>, nr: int, es: seq<Event>)
    requires Reachable(s) && WholeLoop(s, a, target, nr, es) && target != Some(a)
    ensures var s1 := Apply(s, Begin(a, target, nr));
            var kept := Kept(Queue(s.table.queues, a), LostIn(s1, es, a));
            var k := Count(nr, |kept|);
            TakenIn(s1, es) == kept[..k] && Queue(Exec(s1, es).table.queues, a) == kept[k..]
  {
    hide Inv, Progress, Apply, Queue, Enabled, Reachable, Kept;
    ReachableInv(s);
    LoopProgress(s, a, target, nr, es);
    var s1 := Apply(s, Begin(a, target, nr));
    ProgressAtEnd(Exec(s1, es), RequestFor(s, a, target, nr), TakenIn(s1, es), LostIn(s1, es, a));
  }

  /** In every run a wake wakes all waiters it takes; anybody else who wakes was signalled or timed out. */
  lemma {:induction false} WakeIsExact(s: State, a: Addr, nr: int, es: seq<Event>, t: Tid)
    requires Reachable(s) && WholeLoop(s, a, None, nr, es)
    ensures var s1 := Apply(s, Begin(a, None, nr));
            var s2 := Exec(s1, es);
            && (t in TakenIn(s1, es) ==> t in s.table.asleep && t !in s2.table.asleep)
            && (t in s.table.asleep && t !in s2.table.asleep ==> t in TakenIn(s1, es) || Interrupts(es, t))
  {
    hide Inv, Progress, Apply, Queue, Enabled, Reachable, Kept;
    var s1, r := Apply(s, Begin(a, None, nr)), RequestFor(s, a, None, nr);
    ReachableInv(s);
    EventKeepsInv(s, Begin(a, None, nr));
    assert r.q == s.table.queues[a] by { QueueAt(s, a); }
    BeginProgress(s, r);
    LoopProgress(s, a, None, nr, es);
    ProgressAtEnd(Exec(s1, es), r, TakenIn(s1, es), LostIn(s1, es, a));
    if t in TakenIn(s1, es) {
      assert t in r.q;
      SleepersAreQueuedOnce(s, a, a, t);
    }
    if t in s.table.asleep && t !in Exec(s1, es).table.asleep {
      WokenByLoopOrInterrupt(s1, es, t);
    }
  }

  lemma QueueAt(s: State, a: Addr)
    requires a in s.table.queues
    ensures Queue(s.table.queues, a) == s.table.queues[a]
  {
  }

  // ------------------------------------------------------ undisturbed loops

  ghost predicate Undisturbed(es: seq<Event>) { forall e :: e in es ==> !e.Signalled? && !e.Expire? }

  /** No signal or timeout has got in the way of the loop. */
  ghost predicate Quiet(s: State) {
    s.section.Looping? ==>
      && (s.section.at == Remove ==> Queue(s.table.queues, s.section.a) != [])
      && (forall t :: Taken(s, t) ==> t in s.table.asleep)
  }

  lemma QuietStep(s: State)
    requires Inv(s) && Quiet(s) && Enabled(s, Step)
    ensures Quiet(StepLoop(s)) && !StepLoop(s).failed
  {
    hide Unique, FifoInv, SectionInv, Pushed, Freed;
    match s.section.at
    case Remove => assert IsQueued(s.table.queues, Queue(s.table.queues, s.section.a)[0]);
    case Check(t) => assert Taken(s, t);
    case Finish(t) => assert Taken(s, t);
    case _ =>
  }

  lemma QuietEvent(s: State, e: Event)
    requires Inv(s) && Quiet(s) && Enabled(s, e) && !e.Signalled? && !e.Expire?
    ensures Quiet(Apply(s, e)) && !Apply(s, e).failed
  {
    if e == Step {
      QuietStep(s);
    }
    hide Inv, StepLoop;
  }

  lemma {:induction false} QuietRun(s: State, es: seq<Event>)
    requires Inv(s) && Quiet(s) && !s.failed && Legal(s, es) && Undisturbed(es)
    ensures Inv(Exec(s, es)) && Quiet(Exec(s, es)) && !Exec(s, es).failed
    decreases |es|
  {
    hide Inv, Quiet, Enabled, Apply;
    if es != [] {
      var e, rest := es[0], es[1..];
      assert es == [e] + rest;
      EventKeepsInv(s, e);
      QuietEvent(s, e);
      QuietRun(Apply(s, e), rest);
    }
  }

  /**
   Without signals and timeouts no run reaches a panic, queues a thread that does not sleep or
   uses freed memory, whatever stores and other calls come between the steps.
   */
  lemma {:induction false} QuietRunsNeverFail(b: State, es: seq<Event>)
    requires Initial(b) && Legal(b, es) && Undisturbed(es)
    ensures !Exec(b, es).failed
  {
    QuietRun(b, es);
  }

  /** The table the loop will leave when nothing disturbs it. */
  ghost function Outcome(s: State): Table
    requires s.section.Looping? && SectionInv(s)
  {
    var Looping(a, target, left, at) := s.section;
    var m := s.table.queues;
    if at == End then s.table.(queues := Freed(m, a))
    else if target == None then
      if at.Check? || at.Finish? then Wake(s.table.(asleep := s.table.asleep - {at.t}), a, left - 1)
      else Wake(s.table, a, left)
    else if at.Check? || at.Finish? then
      s.table.(queues := Freed(Moves(Pushed(m, target.value, at.t), a, target.value, left - 1), a))
    else s.table.(queues := Freed(Moves(m, a, target.value, left), a))
  }

  lemma WakeTakesOneMore(f: Table, a: Addr, left: int)
    requires a in f.queues && f.queues[a] != [] && left > 0
    ensures var t := f.queues[a][0];
            Wake(Table(Popped(f.queues, a), f.asleep - {t}), a, left - 1) == Wake(f, a, left)
  {
    var q := f.queues[a];
    hide Elements;
    var k, f1 := Count(left, |q|), Table(Popped(f.queues, a), f.asleep - {q[0]});
    assert Count(left - 1, |q[1..]|) == k - 1;
    assert q[1..][k - 1..] == q[k..] && q[..k] == [q[0]] + q[1..][..k - 1];
    assert f1.queues[a := q[k..]] == f.queues[a := q[k..]];
    assert f1.asleep - Elements(q[1..][..k - 1]) == f.asleep - Elements(q[..k]);
  }

  lemma WakeTakesNoMore(f: Table, a: Addr, left: int)
    requires a in f.queues && (f.queues[a] == [] || left <= 0)
    ensures Wake(f, a, left) == f.(queues := Freed(f.queues, a))
  {
    assert f.queues[a][0..] == f.queues[a];
    assert f.queues[a := f.queues[a]] == f.queues;
  }

  lemma OutcomeTest(s: State)
    requires SectionInv(s) && s.section.Looping? && s.section.at == Test
    ensures SectionInv(TestWaiter(s)) && Outcome(TestWaiter(s)) == Outcome(s)
  {
    hide Moves, Moved, Wake, Freed;
    var Looping(a, target, left, at) := s.section;
    var m := s.table.queues;
    if m[a] == [] || left <= 0 {
      WakeTakesNoMore(s.table, a, left);
      if target.Some? {
        MovesEnd(m, a, target.value, left);
      }
    }
  }

  lemma OutcomeRemove(s: State)
    requires SectionInv(s) && s.section.Looping? && s.section.at == Remove
    requires Queue(s.table.queues, s.section.a) != [] && SectionInv(RemoveWaiter(s))
    ensures Outcome(RemoveWaiter(s)) == Outcome(s)
  {
    hide Moves, Moved, Wake, Freed;
    var Looping(a, target, left, at) := s.section;
    WakeTakesOneMore(s.table, a, left);
    if target.Some? {
      MovesStep(s.table.queues, a, target.value, left);
    }
  }

  lemma OutcomeFinish(s: State, t: Tid)
    requires SectionInv(s) && s.section.Looping? && s.section.at == Finish(t) && t in s.table.asleep
    ensures SectionInv(FinishWaiter(s, t)) && Outcome(FinishWaiter(s, t)) == Outcome(s)
  {
    hide Moves, Moved, Wake, Freed;
  }

  lemma OutcomeCheck(s: State, t: Tid)
    requires SectionInv(s) && s.section.Looping? && s.section.at == Check(t) && t in s.table.asleep
    ensures SectionInv(CheckWaiter(s, t)) && Outcome(CheckWaiter(s, t)) == Outcome(s)
  {
    hide Moves, Moved, Wake, Freed;
  }

  lemma OutcomeStep(s: State)
    requires Inv(s) && Quiet(s) && Enabled(s, Step) && s.section.at != End
    ensures var s' := StepLoop(s);
            s'.section.Looping? && SectionInv(s') && Outcome(s') == Outcome(s)
  {
    StepKeepsSleep(s);
    QuietStep(s);
    hide SleepInv, FifoInv, SectionInv, Outcome, Queue, TestWaiter, RemoveWaiter, CheckWaiter, FinishWaiter, EndLoop;
    match s.section.at
    case Test => OutcomeTest(s);
    case Remove => OutcomeRemove(s);
    case Check(t) =>
      assert Taken(s, t);
      OutcomeCheck(s, t);
    case Finish(t) =>
      assert Taken(s, t);
      OutcomeFinish(s, t);
  }

  lemma OutcomeEvent(s: State, e: Event)
    requires Inv(s) && Quiet(s) && Enabled(s, e) && !e.Signalled? && !e.Expire? && !e.Begin?
    requires s.section.Looping? && Apply(s, e).section.Looping?
    ensures SectionInv(Apply(s, e)) && Outcome(Apply(s, e)) == Outcome(s)
  {
    EventKeepsInv(s, e);
    hide SleepInv, FifoInv, Moves, Moved, Wake, Freed;
    if e == Step {
      hide SectionInv, TestWaiter, RemoveWaiter, CheckWaiter, FinishWaiter, EndLoop;
      OutcomeStep(s);
    }
  }

  lemma {:induction false} OutcomeRun(s: State, es: seq<Event>)
    requires Inv(s) && Quiet(s) && !s.failed && s.section.Looping?
    requires Legal(s, es) && NoBegin(es) && Undisturbed(es) && Exec(s, es).section.Looping?
    ensures Inv(Exec(s, es)) && !Exec(s, es).failed && Outcome(Exec(s, es)) == Outcome(s)
    decreases |es|
  {
    QuietRun(s, es);
    hide Quiet, Enabled, Apply, Inv, Outcome;
    if es != [] {
      var e, rest := es[0], es[1..];
      assert es == [e] + rest;
      StillLooping(s, es);
      EventKeepsInv(s, e);
      QuietEvent(s, e);
      OutcomeEvent(s, e);
      OutcomeRun(Apply(s, e), rest);
    }
  }

  /**
   A wake or requeue that no signal or timeout disturbs leaves the table that `Wake` and
   `Requeue` compute, whatever stores and other calls come between its steps.
   */
  lemma {:induction false} UndisturbedLoopIsExact(s: State, a: Addr, target: Option<Addr>, nr: int, es: seq<Event>)
    requires Reachable(s) && WholeLoop(s, a, target, nr, es) && Undisturbed(es)
    ensures var s2 := Exec(Apply(s, Begin(a, target, nr)), es);
            && Enabled(s2, Step) && Apply(s2, Step).section == Idle
            && Apply(s2, Step).table
            == if target == None then Wake(s.table, a, nr) else Requeue(s.table, a, target.value, nr)
  {
    ReachableInv(s);
    EventKeepsInv(s, Begin(a, target, nr));
    OutcomeBegin(s, a, target, nr);
    var s1 := Apply(s, Begin(a, target, nr));
    hide SleepInv, FifoInv, Quiet, Wake, Requeue, Moves;
    OutcomeRun(s1, es);
    OutcomeEnd(Exec(s1, es));
  }

  lemma OutcomeBegin(s: State, a: Addr, target: Option<Addr>, nr: int)
    requires Inv(s) && Enabled(s, Begin(a, target, nr)) && a in s.table.queues
    ensures var s1 := Apply(s, Begin(a, target, nr));
            && Quiet(s1) && !s1.failed && s1.section.Looping? && SectionInv(s1)
            && Outcome(s1) == if target == None then Wake(s.table, a, nr) else Requeue(s.table, a, target.value, nr)
  {
    hide SleepInv, FifoInv, Moves, Freed;
  }

  lemma OutcomeEnd(s: State)
    requires s.section.Looping? && SectionInv(s) && s.section.at == End
    ensures StepLoop(s).section == Idle && StepLoop(s).table == Outcome(s)
  {
    hide Wake, Moves;
  }

  // ---------------------------------------------------------- no lost wakeup

  /**
   This event brings a thread to the queue of address `a`: a comparison that found the value
   it expected, or a requeue.
   */
  ghost predicate Joins(s: State, e: Event, t: Tid, a: Addr) {
    || (e.Compare? && e.t == t && e.a == a && a in s.mem && s.mem[a] == e.expected)
    || (e == Step && s.section.Looping? && s.section.target == Some(a) && s.section.at == Finish(t))
  }

  ghost predicate JoinsLater(s: State, es: seq<Event>, t: Tid, a: Addr)
    requires Legal(s, es)
    decreases |es|
  {
    es != [] && (Joins(s, es[0], t, a) || JoinsLater(Apply(s, es[0]), es[1..], t, a))
  }

  ghost predicate ComparedAt(s: State, t: Tid, a: Addr) {
    s.section.Comparing? && s.section.w.t == t && s.section.w.a == a
  }

  lemma StepJoins(s: State, e: Event, t: Tid, a: Addr)
    requires Enabled(s, e)
    ensures t in Queue(Apply(s, e).table.queues, a) ==>
              t in Queue(s.table.queues, a) || ComparedAt(s, t, a) || Joins(s, e, t, a)
    ensures ComparedAt(Apply(s, e), t, a) ==> ComparedAt(s, t, a) || Joins(s, e, t, a)
  {
    if e == Step {
      LoopJoins(s, t, a);
      hide StepLoop, Queue;
    } else if e == Sleep {
      PushedAt(s.table.queues, s.section.w.a, s.section.w.t, a);
      hide Pushed, Queue;
    } else {
      hide StepLoop, Dropped, Queue;
    }
  }

  lemma LoopJoins(s: State, t: Tid, a: Addr)
    requires Enabled(s, Step)
    ensures var s' := StepLoop(s);
            && !s'.section.Comparing?
            && (t in Queue(s'.table.queues, a) ==> t in Queue(s.table.queues, a) || Joins(s, Step, t, a))
  {
    match s.section.at
    case Remove => hide Pushed;
    case Finish(u) =>
      if s.section.target.Some? {
        PushedAt(s.table.queues, s.section.target.value, u, a);
      }
      hide Pushed, Queue, Popped, Freed;
    case End => hide Pushed, Popped;
    case _ => hide TestWaiter, CheckWaiter, Queue;
  }

  lemma {:induction false} SleepersJoined(s: State, es: seq<Event>, t: Tid, a: Addr)
    requires Legal(s, es) && t in Queue(Exec(s, es).table.queues, a)
    ensures t in Queue(s.table.queues, a) || ComparedAt(s, t, a) || JoinsLater(s, es, t, a)
    decreases |es|
  {
    hide Enabled, Apply, Joins, ComparedAt, Queue;
    if es != [] {
      StepJoins(s, es[0], t, a);
      SleepersJoined(Apply(s, es[0]), es[1..], t, a);
    }
  }

  /**
   No lost wakeup. After the loop of a wake of all waiters on an address, whatever happens
   next, a thread asleep there came later: it found the expected value in memory after the
   wake, or a requeue put it there after the wake. So no thread whose comparison preceded the
   wake, in particular none that compared before a store that preceded the wake, is still
   asleep there, although stores may fall between its comparison and its queueing.
   */
  lemma {:induction false} FullWakeLeavesNobody(s: State, a: Addr, nr: int, es: seq<Event>, later: seq<Event>, t: Tid)
    requires Reachable(s) && WholeLoop(s, a, None, nr, es) && nr >= |Queue(s.table.queues, a)|
    requires var s2 := Exec(Apply(s, Begin(a, None, nr)), es);
             Legal(s2, later) && t in Queue(Exec(s2, later).table.queues, a)
    ensures JoinsLater(Exec(Apply(s, Begin(a, None, nr)), es), later, t, a)
  {
    hide Reachable, Apply, Queue, Joins, Kept, Enabled;
    var s2 := Exec(Apply(s, Begin(a, None, nr)), es);
    LoopTakesTheOldest(s, a, None, nr, es);
    assert Queue(s2.table.queues, a) == [];
    SleepersJoined(s2, later, t, a);
  }
}
