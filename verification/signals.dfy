/**
 Pending signals of one thread: a bitmap, a queue and a counter, updated by sending,
 handling and returning from a handler. Bitmaps are sets of signal numbers.
 */
module Signals {
  import opened Common

  const NSIG: nat := 64
  const SIGKILL: nat := 9
  const SIGTERM: nat := 15
  const SIGSTOP: nat := 17

  type Sig = nat

  ghost predicate ValidSignal(sig: Sig) { 1 <= sig <= NSIG }

  datatype Action = Default | Ignore | Handler(entry: nat)

  /** `cnt` is `sig_pending_cnt`, `ing` is `sig_ing`. */
  datatype Pending = Pending(bits: set<Sig>, queue: seq<Sig>, cnt: int, ing: Sig, killed: bool)

  // ------------------------------------------------------------ operations

  function Kills(sig: Sig): bool { sig == SIGKILL || sig == SIGSTOP || sig == SIGTERM }

  /** `signal_send`; `memory` says whether `kalloc` succeeds. */
  function Send(p: Pending, sig: Sig, memory: bool): Pending {
    if sig in p.bits then p
    else
      var q := p.(killed := p.killed || Kills(sig));
      if !memory then q else q.(queue := q.queue + [sig], cnt := q.cnt + 1, bits := q.bits + {sig})
  }

  /** What one pass of `signal_handle` does: which signals stay queued, and which gets a user frame. */
  datatype Pass = Pass(rest: seq<Sig>, framed: Option<Sig>, dropped: nat, killed: bool)

  function Scan(q: seq<Sig>, blocked: set<Sig>, act: map<Sig, Action>): Pass {
    if q == [] then Pass([], None, 0, false)
    else if q[0] in blocked then Kept(q[0], Scan(q[1..], blocked, act))
    else
      match ActionOf(act, q[0])
      case Default =>
        var r := Scan(q[1..], blocked, act);
        r.(dropped := r.dropped + 1, killed := r.killed || q[0] == SIGKILL)
      case Ignore => Kept(q[0], Scan(q[1..], blocked, act))
      case Handler(_) => Pass(q[1..], Some(q[0]), 0, false)
  }

  function Kept(sig: Sig, r: Pass): Pass { r.(rest := [sig] + r.rest) }

  /** Actions start out as the default. */
  function ActionOf(act: map<Sig, Action>, sig: Sig): Action { if sig in act then act[sig] else Default }

  function Handle(p: Pending, blocked: set<Sig>, act: map<Sig, Action>): Pending {
    if p.cnt == 0 then p
    else
      var r := Scan(p.queue, blocked, act);
      p.(queue := r.rest,
         cnt := p.cnt - r.dropped - (if r.framed.Some? then 1 else 0),
         ing := if r.framed.Some? then r.framed.value else p.ing,
         killed := p.killed || r.killed)
  }

  /** `sys_rt_sigreturn`: `sig_ing` comes from the frame, and its pending bit is cleared. */
  function SigReturn(p: Pending, sig: Sig): Pending {
    p.(ing := sig, bits := p.bits - {sig})
  }

  function Filter(q: seq<Sig>, mask: set<Sig>): (r: seq<Sig>)
    ensures forall x :: x in r <==> x in q && x !in mask
  {
    if q == [] then [] else if q[0] in mask then Filter(q[1..], mask) else [q[0]] + Filter(q[1..], mask)
  }

  lemma {:induction false} FilterAt(q: seq<Sig>, i: nat, mask: set<Sig>)
    requires i < |q|
    ensures var without := q[..i] + q[i + 1..];
            if q[i] in mask then q[..i] + Filter(q[i..], mask) == without[..i] + Filter(without[i..], mask)
            else q[..i] + Filter(q[i..], mask) == q[..i + 1] + Filter(q[i + 1..], mask)
  {
    var without := q[..i] + q[i + 1..];
    assert q[i..][0] == q[i] && q[i..][1..] == q[i + 1..];
    assert without[i..] == q[i + 1..] && without[..i] == q[..i];
  }

  lemma {:induction false} FilterEnd(q: seq<Sig>, mask: set<Sig>)
    ensures q[..|q|] + Filter(q[|q|..], mask) == q
  {
  }

  /** `signal_queue_pop`: it leaves the counter alone. */
  function Pop(p: Pending, mask: set<Sig>): Pending {
    if p.bits * mask == {} then p else p.(bits := p.bits - mask, queue := Filter(p.queue, mask))
  }

  // ------------------------------------------------- what one pass amounts to

  /** The first queued signal that is neither blocked, ignored nor defaulted, as a position; |q| if none. */
  ghost function FirstHandled(q: seq<Sig>, blocked: set<Sig>, act: map<Sig, Action>): (k: nat)
    ensures k <= |q|
    ensures forall i :: 0 <= i < k ==> !Catches(q[i], blocked, act)
    ensures k < |q| ==> Catches(q[k], blocked, act)
  {
    if q == [] || Catches(q[0], blocked, act) then 0 else 1 + FirstHandled(q[1..], blocked, act)
  }

  ghost predicate Catches(sig: Sig, blocked: set<Sig>, act: map<Sig, Action>) {
    sig !in blocked && ActionOf(act, sig).Handler?
  }

  ghost predicate Defaulted(sig: Sig, blocked: set<Sig>, act: map<Sig, Action>) {
    sig !in blocked && ActionOf(act, sig).Default?
  }

  ghost function KeepBlocked(q: seq<Sig>, blocked: set<Sig>, act: map<Sig, Action>): seq<Sig> {
    if q == [] then []
    else (if Defaulted(q[0], blocked, act) then [] else [q[0]]) + KeepBlocked(q[1..], blocked, act)
  }

  lemma {:induction false} ScanStops(q: seq<Sig>, blocked: set<Sig>, act: map<Sig, Action>)
    requires q == [] || Catches(q[0], blocked, act)
    ensures FirstHandled(q, blocked, act) == 0 && KeepBlocked(q[..0], blocked, act) == []
    ensures Scan(q, blocked, act) == if q == [] then Pass([], None, 0, false) else Pass(q[1..], Some(q[0]), 0, false)
  {
  }

  lemma {:induction false} ScanStep(q: seq<Sig>, blocked: set<Sig>, act: map<Sig, Action>)
    requires q != [] && !Catches(q[0], blocked, act)
    ensures var r, r1, k1 := Scan(q, blocked, act), Scan(q[1..], blocked, act), FirstHandled(q[1..], blocked, act);
            var kept := if Defaulted(q[0], blocked, act) then [] else [q[0]];
            && FirstHandled(q, blocked, act) == k1 + 1
            && KeepBlocked(q[..k1 + 1], blocked, act) == kept + KeepBlocked(q[1..][..k1], blocked, act)
            && r.rest == kept + r1.rest && r.framed == r1.framed && |r.rest| + r.dropped == |r1.rest| + r1.dropped + 1
  {
    var k1 := FirstHandled(q[1..], blocked, act);
    assert q[..k1 + 1][1..] == q[1..][..k1] && q[..k1 + 1][0] == q[0];
  }

  /**
   One pass sets up at most one frame, for the oldest signal with a handler that is not
   blocked; before it, exactly the unblocked signals with the default action are removed;
   everything after it stays.
   */
  lemma {:induction false} ScanIsExact(q: seq<Sig>, blocked: set<Sig>, act: map<Sig, Action>)
    ensures var r, k := Scan(q, blocked, act), FirstHandled(q, blocked, act);
            && r.framed == (if k < |q| then Some(q[k]) else None)
            && r.rest == KeepBlocked(q[..k], blocked, act) + (if k < |q| then q[k + 1..] else [])
            && |q| == |r.rest| + r.dropped + (if k < |q| then 1 else 0)
  {
    hide Scan, KeepBlocked, Kept, Defaulted, Catches, FirstHandled;
    if q == [] || Catches(q[0], blocked, act) {
      ScanStops(q, blocked, act);
    } else {
      ScanIsExact(q[1..], blocked, act);
      ScanStep(q, blocked, act);
      var k1 := FirstHandled(q[1..], blocked, act);
      assert k1 < |q[1..]| ==> q[1..][k1 + 1..] == q[k1 + 2..] && q[1..][k1] == q[k1 + 1];
    }
  }

  /** SIGKILL (9) is queued before the first signal with a handler, not blocked, with the default action. */
  ghost predicate KillsInPass(q: seq<Sig>, blocked: set<Sig>, act: map<Sig, Action>) {
    9 in q[..FirstHandled(q, blocked, act)] && 9 !in blocked && ActionOf(act, 9).Default?
  }

  lemma {:induction false} ScanKillsIff(q: seq<Sig>, blocked: set<Sig>, act: map<Sig, Action>)
    ensures Scan(q, blocked, act).killed <==> KillsInPass(q, blocked, act)
  {
    if q != [] && !Catches(q[0], blocked, act) {
      var k1 := FirstHandled(q[1..], blocked, act);
      ScanKillsIff(q[1..], blocked, act);
      assert q[..k1 + 1] == [q[0]] + q[1..][..k1];
    }
  }

  /** A blocked or ignored signal is never removed, and nothing is added. */
  lemma {:induction false} ScanKeepsBlocked(q: seq<Sig>, blocked: set<Sig>, act: map<Sig, Action>, x: Sig)
    ensures var r := Scan(q, blocked, act);
            && (x in r.rest ==> x in q)
            && (x in q && (x in blocked || ActionOf(act, x).Ignore?) ==> x in r.rest)
            && (r.framed == Some(x) ==> x in q && Catches(x, blocked, act))
  {
    if q != [] && !Catches(q[0], blocked, act) {
      ScanKeepsBlocked(q[1..], blocked, act, x);
    }
  }

  lemma {:induction false} ScanKeepsDistinct(q: seq<Sig>, blocked: set<Sig>, act: map<Sig, Action>)
    requires NoDup(q)
    ensures var r := Scan(q, blocked, act);
            NoDup(r.rest) && |r.rest| <= |q| && (r.framed.Some? ==> r.framed.value !in r.rest)
  {
    if q != [] {
      assert NoDup(q[1..]) && q[0] !in q[1..];
      if !Catches(q[0], blocked, act) {
        ScanKeepsDistinct(q[1..], blocked, act);
        ScanKeepsBlocked(q[1..], blocked, act, q[0]);
      }
    }
  }

  // ------------------------------------------------ pending signals in place

  class PendingSignals {
    var bits: set<Sig>
    var queue: seq<Sig>
    var cnt: int
    var ing: Sig
    var killed: bool

    function View(): Pending
      reads this
    {
      Pending(bits, queue, cnt, ing, killed)
    }

    constructor ()
      ensures View() == Init.p
    {
      bits, queue, cnt, ing, killed := {}, [], 0, 0, false;
    }

    /**
     A signal whose bit is set is dropped. Otherwise SIGKILL (9), SIGTERM (15) and SIGSTOP (17)
     mark the thread killed at once, even without memory; with memory the signal joins the queue.
     */
    method SignalSend(sig: Sig, memory: bool) returns (ret: int)
      requires ValidSignal(sig)
      modifies this
      ensures killed <==> old(killed) || (sig !in old(bits) && sig in {9, 15, 17})
      ensures sig in old(bits) || !memory ==> bits == old(bits) && queue == old(queue) && cnt == old(cnt)
      ensures sig !in old(bits) && memory ==>
                bits == old(bits) + {sig} && queue == old(queue) + [sig] && cnt == old(cnt) + 1
      ensures ing == old(ing)
      ensures View() == Send(old(View()), sig, memory)
      ensures ret == if sig in old(bits) || !memory then 0 else 1
    {
      if sig in bits {
        return 0;
      }
      if sig == SIGKILL || sig == SIGSTOP || sig == SIGTERM {
        killed := true;
      }
      if !memory {
        return 0;
      }
      cnt := cnt + 1;
      queue := queue + [sig];
      bits := bits + {sig};
      return 1;
    }

    /** The signal at a position leaves the queue and is uncounted. */
    method Dequeue(i: nat)
      requires i < |queue|
      modifies this`queue, this`cnt
      ensures queue == old(queue)[..i] + old(queue)[i + 1..] && cnt == old(cnt) - 1
    {
      cnt := cnt - 1;
      queue := queue[..i] + queue[i + 1..];
    }

    /**
     `framed` is the signal for which a user frame was set up; it becomes `sig_ing`. Bits stay, and
     only a SIGKILL that takes its default action marks the thread killed.
     */
    method SignalHandle(blocked: set<Sig>, act: map<Sig, Action>) returns (ret: int, framed: Option<Sig>)
      modifies this
      ensures bits == old(bits) && ing == if framed.Some? then framed.value else old(ing)
      ensures killed <==> old(killed) || (old(cnt) != 0 && KillsInPass(old(queue), blocked, act))
      ensures View() == Handle(old(View()), blocked, act)
      ensures old(cnt) == 0 ==> ret == 0 && framed == None
      ensures old(cnt) != 0 ==> ret == 1 && framed == Scan(old(queue), blocked, act).framed
    {
      framed := None;
      if cnt == 0 {
        return 0, None;
      }
      ScanKillsIff(queue, blocked, act);
      hide Scan, Resumes, KillsInPass;
      ghost var r, cnt0, killed0, dropped := Scan(queue, blocked, act), cnt, killed, 0;
      var i := 0;
      ResumeStart(queue, killed0, blocked, act);
      while i < |queue|
        invariant 0 <= i <= |queue| && framed == None
        invariant Resumes(r, queue, i, dropped, killed0, killed, blocked, act)
        invariant cnt == cnt0 - dropped && bits == old(bits) && ing == old(ing)
        decreases |queue| - i
      {
        var sig := queue[i];
        ResumeStep(r, queue, i, dropped, killed0, killed, blocked, act);
        if sig in blocked {
          i := i + 1;
        } else {
          match ActionOf(act, sig)
          case Default =>
            if sig == SIGKILL {
              killed := true;
            }
            dropped := dropped + 1;
            Dequeue(i);
          case Ignore =>
            i := i + 1;
          case Handler(_) =>
            Dequeue(i);
            ing := sig;
            framed := Some(sig);
            return 1, framed;
        }
      }
      ResumeEnd(r, queue, dropped, killed0, killed, blocked, act);
      return 1, None;
    }

    method SignalQueuePop(mask: set<Sig>) returns (ret: int)
      modifies this
      ensures View() == Pop(old(View()), mask)
      ensures bits == old(bits) - mask && cnt == old(cnt)
      ensures old(bits) * mask == {} ==> queue == old(queue)
      ensures old(bits) * mask != {} ==> forall x :: x in queue <==> x in old(queue) && x !in mask
      ensures ret == if old(bits) * mask == {} then 0 else 1
    {
      if bits * mask == {} {
        assert forall x :: x in bits && x in mask ==> x in bits * mask;
        assert bits - mask == bits;
        return 0;
      }
      bits := bits - mask;
      var i := 0;
      assert queue[0..] == queue;
      hide Filter;
      while i < |queue|
        invariant 0 <= i <= |queue|
        invariant Filter(old(queue), mask) == queue[..i] + Filter(queue[i..], mask)
        invariant bits == old(bits) - mask && cnt == old(cnt) && ing == old(ing) && killed == old(killed)
        decreases |queue| - i
      {
        FilterAt(queue, i, mask);
        if queue[i] in mask {
          queue := queue[..i] + queue[i + 1..];
        } else {
          i := i + 1;
        }
      }
      FilterEnd(queue, mask);
      return 1;
    }

    method SignalQueueFlush() returns (ret: int)
      modifies this
      ensures View() == old(View()).(bits := {}, queue := []) && ret == 1
    {
      bits := {};
      while queue != []
        invariant bits == {} && cnt == old(cnt) && ing == old(ing) && killed == old(killed)
        decreases |queue|
      {
        queue := queue[1..];
      }
      return 1;
    }

    /**
     The part of `sys_rt_sigreturn` that follows the restoring of the frame: the signal
     of the frame can be sent again, and no other signal is affected.
     */
    method RtSigreturn(fromFrame: Sig)
      modifies this
      ensures View() == SigReturn(old(View()), fromFrame)
      ensures ing == fromFrame && bits == old(bits) - {fromFrame}
      ensures queue == old(queue) && cnt == old(cnt) && killed == old(killed)
      ensures Send(View(), fromFrame, true).queue == old(queue) + [fromFrame]
      ensures forall x, memory :: x != fromFrame ==>
                Send(View(), x, memory).queue == Send(old(View()), x, memory).queue
    {
      ing := fromFrame;
      bits := bits - {ing};
    }
  }

  /**
   A scan with final result `all` that has kept `queue[..i]`, dropped some signals, and has
   `queue[i..]` left.
   */
  ghost predicate Resumes(all: Pass, queue: seq<Sig>, i: nat, dropped: nat, killed0: bool, killed: bool,
                          blocked: set<Sig>, act: map<Sig, Action>)
    requires i <= |queue|
  {
    var rest := Scan(queue[i..], blocked, act);
    && all.rest == queue[..i] + rest.rest && all.framed == rest.framed
    && all.dropped == dropped + rest.dropped
    && (killed0 || all.killed <==> killed || rest.killed)
  }

  lemma {:induction false} ResumeStart(queue: seq<Sig>, killed: bool, blocked: set<Sig>, act: map<Sig, Action>)
    ensures Resumes(Scan(queue, blocked, act), queue, 0, 0, killed, killed, blocked, act)
  {
    assert queue[0..] == queue;
  }

  lemma ResumeStep(all: Pass, queue: seq<Sig>, i: nat, dropped: nat, killed0: bool, killed: bool,
                   blocked: set<Sig>, act: map<Sig, Action>)
    requires i < |queue| && Resumes(all, queue, i, dropped, killed0, killed, blocked, act)
    ensures var sig, without := queue[i], queue[..i] + queue[i + 1..];
            if sig in blocked || ActionOf(act, sig).Ignore? then
              Resumes(all, queue, i + 1, dropped, killed0, killed, blocked, act)
            else if ActionOf(act, sig).Default? then
              Resumes(all, without, i, dropped + 1, killed0, killed || sig == SIGKILL, blocked, act)
            else
              all == Pass(without, Some(sig), dropped, all.killed) && (killed0 || all.killed <==> killed)
  {
    var sig, tail, without := queue[i], queue[i + 1..], queue[..i] + queue[i + 1..];
    assert queue[i..][0] == sig && queue[i..][1..] == tail;
    assert without[i..] == tail && without[..i] == queue[..i];
    assert queue[..i + 1] == queue[..i] + [sig];
  }

  lemma ResumeEnd(all: Pass, queue: seq<Sig>, dropped: nat, killed0: bool, killed: bool,
                  blocked: set<Sig>, act: map<Sig, Action>)
    requires Resumes(all, queue, |queue|, dropped, killed0, killed, blocked, act)
    ensures all == Pass(queue, None, dropped, all.killed) && (killed0 || all.killed <==> killed)
  {
  }

  // ---------------------------------------------------------------- runs

  /** `serving` is the stack of signals whose handlers have not returned. It is history. */
  datatype State = State(p: Pending, blocked: set<Sig>, act: map<Sig, Action>, serving: seq<Sig>)

  datatype Event =
    | DoSend(sig: Sig, memory: bool)
    | DoHandle
    | DoReturn
    | SetMask(mask: set<Sig>)
    | SetAction(sig: Sig, a: Action)

  ghost const Init := State(Pending({}, [], 0, 0, false), {}, map[], [])

  ghost predicate Enabled(s: State, e: Event) {
    match e
    case DoSend(sig, _) => ValidSignal(sig)
    case DoReturn => s.serving != []
    case _ => true
  }

  ghost function Apply(s: State, e: Event): State
    requires Enabled(s, e)
  {
    match e
    case DoSend(sig, memory) => s.(p := Send(s.p, sig, memory))
    case DoHandle =>
      var framed := if s.p.cnt == 0 then None else Scan(s.p.queue, s.blocked, s.act).framed;
      s.(p := Handle(s.p, s.blocked, s.act),
         serving := if framed.Some? then s.serving + [framed.value] else s.serving)
    case DoReturn =>
      var n := |s.serving| - 1;
      s.(p := SigReturn(s.p, s.serving[n]), serving := s.serving[..n])
    case SetMask(mask) => s.(blocked := mask)
    case SetAction(sig, a) => s.(act := s.act[sig := a])
  }

  ghost predicate Legal(s: State, es: seq<Event>)
    decreases |es|
  {
    es == [] || (Enabled(s, es[0]) && Legal(Apply(s, es[0]), es[1..]))
  }

  ghost function Exec(s: State, es: seq<Event>): State
    requires Legal(s, es)
    decreases |es|
  {
    if es == [] then s else Exec(Apply(s, es[0]), es[1..])
  }

  /**
   The queue and the signals being handled are all different and all have their bit set,
   and the counter is the length of the queue.
   */
  ghost predicate Inv(s: State) {
    && NoDup(s.p.queue + s.serving)
    && (forall x :: x in s.p.queue + s.serving ==> x in s.p.bits)
    && (forall x :: x in s.p.bits ==> ValidSignal(x))
    && s.p.cnt == |s.p.queue|
  }

  lemma SendKeepsInv(s: State, sig: Sig, memory: bool)
    requires Inv(s) && ValidSignal(sig)
    ensures Inv(Apply(s, DoSend(sig, memory)))
  {
    var s' := Apply(s, DoSend(sig, memory));
    var all, n := s.p.queue + s.serving, |s.p.queue|;
    if sig !in s.p.bits && memory {
      assert sig !in all;
      InsertKeepsDistinct(s.p.queue, s.serving, sig);
      assert forall x :: x in s'.p.queue + s.serving ==> x == sig || x in all;
    }
  }

  lemma InsertKeepsDistinct(a: seq<Sig>, b: seq<Sig>, x: Sig)
    requires NoDup(a + b) && x !in a + b
    ensures NoDup((a + [x]) + b)
  {
    var d := (a + [x]) + b;
    assert forall i :: 0 <= i < |a| ==> d[i] == (a + b)[i];
    assert forall i :: |a| < i < |d| ==> d[i] == (a + b)[i - 1];
  }

  lemma DistinctParts(a: seq<Sig>, b: seq<Sig>)
    ensures NoDup(a + b) <==> NoDup(a) && NoDup(b) && forall x :: x in a ==> x !in b
  {
    if NoDup(a + b) {
      assert forall i :: 0 <= i < |a| ==> (a + b)[i] == a[i];
      assert forall i :: 0 <= i < |b| ==> (a + b)[|a| + i] == b[i];
    } else {
      var i, j :| 0 <= i < j < |a + b| && (a + b)[i] == (a + b)[j];
      if i < |a| <= j {
        assert a[i] in a && b[j - |a|] in b;
      }
    }
  }

  lemma HandleKeepsInv(s: State)
    requires Inv(s)
    ensures Inv(Apply(s, DoHandle))
  {
    if s.p.cnt != 0 {
      var q, r := s.p.queue, Scan(s.p.queue, s.blocked, s.act);
      var s' := Apply(s, DoHandle);
      DistinctParts(q, s.serving);
      ScanKeepsDistinct(q, s.blocked, s.act);
      ScanIsExact(q, s.blocked, s.act);
      forall x ensures (x in r.rest ==> x in q) && (r.framed == Some(x) ==> x in q) {
        ScanKeepsBlocked(q, s.blocked, s.act, x);
      }
      hide Scan, FirstHandled, KeepBlocked;
      assert forall x :: x in q || x in s.serving ==> x in q + s.serving;
      if r.framed.Some? {
        DistinctParts(s.serving, [r.framed.value]);
      }
      DistinctParts(r.rest, s'.serving);
    }
  }

  lemma ReturnKeepsInv(s: State)
    requires Inv(s) && Enabled(s, DoReturn)
    ensures Inv(Apply(s, DoReturn))
  {
    var s', n := Apply(s, DoReturn), |s.serving| - 1;
    var all, all' := s.p.queue + s.serving, s'.p.queue + s'.serving;
    assert all == all' + [s.serving[n]];
    DistinctParts(all', [s.serving[n]]);
    assert forall x :: x in all' ==> x in all;
  }

  lemma StepKeepsInv(s: State, e: Event)
    requires Inv(s) && Enabled(s, e)
    ensures Inv(Apply(s, e))
  {
    match e
    case DoSend(sig, memory) => SendKeepsInv(s, sig, memory);
    case DoHandle => HandleKeepsInv(s);
    case DoReturn => ReturnKeepsInv(s);
    case _ =>
  }

  lemma {:induction false} RunKeepsInv(s: State, es: seq<Event>)
    requires Inv(s) && Legal(s, es)
    ensures Inv(Exec(s, es))
    decreases |es|
  {
    if es != [] {
      StepKeepsInv(s, es[0]);
      RunKeepsInv(Apply(s, es[0]), es[1..]);
    }
  }

  ghost predicate Reachable(s: State) {
    exists es :: Legal(Init, es) && s == Exec(Init, es)
  }

  lemma ReachableInv(s: State)
    requires Reachable(s)
    ensures Inv(s)
  {
    var es :| Legal(Init, es) && s == Exec(Init, es);
    RunKeepsInv(Init, es);
  }

  // ---------------------------------------------------------- main theorems

  /**
   In every run the queue holds no signal twice, every queued signal and every signal
   whose handler is running has its bit set, no signal is both queued and being handled,
   and the counter is the queue's length, at most 64.
   */
  lemma QueueAgreesWithBitmap(s: State)
    requires Reachable(s)
    ensures NoDup(s.p.queue) && NoDup(s.serving)
    ensures forall x :: x in s.p.queue ==> x in s.p.bits && x !in s.serving
    ensures forall x :: x in s.serving ==> x in s.p.bits
    ensures s.p.cnt == |s.p.queue| <= NSIG
  {
    ReachableInv(s);
    DistinctParts(s.p.queue, s.serving);
    assert forall x :: x in s.p.queue || x in s.serving ==> x in s.p.queue + s.serving;
    var valid := Below(NSIG + 1) - {0};
    assert Elements(s.p.queue) <= valid;
    SubsetSize(Elements(s.p.queue), valid);
  }

  /** This event marks the thread killed. */
  ghost predicate KillsNow(s: State, e: Event) {
    || (e.DoSend? && e.sig !in s.p.bits && e.sig in {9, 15, 17})
    || (e.DoHandle? && KillsInPass(s.p.queue, s.blocked, s.act))
  }

  ghost predicate KillsIn(s: State, es: seq<Event>)
    requires Legal(s, es)
    decreases |es|
  {
    es != [] && (KillsNow(s, es[0]) || KillsIn(Apply(s, es[0]), es[1..]))
  }

  lemma EventKillsIff(s: State, e: Event)
    requires Inv(s) && Enabled(s, e)
    ensures Apply(s, e).p.killed <==> s.p.killed || KillsNow(s, e)
  {
    if e.DoHandle? {
      ScanKillsIff(s.p.queue, s.blocked, s.act);
    }
    hide Scan, FirstHandled;
  }

  lemma {:induction false} RunKillsIff(s: State, es: seq<Event>)
    requires Inv(s) && Legal(s, es)
    ensures Exec(s, es).p.killed <==> s.p.killed || KillsIn(s, es)
    decreases |es|
  {
    hide Inv, Apply, Enabled, KillsNow;
    if es != [] {
      EventKillsIff(s, es[0]);
      StepKeepsInv(s, es[0]);
      RunKillsIff(Apply(s, es[0]), es[1..]);
    }
  }

  /**
   In every run a thread is marked killed exactly if SIGKILL, SIGTERM or SIGSTOP was sent while its
   bit was clear, or a pass took SIGKILL with its default action; and it stays marked.
   */
  lemma {:induction false} KilledIff(es: seq<Event>)
    requires Legal(Init, es)
    ensures Exec(Init, es).p.killed <==> KillsIn(Init, es)
  {
    RunKillsIff(Init, es);
  }

  /** Returning from the innermost handler makes exactly its signal deliverable again. */
  lemma ReturnFreesTheSignal(s: State, memory: bool)
    requires Reachable(s) && Enabled(s, DoReturn)
    ensures var sig, s' := s.serving[|s.serving| - 1], Apply(s, DoReturn);
            && sig !in s.p.queue && Send(s.p, sig, memory) == s.p
            && sig !in s'.p.bits && s'.p.bits == s.p.bits - {sig}
            && Send(s'.p, sig, true).queue == s.p.queue + [sig]
  {
    QueueAgreesWithBitmap(s);
    assert s.serving[|s.serving| - 1] in s.serving;
  }

  /** Bit set, but neither queued nor being handled. */
  ghost predicate Lost(s: State, sig: Sig) {
    sig in s.p.bits && sig !in s.p.queue && sig !in s.serving
  }

  lemma {:induction false} KeepBlockedMembers(q: seq<Sig>, blocked: set<Sig>, act: map<Sig, Action>, x: Sig)
    ensures x in KeepBlocked(q, blocked, act) <==> x in q && !Defaulted(x, blocked, act)
  {
    if q != [] {
      KeepBlockedMembers(q[1..], blocked, act, x);
    }
  }

  /** What one pass leaves queued, by membership. */
  lemma {:induction false} ScanKeeps(q: seq<Sig>, blocked: set<Sig>, act: map<Sig, Action>, x: Sig)
    requires NoDup(q)
    ensures var r, k := Scan(q, blocked, act), FirstHandled(q, blocked, act);
            x in r.rest <==> x in q && !(x in q[..k] && Defaulted(x, blocked, act)) && (k < |q| ==> x != q[k])
  {
    hide Scan, KeepBlocked, FirstHandled, Defaulted, Catches;
    var k := FirstHandled(q, blocked, act);
    ScanIsExact(q, blocked, act);
    KeepBlockedMembers(q[..k], blocked, act, x);
    MembersAround(q, k, x);
  }

  lemma MembersAround(q: seq<Sig>, k: nat, x: Sig)
    requires NoDup(q) && k <= |q|
    ensures k == |q| ==> q[..k] == q
    ensures k < |q| ==> (x in q <==> x in q[..k] || x == q[k] || x in q[k + 1..])
    ensures k < |q| ==> (x in q[k + 1..] ==> x !in q[..k] && x != q[k]) && (x in q[..k] ==> x != q[k])
  {
    assert k < |q| ==> q == q[..k] + [q[k]] + q[k + 1..];
  }

  /**
   In every run a pass loses exactly the queued signals, up to the one it sets up a frame
   for, whose action is the default and that are not blocked: their bit stays set with
   nothing behind it. What was lost stays so.
   */
  lemma DefaultActionLosesTheBitIff(s: State, sig: Sig)
    requires Reachable(s)
    ensures var k := FirstHandled(s.p.queue, s.blocked, s.act);
            Lost(Apply(s, DoHandle), sig) <==>
              Lost(s, sig) || (sig in s.p.queue[..k] && Defaulted(sig, s.blocked, s.act))
  {
    QueueAgreesWithBitmap(s);
    ScanKeeps(s.p.queue, s.blocked, s.act, sig);
    ScanIsExact(s.p.queue, s.blocked, s.act);
    hide Scan, KeepBlocked, FirstHandled, Defaulted, Catches;
    var q, k := s.p.queue, FirstHandled(s.p.queue, s.blocked, s.act);
    assert sig in q[..k] ==> sig in q;
  }

  /** A run that loses a signal: it is sent and handled with its default action. */
  lemma {:induction false} DefaultActionLosesASignal()
    ensures var es := [DoSend(2, true), DoHandle];
            Legal(Init, es) && Lost(Exec(Init, es), 2)
  {
    var s1 := Apply(Init, DoSend(2, true));
    assert s1.p.queue == [2] && s1.p.bits == {2} && s1.p.cnt == 1;
    assert Scan([2], {}, map[]) == Pass([], None, 1, false) by {
      assert [2][1..] == [];
    }
    var es := [DoSend(2, true), DoHandle];
    assert es[1..] == [DoHandle];
    assert es[1..][1..] == [];
  }

  /**
   From then on the signal can never be queued or delivered again: no run of sends,
   handles, returns and mask or action changes brings it back.
   */
  lemma {:induction false} LostStaysLost(s: State, es: seq<Event>, sig: Sig)
    requires Legal(s, es) && Lost(s, sig)
    ensures Lost(Exec(s, es), sig)
    decreases |es|
  {
    if es != [] {
      var s1 := Apply(s, es[0]);
      if es[0].DoHandle? {
        ScanKeepsBlocked(s.p.queue, s.blocked, s.act, sig);
      }
      assert Lost(s1, sig);
      LostStaysLost(s1, es[1..], sig);
    }
  }

  /**
   Popping signals keeps the counter right exactly when no popped signal is queued, as for
   one just handled.
   */
  lemma PopKeepsCountIff(s: State, mask: set<Sig>)
    requires Inv(s)
    ensures var p' := Pop(s.p, mask);
            p'.cnt == |p'.queue| <==> forall x :: x in s.p.queue ==> x !in mask
  {
    var q := s.p.queue;
    if s.p.bits * mask == {} {
      forall x | x in q ensures x !in mask {
        assert x in q + s.serving;
        assert x in mask ==> x in s.p.bits * mask;
      }
    } else {
      FilterLength(q, mask);
    }
  }

  /** The counter goes wrong: a signal is sent and popped while it is still queued. */
  lemma {:induction false} PopCanMiscount()
    ensures Legal(Init, [DoSend(2, true)])
    ensures var p' := Pop(Exec(Init, [DoSend(2, true)]).p, {2}); p'.cnt == 1 && p'.queue == []
  {
    var p := Exec(Init, [DoSend(2, true)]).p;
    assert p.queue == [2] && p.bits == {2} && p.cnt == 1;
    assert p.bits * {2} == {2};
    assert Filter([2], {2}) == [] by {
      assert [2][1..] == [];
    }
  }

  lemma {:induction false} FilterLength(q: seq<Sig>, mask: set<Sig>)
    ensures |Filter(q, mask)| <= |q|
    ensures |Filter(q, mask)| == |q| <==> forall x :: x in q ==> x !in mask
  {
    if q != [] {
      FilterLength(q[1..], mask);
      if forall x :: x in q[1..] ==> x !in mask {
        assert q[0] !in mask ==> forall x :: x in q ==> x !in mask;
      }
      if forall x :: x in q ==> x !in mask {
        assert q[0] in q && forall x :: x in q[1..] ==> x in q;
      }
    }
  }
}
