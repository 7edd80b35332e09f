/**
 The futex table of one thread group: a FIFO queue of sleeping threads per user
 address, present in the table only while it is needed. Wait, wake and requeue run
 under the process lock; here nothing else wakes a waiter meanwhile, which `FutexRuns`
 adds.
 */
module Futexes {
  import opened Common

  type Addr = nat
  type Tid = nat

  /** `asleep` are the threads in state TCB_SLEEPING. */
  datatype Table = Table(queues: map<Addr, seq<Tid>>, asleep: set<Tid>)

  function Queue(m: map<Addr, seq<Tid>>, a: Addr): seq<Tid> { if a in m then m[a] else [] }

  /** How many of `n` waiters a request for `nr`, a signed int, takes. */
  function Count(nr: int, n: nat): (k: nat)
    ensures k <= n
    ensures nr <= 0 ==> k == 0
    ensures 0 < nr <= n ==> k == nr
    ensures nr > n ==> k == n
  {
    if nr <= 0 then 0 else if nr < n then nr else n
  }

  /** An entry whose queue ran empty is freed. */
  function Freed(m: map<Addr, seq<Tid>>, a: Addr): map<Addr, seq<Tid>> {
    if a in m && m[a] == [] then m - {a} else m
  }

  function Pushed(m: map<Addr, seq<Tid>>, a: Addr, t: Tid): map<Addr, seq<Tid>> {
    m[a := Queue(m, a) + [t]]
  }

  function Popped(m: map<Addr, seq<Tid>>, a: Addr): map<Addr, seq<Tid>>
    requires a in m && m[a] != []
  {
    m[a := m[a][1..]]
  }

  /** `Queue_remove_atomic` on whichever queue holds the thread. */
  function Dropped(m: map<Addr, seq<Tid>>, t: Tid): (m': map<Addr, seq<Tid>>)
    ensures m'.Keys == m.Keys && forall a :: Queue(m', a) == Without(Queue(m, a), t)
  {
    map a | a in m :: Without(m[a], t)
  }

  function Enqueue(f: Table, a: Addr, t: Tid): Table {
    Table(Pushed(f.queues, a, t), f.asleep + {t})
  }

  function Woken(f: Table, a: Addr, nr: int): seq<Tid> {
    Queue(f.queues, a)[..Count(nr, |Queue(f.queues, a)|)]
  }

  /** The oldest waiters leave the queue and run. */
  function Wake(f: Table, a: Addr, nr: int): Table {
    if a !in f.queues then f
    else
      var k := Count(nr, |f.queues[a]|);
      Table(Freed(f.queues[a := f.queues[a][k..]], a), f.asleep - set t | t in f.queues[a][..k])
  }

  /** One waiter goes from the front of one queue to the back of the other. */
  function MoveOne(m: map<Addr, seq<Tid>>, a: Addr, b: Addr): (m': map<Addr, seq<Tid>>)
    requires a in m && b in m && m[a] != []
    ensures m'.Keys == m.Keys
  {
    Pushed(Popped(m, a), b, m[a][0])
  }

  function Moves(m: map<Addr, seq<Tid>>, a: Addr, b: Addr, nr: int): (m': map<Addr, seq<Tid>>)
    requires a in m && b in m
    ensures m'.Keys == m.Keys
    decreases if nr > 0 then nr else 0
  {
    if nr <= 0 || m[a] == [] then m else Moves(MoveOne(m, a, b), a, b, nr - 1)
  }

  /** The waiters that `Moves` moves, in order. */
  ghost function Moved(m: map<Addr, seq<Tid>>, a: Addr, b: Addr, nr: int): (s: seq<Tid>)
    requires a in m && b in m
    ensures |s| <= if nr > 0 then nr else 0
    decreases if nr > 0 then nr else 0
  {
    if nr <= 0 || m[a] == [] then [] else [m[a][0]] + Moved(MoveOne(m, a, b), a, b, nr - 1)
  }

  lemma MovesStep(m: map<Addr, seq<Tid>>, a: Addr, b: Addr, nr: int)
    requires a in m && b in m && nr > 0 && m[a] != []
    ensures Moves(m, a, b, nr) == Moves(MoveOne(m, a, b), a, b, nr - 1)
    ensures |Moved(m, a, b, nr)| == 1 + |Moved(MoveOne(m, a, b), a, b, nr - 1)|
  {
  }

  lemma {:induction false} MovesEnd(m: map<Addr, seq<Tid>>, a: Addr, b: Addr, nr: int)
    requires a in m && b in m && (nr <= 0 || m[a] == [])
    ensures Moves(m, a, b, nr) == m && Moved(m, a, b, nr) == []
  {
  }

  function WithEntry(m: map<Addr, seq<Tid>>, b: Addr): (m': map<Addr, seq<Tid>>)
    ensures b in m' && m'.Keys == m.Keys + {b} && forall a :: Queue(m', a) == Queue(m, a)
  {
    if b in m then m else m[b := []]
  }

  function Requeue(f: Table, a: Addr, b: Addr, nr: int): Table {
    if a !in f.queues then f
    else f.(queues := Freed(Moves(WithEntry(f.queues, b), a, b, nr), a))
  }

  // ------------------------------------------------- what requeue amounts to

  lemma MoveOneConserves(m: map<Addr, seq<Tid>>, a: Addr, b: Addr, x: Addr)
    requires a in m && b in m && x in m && m[a] != []
    ensures m[x] + (if x == b then [m[a][0]] else []) == (if x == a then [m[a][0]] else []) + MoveOne(m, a, b)[x]
  {
  }

  /** What leaves one queue arrives, in order, at the other, also when they are the same queue. */
  lemma {:induction false} MovesConserve(m: map<Addr, seq<Tid>>, a: Addr, b: Addr, nr: int, x: Addr)
    requires a in m && b in m && x in m
    ensures m[x] + (if x == b then Moved(m, a, b, nr) else [])
         == (if x == a then Moved(m, a, b, nr) else []) + Moves(m, a, b, nr)[x]
    decreases if nr > 0 then nr else 0
  {
    if nr > 0 && m[a] != [] {
      var m1, rest := MoveOne(m, a, b), Moved(MoveOne(m, a, b), a, b, nr - 1);
      MovesConserve(m1, a, b, nr - 1, x);
      var first := [m[a][0]];
      MoveOneConserves(m, a, b, x);
      hide MoveOne;
      assert Moved(m, a, b, nr) == first + rest;
      Conserved(m[x], if x == b then first else [], if x == a then first else [], m1[x],
                if x == b then rest else [], if x == a then rest else [], Moves(m, a, b, nr)[x]);
    }
  }

  lemma Conserved(before: seq<Tid>, in1: seq<Tid>, out1: seq<Tid>, between: seq<Tid>,
                  in2: seq<Tid>, out2: seq<Tid>, after: seq<Tid>)
    requires before + in1 == out1 + between && between + in2 == out2 + after
    ensures before + (in1 + in2) == (out1 + out2) + after
  {
    calc {
      before + (in1 + in2);
      (before + in1) + in2;
      out1 + (between + in2);
      (out1 + out2) + after;
    }
  }

  lemma {:induction false} MovedLength(m: map<Addr, seq<Tid>>, a: Addr, b: Addr, nr: int)
    requires a in m && b in m && a != b
    ensures |Moved(m, a, b, nr)| == Count(nr, |m[a]|)
    decreases if nr > 0 then nr else 0
  {
    if nr > 0 && m[a] != [] {
      MovedLength(MoveOne(m, a, b), a, b, nr - 1);
    }
  }

  /** Between two addresses requeue moves exactly the oldest waiters, in order, and nothing else. */
  lemma RequeueMovesPrefix(f: Table, a: Addr, b: Addr, nr: int)
    requires a in f.queues && a != b
    ensures var q, m' := f.queues[a], Requeue(f, a, b, nr).queues;
            var k := Count(nr, |q|);
            && Queue(m', a) == q[k..]
            && Queue(m', b) == Queue(f.queues, b) + q[..k]
            && forall x :: x != a && x != b ==> Queue(m', x) == Queue(f.queues, x)
    ensures a in Requeue(f, a, b, nr).queues <==> Count(nr, |f.queues[a]|) < |f.queues[a]|
  {
    var m := WithEntry(f.queues, b);
    var p, k := Moved(m, a, b, nr), Count(nr, |m[a]|);
    MovedLength(m, a, b, nr);
    MovesConserve(m, a, b, nr, a);
    MovesConserve(m, a, b, nr, b);
    var q' := Moves(m, a, b, nr)[a];
    assert m[a] == p + q';
    assert m[a][..k] == p && m[a][k..] == q';
    forall x | x != a && x != b
      ensures Queue(Requeue(f, a, b, nr).queues, x) == Queue(f.queues, x)
    {
      if x in m {
        MovesConserve(m, a, b, nr, x);
        assert Moves(m, a, b, nr)[x] == [] + Moves(m, a, b, nr)[x] == m[x] + [] == m[x];
      }
      assert Queue(m, x) == Queue(f.queues, x);
    }
  }

  /** Onto the same address it rotates the queue, once per waiter requested, however many that is. */
  lemma {:induction false} RequeueOntoItselfRotates(m: map<Addr, seq<Tid>>, a: Addr, nr: nat)
    requires a in m && m[a] != []
    ensures var r := nr % |m[a]|;
            Moves(m, a, a, nr) == m[a := m[a][r..] + m[a][..r]]
    decreases nr
  {
    if nr == 0 {
      assert m[a][0..] + m[a][..0] == m[a];
    } else {
      var q, m1 := m[a], MoveOne(m, a, a);
      var r, r1 := nr % |q|, (nr - 1) % |q|;
      RequeueOntoItselfRotates(m1, a, nr - 1);
      assert m1[a] == q[1..] + [q[0]];
      RotateOnce(q, nr);
    }
  }

  lemma RotateOnce(q: seq<Tid>, nr: nat)
    requires q != [] && nr > 0
    ensures var q1, r, r1 := q[1..] + [q[0]], nr % |q|, (nr - 1) % |q|;
            q1[r1..] + q1[..r1] == q[r..] + q[..r]
  {
    var r, r1, n := nr % |q|, (nr - 1) % |q|, |q|;
    RemainderStep(nr, n);
    var q1 := q[1..] + [q[0]];
    if r1 + 1 == n {
      assert q1[r1..] == [q[0]] && q1[..r1] == q[1..];
      assert r == 0 && q[0..] + q[..0] == [q[0]] + q[1..];
    } else {
      assert q1[r1..] == q[r..] + [q[0]];
      assert q1[..r1] == q[1..r];
      assert q[..r] == [q[0]] + q[1..r];
    }
  }

  lemma RemainderStep(a: nat, n: nat)
    requires a > 0 && n > 0
    ensures a % n == if (a - 1) % n + 1 == n then 0 else (a - 1) % n + 1
  {
    var q, r := (a - 1) / n, (a - 1) % n;
    assert a - 1 == q * n + r;
    if r + 1 == n {
      assert (q + 1) * n == q * n + n;
      DivModUnique(a, q + 1, 0, n);
    } else {
      DivModUnique(a, q, r + 1, n);
    }
  }

  // --------------------------------------------------- one queue per sleeper

  /** No thread is queued twice, in one queue or in two, and exactly the sleeping ones are queued. */
  ghost predicate Unique(m: map<Addr, seq<Tid>>) {
    forall a, b, i, j ::
      a in m && b in m && 0 <= i < |m[a]| && 0 <= j < |m[b]| && m[a][i] == m[b][j] ==> a == b && i == j
  }

  ghost predicate IsQueued(m: map<Addr, seq<Tid>>, t: Tid) {
    exists a :: a in m && t in m[a]
  }

  ghost predicate Valid(f: Table) {
    && Unique(f.queues)
    && forall t :: t in f.asleep <==> IsQueued(f.queues, t)
  }

  lemma PushKeeps(m: map<Addr, seq<Tid>>, a: Addr, t: Tid)
    requires Unique(m) && !IsQueued(m, t)
    ensures Unique(Pushed(m, a, t))
    ensures forall u :: IsQueued(Pushed(m, a, t), u) <==> u == t || IsQueued(m, u)
  {
    var m' := Pushed(m, a, t);
    assert m'[a][|m'[a]| - 1] == t;
    forall u ensures IsQueued(m', u) <==> u == t || IsQueued(m, u) {
      if IsQueued(m, u) {
        var x :| x in m && u in m[x];
        assert x in m' && u in m'[x];
      }
      if IsQueued(m', u) && u != t {
        var x :| x in m' && u in m'[x];
        assert x in m && u in m[x];
      }
    }
    forall x, i | x in m && 0 <= i < |m[x]| ensures m[x][i] != t {
      assert m[x][i] in m[x];
    }
  }

  lemma PopKeeps(m: map<Addr, seq<Tid>>, a: Addr)
    requires a in m && m[a] != [] && Unique(m)
    ensures Unique(Popped(m, a))
    ensures forall u :: IsQueued(Popped(m, a), u) <==> u != m[a][0] && IsQueued(m, u)
  {
    var m', h := Popped(m, a), m[a][0];
    forall u ensures IsQueued(m', u) <==> u != h && IsQueued(m, u) {
      if IsQueued(m, u) && u != h {
        var x :| x in m && u in m[x];
        if x == a {
          assert m[a] == [h] + m'[a];
        }
        assert x in m' && u in m'[x];
      }
      if IsQueued(m', u) {
        var x :| x in m' && u in m'[x];
        var i :| 0 <= i < |m'[x]| && m'[x][i] == u;
        assert m[x][if x == a then i + 1 else i] == u;
        assert u in m[x];
      }
    }
  }

  lemma DropKeeps(m: map<Addr, seq<Tid>>, t: Tid)
    requires Unique(m)
    ensures Unique(Dropped(m, t))
    ensures forall u :: IsQueued(Dropped(m, t), u) <==> u != t && IsQueued(m, u)
  {
    var m' := Dropped(m, t);
    forall u ensures IsQueued(m', u) <==> u != t && IsQueued(m, u) {
      if IsQueued(m, u) && u != t {
        var x :| x in m && u in m[x];
        assert x in m' && u in m'[x];
      }
    }
    forall x | x in m ensures NoDup(m'[x]) {
      assert NoDup(m[x]);
    }
    forall x, y, i, j | x in m && y in m && 0 <= i < |m'[x]| && 0 <= j < |m'[y]| && m'[x][i] == m'[y][j]
      ensures x == y && i == j
    {
      assert m'[x][i] in m[x] && m'[y][j] in m[y];
      assert x == y;
      assert NoDup(m'[x]);
    }
  }

  lemma MoveOneKeeps(m: map<Addr, seq<Tid>>, a: Addr, b: Addr)
    requires a in m && b in m && m[a] != [] && Unique(m)
    ensures Unique(MoveOne(m, a, b))
    ensures forall t :: IsQueued(MoveOne(m, a, b), t) <==> IsQueued(m, t)
  {
    assert m[a][0] in m[a];
    PopKeeps(m, a);
    hide Unique;
    PushKeeps(Popped(m, a), b, m[a][0]);
  }

  lemma {:induction false} MovesKeep(m: map<Addr, seq<Tid>>, a: Addr, b: Addr, nr: int)
    requires a in m && b in m && Unique(m)
    ensures Unique(Moves(m, a, b, nr))
    ensures forall t :: IsQueued(Moves(m, a, b, nr), t) <==> IsQueued(m, t)
    decreases if nr > 0 then nr else 0
  {
    if nr > 0 && m[a] != [] {
      MoveOneKeeps(m, a, b);
      MovesKeep(MoveOne(m, a, b), a, b, nr - 1);
    }
  }

  lemma FreedKeeps(m: map<Addr, seq<Tid>>, a: Addr)
    requires Unique(m)
    ensures Unique(Freed(m, a)) && forall t :: IsQueued(Freed(m, a), t) <==> IsQueued(m, t)
  {
    forall t ensures IsQueued(Freed(m, a), t) <==> IsQueued(m, t) {
      if IsQueued(m, t) {
        var x :| x in m && t in m[x];
        assert x in Freed(m, a);
      }
    }
  }

  lemma WithEntryKeeps(m: map<Addr, seq<Tid>>, b: Addr)
    requires Unique(m)
    ensures Unique(WithEntry(m, b)) && forall t :: IsQueued(WithEntry(m, b), t) <==> IsQueued(m, t)
  {
    var m' := WithEntry(m, b);
    forall t ensures IsQueued(m', t) <==> IsQueued(m, t) {
      if IsQueued(m, t) {
        var x :| x in m && t in m[x];
        assert x in m' && t in m'[x];
      }
    }
  }

  lemma RequeueKeepsValid(f: Table, a: Addr, b: Addr, nr: int)
    requires Valid(f)
    ensures Valid(Requeue(f, a, b, nr))
  {
    if a in f.queues {
      var m := WithEntry(f.queues, b);
      WithEntryKeeps(f.queues, b);
      MovesKeep(m, a, b, nr);
      FreedKeeps(Moves(m, a, b, nr), a);
    }
  }

  lemma EnqueueKeepsValid(f: Table, a: Addr, t: Tid)
    requires Valid(f) && t !in f.asleep
    ensures Valid(Enqueue(f, a, t))
  {
    PushKeeps(f.queues, a, t);
  }

  lemma WakeKeepsValid(f: Table, a: Addr, nr: int)
    requires Valid(f)
    ensures Valid(Wake(f, a, nr))
  {
    if a in f.queues {
      var q := f.queues[a];
      var k := Count(nr, |q|);
      var m1 := f.queues[a := q[k..]];
      assert Unique(m1);
      forall t ensures IsQueued(m1, t) <==> IsQueued(f.queues, t) && t !in q[..k] {
        if IsQueued(f.queues, t) && t !in q[..k] {
          var x :| x in f.queues && t in f.queues[x];
          if x == a {
            assert q == q[..k] + q[k..];
          }
          assert x in m1 && t in m1[x];
        }
        if IsQueued(m1, t) {
          var x :| x in m1 && t in m1[x];
          assert t in f.queues[x];
        }
      }
      FreedKeeps(m1, a);
    }
  }

  // ------------------------------------------------------ the table in place

  class FutexTable {
    var queues: map<Addr, seq<Tid>>
    var asleep: set<Tid>

    function View(): Table
      reads this
    {
      Table(queues, asleep)
    }

    constructor ()
      ensures View() == Table(map[], {}) && Valid(View())
    {
      queues, asleep := map[], {};
    }

    /**
     `futex_wait` of thread `t`; `word` is what `copyin` read at the address, if it could.
     `timed` says that a timeout was given and `expired` is what the scheduler reports when
     the thread runs again.
     */
    method FutexWait(a: Addr, expected: nat, word: Option<nat>, t: Tid, timed: bool, expired: bool)
      returns (ret: int)
      requires Valid(View()) && t !in asleep
      modifies this
      ensures Valid(View())
      ensures ret == if word == None || (word.value == expected && timed && expired) then -1 else 0
      ensures word == Some(expected) ==>
                asleep == old(asleep) + {t} && queues == old(queues)[a := Queue(old(queues), a) + [t]]
      ensures word != Some(expected) ==> asleep == old(asleep) && queues == old(queues)
      ensures View() == if word == Some(expected) then Enqueue(old(View()), a, t) else old(View())
    {
      EnqueueKeepsValid(View(), a, t);
      hide Valid;
      if word == None {
        return -1;
      }
      if word.value == expected {
        if a !in queues {
          queues := queues[a := []];
        }
        asleep := asleep + {t};
        queues := queues[a := queues[a] + [t]];
        assert View() == Enqueue(old(View()), a, t);
        if timed {
          return if expired then -1 else 0;
        }
      }
      return 0;
    }

    method FutexWakeup(a: Addr, nr: int) returns (ret: int)
      requires Valid(View())
      modifies this
      ensures Valid(View())
      ensures View() == Wake(old(View()), a, nr)
      ensures ret == if nr <= 0 then 0 else if nr < |Queue(old(queues), a)| then nr else |Queue(old(queues), a)|
      ensures Queue(queues, a) == Queue(old(queues), a)[ret..]
      ensures a in queues <==> ret < |Queue(old(queues), a)|
      ensures forall x :: x != a ==> (x in queues <==> x in old(queues)) && Queue(queues, x) == Queue(old(queues), x)
      ensures forall t :: t in asleep <==> t in old(asleep) && t !in Queue(old(queues), a)[..ret]
    {
      WakeKeepsValid(View(), a, nr);
      hide Valid;
      if a !in queues {
        return 0;
      }
      ghost var q, m, sleepers := queues[a], queues, asleep;
      ret := 0;
      while queues[a] != [] && ret < nr
        invariant a in queues && 0 <= ret <= |q| && (ret == 0 || ret <= nr)
        invariant queues == m[a := q[ret..]]
        invariant asleep == sleepers - set t | t in q[..ret]
        decreases |queues[a]|
      {
        var t := queues[a][0];
        assert t == q[ret] && q[..ret + 1] == q[..ret] + [t];
        queues := queues[a := queues[a][1..]];
        asleep := asleep - {t};
        ret := ret + 1;
      }
      if queues[a] == [] {
        queues := queues - {a};
      }
    }

    /** One waiter goes from the front of one queue to the back of the other. */
    method MoveWaiter(a: Addr, b: Addr)
      requires a in queues && b in queues && queues[a] != []
      modifies this`queues
      ensures queues == MoveOne(old(queues), a, b)
    {
      var t := queues[a][0];
      queues := queues[a := queues[a][1..]];
      queues := queues[b := queues[b] + [t]];
    }

    /** The loop of `futex_requeue`. */
    method MoveWaiters(a: Addr, b: Addr, nr: int) returns (ret: int)
      requires a in queues && b in queues
      modifies this`queues
      ensures queues == Moves(old(queues), a, b, nr) && ret == |Moved(old(queues), a, b, nr)|
    {
      hide Moves, Moved, MoveOne;
      ret := 0;
      while queues[a] != [] && ret < nr
        invariant a in queues && b in queues && ret >= 0
        invariant Moves(queues, a, b, nr - ret) == Moves(old(queues), a, b, nr)
        invariant ret + |Moved(queues, a, b, nr - ret)| == |Moved(old(queues), a, b, nr)|
        decreases nr - ret
      {
        MovesStep(queues, a, b, nr - ret);
        MoveWaiter(a, b);
        ret := ret + 1;
      }
      MovesEnd(queues, a, b, nr - ret);
    }

    /** The second critical section of `futex_requeue`. */
    method RequeueSection(a: Addr, b: Addr, nr: int) returns (ret: int)
      requires Valid(View())
      modifies this
      ensures Valid(View())
      ensures View() == Requeue(old(View()), a, b, nr)
      ensures a in old(queues) ==> ret == |Moved(WithEntry(old(queues), b), a, b, nr)|
      ensures a !in old(queues) ==> ret == 0
    {
      RequeueKeepsValid(View(), a, b, nr);
      hide Valid, Moves, Moved, MoveOne;
      if a !in queues {
        return 0;
      }
      if b !in queues {
        queues := queues[b := []];
      }
      ret := MoveWaiters(a, b, nr);
      if queues[a] == [] {
        queues := queues - {a};
      }
    }

    /**
     `futex_requeue`: wake some, then move some of the rest. Another thread may run in between;
     here none does.
     */
    method FutexRequeue(a: Addr, nrWake: int, b: Addr, nrRequeue: int) returns (ret: int)
      requires Valid(View())
      modifies this
      ensures Valid(View())
      ensures View() == Requeue(Wake(old(View()), a, nrWake), a, b, nrRequeue)
      ensures var m := Wake(old(View()), a, nrWake).queues;
              ret == if a in m then |Moved(WithEntry(m, b), a, b, nrRequeue)| else 0
    {
      var woken := FutexWakeup(a, nrWake);
      ret := RequeueSection(a, b, nrRequeue);
    }
  }
}
