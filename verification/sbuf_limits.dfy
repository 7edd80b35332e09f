/**
 Where the bounded buffer stops being a queue: runs, built step by step, in which a wrong
 byte is handed out after the counter has wrapped, or an item is given up by a consumer
 that another one overtakes between its two unlocked reads.
 */
module SbufLimits {
  import opened Common
  import opened SbufRing
  import opened SbufRuns

  // --------------------------------------------------------- reachable states

  lemma {:induction false} Append(s: State, es: seq<Event>, e: Event)
    requires Legal(s, es) && Enabled(Exec(s, es), e)
    ensures Legal(s, es + [e]) && Exec(s, es + [e]) == Apply(Exec(s, es), e)
    decreases |es|
  {
    if es == [] {
      assert [e][1..] == [];
    } else {
      Append(Apply(s, es[0]), es[1..], e);
      assert (es + [e])[1..] == es[1..] + [e];
    }
  }

  lemma Next(s: State, e: Event)
    requires Reachable(s) && Enabled(s, e)
    ensures Reachable(Apply(s, e))
  {
    var b, es :| Initial(b) && Legal(b, es) && s == Exec(b, es);
    Append(b, es, e);
  }

  lemma NextIs(s: State, e: Event, s': State)
    requires Reachable(s) && Enabled(s, e) && Apply(s, e) == s'
    ensures Reachable(s')
  {
    Next(s, e);
  }

  /** The state after one more byte has been stored by a thread that came and went. */
  ghost function WithByte(s: State, x: bv8): State
    requires |s.buf| == s.n > 0 && s.slots > 0
  {
    s.(slots := s.slots - 1, items := s.items + 1, inserted := s.inserted + [x],
       buf := s.buf[Slot(|s.inserted|, s.n) := x])
  }

  lemma InsertOne(s: State, t: Tid, x: bv8)
    requires Reachable(s) && t !in s.threads && s.slots > 0 && |s.buf| == s.n > 0
    ensures Reachable(WithByte(s, x))
  {
    hide Slot, Reachable;
    var m := s.threads;
    var s1 := s.(slots := s.slots - 1, threads := m[t := InsertGranted(x)]);
    NextIs(s, SlotGranted(t, x), s1);
    var s2 := s1.(inserted := s.inserted + [x], buf := s.buf[Slot(|s.inserted|, s.n) := x],
                  threads := m[t := InsertStored]);
    assert s1.threads[t := InsertStored] == m[t := InsertStored];
    NextIs(s1, Store(t, true), s2);
    assert s2.threads - {t} == m;
    NextIs(s2, SignalItem(t), WithByte(s, x));
  }

  /** The state after one byte has been taken by a thread that came and went. */
  ghost function WithoutByte(s: State): State
    requires |s.buf| == s.n > 0 && s.items > 0
  {
    s.(slots := s.slots + 1, items := s.items - 1, removed := s.removed + [s.buf[Slot(|s.removed|, s.n)]])
  }

  lemma RemoveOne(s: State, t: Tid)
    requires Reachable(s) && t !in s.threads && s.items > 0 && |s.buf| == s.n > 0
    requires |s.removed| % WRAP != |s.inserted| % WRAP
    ensures Reachable(WithoutByte(s))
  {
    hide Slot, Reachable;
    var m := s.threads;
    var s1 := s.(items := s.items - 1, threads := m[t := RemoveGranted]);
    NextIs(s, ItemGranted(t), s1);
    var s2 := s1.(threads := m[t := SawR(|s.removed|)]);
    assert s1.threads[t := SawR(|s.removed|)] == s2.threads;
    NextIs(s1, ReadFirst(t, true), s2);
    var s3 := s2.(threads := m[t := RemoveChecked]);
    assert s2.threads[t := RemoveChecked] == s3.threads;
    NextIs(s2, ReadSecond(t), s3);
    var s4 := s3.(removed := s.removed + [s.buf[Slot(|s.removed|, s.n)]], threads := m[t := RemoveTaken]);
    assert s3.threads[t := RemoveTaken] == s4.threads;
    NextIs(s3, Take(t, true), s4);
    assert s4.threads - {t} == m;
    NextIs(s4, SignalSlot(t), WithoutByte(s));
  }

  // ------------------------------------------------------ past the first wrap

  /** Nobody in progress, nothing unread, and c bytes gone through. */
  ghost predicate Idle(s: State, n: nat, c: nat) {
    && Reachable(s) && s.n == n == |s.buf| && s.slots == n && s.items == 0 && s.threads == map[]
    && |s.inserted| == |s.removed| == c
  }

  /** Any number of bytes can go through. */
  lemma {:induction false} Pump(n: nat, c: nat) returns (s: State)
    requires n > 0
    ensures Idle(s, n, c) && s.dropped == 0
    decreases c
  {
    if c == 0 {
      s := State(n, n, 0, [], [], seq(n, _ => 0), map[], 0, 0);
      assert Initial(s) && Legal(s, []) && s == Exec(s, []);
    } else {
      var s0 := Pump(n, c - 1);
      InsertOne(s0, 0, 0);
      var s1 := WithByte(s0, 0);
      SameRemainderIff(c - 1, c);
      RemoveOne(s1, 0);
      s := WithoutByte(s1);
      hide Slot, Reachable;
    }
  }

  /** Zeros stored on top of an idle buffer. */
  lemma {:induction false} StoreZeros(s: State, k: nat) returns (s': State)
    requires Reachable(s) && s.threads == map[] && |s.buf| == s.n > 0 && s.slots >= k
    ensures Reachable(s') && s'.n == s.n && |s'.buf| == s.n && s'.threads == map[]
    ensures s'.slots == s.slots - k && s'.items == s.items + k && s'.removed == s.removed
    ensures |s'.inserted| == |s.inserted| + k && s.inserted <= s'.inserted
    ensures forall i :: |s.inserted| <= i < |s'.inserted| ==> s'.inserted[i] == 0
    decreases k
  {
    if k == 0 {
      s' := s;
    } else {
      InsertOne(s, 0, 0);
      hide Slot, Reachable;
      s' := StoreZeros(WithByte(s, 0), k - 1);
    }
  }

  /**
   A wrong byte. If the capacity does not divide 2^32, some run with every copy succeeding
   and every consumer reading r first hands out a byte that is not the one stored there.
   */
  lemma WrongByteIsDelivered(n: nat) returns (s: State)
    requires 0 < n <= WRAP && WRAP % n != 0
    ensures Reachable(s) && s.n == n && !(s.removed <= s.inserted)
  {
    var i := LastMultiple(n);
    var s0 := Pump(n, i);
    var s1 := StoreZeros(s0, WRAP - i);
    InsertOne(s1, 0, 1);
    var s2 := WithByte(s1, 1);
    SameRemainderIff(i, WRAP + 1);
    RemoveOne(s2, 0);
    s := WithoutByte(s2);
    hide Slot, Reachable;
    assert s.removed[i] == 1 && s.inserted[i] == 0;
  }

  /** Bytes come out in order in every run, however long, exactly when the capacity divides 2^32. */
  lemma OrderLastsForEverIff(n: nat)
    requires 0 < n <= WRAP
    ensures (forall s :: Reachable(s) && s.n == n ==> s.removed <= s.inserted) <==> WRAP % n == 0
  {
    if WRAP % n == 0 {
      forall s | Reachable(s) && s.n == n ensures s.removed <= s.inserted {
        BytesComeOutInOrder(s);
      }
    } else {
      var s := WrongByteIsDelivered(n);
    }
  }

  // --------------------------------------------------------- the unlocked test

  /** With one slot, whoever holds an item is alone, so neither counter moves between its reads. */
  ghost predicate AloneInv(s: State) {
    && s.dropped == 0
    && forall t :: t in s.threads ==>
         (s.threads[t].SawR? ==> s.threads[t].v == |s.removed|)
         && (s.threads[t].SawW? ==> s.threads[t].v == |s.inserted|)
  }

  lemma OnlyHolder(s: State, t: Tid, u: Tid)
    requires Inv(s) && s.n == 1 && t in s.threads && u in s.threads && KindOf(s.threads[t]) == Removing
    ensures u == t
  {
    assert t in Of(s.threads, Removing);
    assert |Of(s.threads, Inserting)| == |Of(s.threads, Stored)| == |Of(s.threads, Taken)| == 0;
    SubsetSameSize({t}, Of(s.threads, Removing));
    assert u in Of(s.threads, KindOf(s.threads[u]));
  }

  lemma StepKeepsAlone(s: State, e: Event)
    requires Inv(s) && AloneInv(s) && s.n == 1 && Enabled(s, e)
    ensures AloneInv(Apply(s, e))
  {
    if e.ReadSecond? {
      HolderSeesAByte(s, e.t);
      SameRemainderIff(|s.removed|, |s.inserted|);
    }
    forall t | t in s.threads && (s.threads[t].SawR? || s.threads[t].SawW?) && e.t in s.threads
      ensures t == e.t
    {
      OnlyHolder(s, t, e.t);
    }
  }

  lemma {:induction false} RunKeepsAlone(s: State, es: seq<Event>)
    requires Inv(s) && AloneInv(s) && s.n == 1 && Legal(s, es)
    ensures AloneInv(Exec(s, es))
    decreases |es|
  {
    if es != [] {
      StepKeepsInv(s, es[0]);
      StepKeepsAlone(s, es[0]);
      RunKeepsAlone(Apply(s, es[0]), es[1..]);
    }
  }

  /** A consumer that read w is overtaken by another producer and another consumer, and gives its item up. */
  lemma OvertakenConsumer(n: nat) returns (s: State)
    requires n >= 2
    ensures Reachable(s) && s.n == n && s.dropped == 1 && |s.inserted| == 2
  {
    var s0 := Pump(n, 0);
    InsertOne(s0, 1, 7);
    var s1 := WithByte(s0, 7);
    var s2 := s1.(items := s1.items - 1, threads := map[2 := RemoveGranted]);
    NextIs(s1, ItemGranted(2), s2);
    var s3 := s2.(threads := map[2 := SawW(1)]);
    NextIs(s2, ReadFirst(2, false), s3);
    InsertOne(s3, 3, 8);
    var s4 := WithByte(s3, 8);
    RemoveOne(s4, 4);
    var s5 := WithoutByte(s4);
    hide Slot, Reachable;
    s := s5.(threads := s5.threads - {2}, dropped := s5.dropped + 1);
    NextIs(s5, ReadSecond(2), s);
  }

  /**
   When the order of the two reads is left open, an item can be given up exactly if there are
   at least two slots.
   */
  lemma TestCanFailIff(n: nat)
    requires n > 0
    ensures (exists s :: Reachable(s) && s.n == n && s.dropped > 0) <==> n >= 2
  {
    if n >= 2 {
      var s := OvertakenConsumer(n);
    } else {
      forall s | Reachable(s) && s.n == 1 ensures s.dropped == 0 {
        var b, es :| Initial(b) && Legal(b, es) && s == Exec(b, es);
        InitialInv(b);
        RunKeepsInv(b, es);
        RunKeepsAlone(b, es);
      }
    }
  }
}
