/**
 Several readers, or several writers, while both ends of a pipe stay open. A write signals
 the readers' semaphore once however many bytes it stores, and a read the writers' once
 however much space it makes, so a second thread can wait beside data or space.
 */
module PipeWaiting {
  import opened Common
  import opened PipeRing
  import opened PipeRuns
  import opened PipeClosing

  // -------------------------------------------------------------- readers

  /** Nobody writes or is writing, and the write end is not being closed. */
  ghost predicate NoWrites(es: seq<Event>) { forall e :: e in es ==> !e.WriteCall? && !e.CloseWrite? }

  /** Readers that wait beyond the tokens there are. */
  ghost function ReadDebt(s: State): int { |WaitingReaders(s.readers)| - s.readSem }

  /** Without writes it never falls: a token wakes one reader, and one who finds nothing waits again. */
  lemma ReadDebtGrows(s: State, e: Event)
    requires s.writers == map[] && Enabled(s, e) && !e.WriteCall? && !e.CloseWrite?
    ensures Apply(s, e).writers == map[] && ReadDebt(Apply(s, e)) >= ReadDebt(s)
  {
    var s' := Apply(s, e);
    if e.ReadCall? || e.ReadToken? || e.ReadResume? {
      SizesDifferAt(WaitingReaders(s.readers), WaitingReaders(s'.readers), e.t);
    }
  }

  lemma {:induction false} ReadDebtGrowsInRuns(s: State, es: seq<Event>)
    requires s.writers == map[] && Legal(s, es) && NoWrites(es)
    ensures ReadDebt(Exec(s, es)) >= ReadDebt(s)
    decreases |es|
  {
    if es != [] {
      assert es == [es[0]] + es[1..];
      ReadDebtGrows(s, es[0]);
      ReadDebtGrowsInRuns(Apply(s, es[0]), es[1..]);
    }
  }

  lemma {:induction false} WakeReaders(s: State) returns (es: seq<Event>)
    requires |WaitingReaders(s.readers)| <= s.readSem
    ensures Legal(s, es) && NoWrites(es) && WaitingReaders(Exec(s, es).readers) == {}
    decreases |WaitingReaders(s.readers)|
  {
    if WaitingReaders(s.readers) == {} {
      es := [];
    } else {
      var t :| t in WaitingReaders(s.readers);
      var e := ReadToken(t);
      assert WaitingReaders(Apply(s, e).readers) == WaitingReaders(s.readers) - {t};
      var rest := WakeReaders(Apply(s, e));
      Then(s, e, rest);
      es := [e] + rest;
    }
  }

  /**
   With no write in progress all waiting readers can still be woken without a further write
   exactly when there is a token for each of them, however much data the pipe holds.
   */
  lemma {:induction false} ReadersAreWokenIff(s: State)
    requires Reachable(s) && s.writers == map[]
    ensures (exists es :: Legal(s, es) && NoWrites(es) && WaitingReaders(Exec(s, es).readers) == {})
            <==> |WaitingReaders(s.readers)| <= s.readSem
  {
    if es :| Legal(s, es) && NoWrites(es) && WaitingReaders(Exec(s, es).readers) == {} {
      ReadDebtGrowsInRuns(s, es);
    }
    if |WaitingReaders(s.readers)| <= s.readSem {
      var es := WakeReaders(s);
    }
  }

  /** Of two waiting readers the first has been woken by a write of two bytes and has taken one. */
  ghost const BesideData := State([2], true, true, 0, 1, map[2 := ReadWaiting(1)], map[], [1, 2], [1])

  /** The two bytes have been written, and then the first reader has been woken. */
  ghost const AfterWrite := TwoReaders.(q := [1, 2], written := [1, 2], readSem := 1)
  ghost const AfterToken := AfterWrite.(readSem := 0, readers := map[1 := ReadWoken(1), 2 := ReadWaiting(1)])

  lemma BesideDataIsReachable()
    ensures Reachable(BesideData)
  {
    hide Apply, Enabled, Reachable;
    SecondReaderIsStranded();
    WritesTwo();
    WakesFirst();
    TakesOne();
    ReachableStep(TwoReaders, WriteCall(3, [1, 2], 2));
    ReachableStep(AfterWrite, ReadToken(1));
    ReachableStep(AfterToken, ReadResume(1, 1));
  }

  lemma WritesTwo()
    ensures Enabled(TwoReaders, WriteCall(3, [1, 2], 2)) && Apply(TwoReaders, WriteCall(3, [1, 2], 2)) == AfterWrite
  {
    hide Fill;
    var src: seq<bv8> := [1, 2];
    var r := Fill([], src, 0, 2);
    assert |r.0| == r.1 == 2;
    assert src[0..2] == src && [] + src == src;
  }

  lemma WakesFirst()
    ensures Enabled(AfterWrite, ReadToken(1)) && Apply(AfterWrite, ReadToken(1)) == AfterToken
  {
    hide Fill, Reading, Writing;
  }

  lemma TakesOne()
    ensures Enabled(AfterToken, ReadResume(1, 1)) && Apply(AfterToken, ReadResume(1, 1)) == BesideData
  {
    hide Fill, Writing;
    var q: seq<bv8> := [1, 2];
    assert q[..1] == [1] && q[1..] == [2];
  }

  /** The failing case exists: the second reader waits beside unread data until somebody writes again. */
  lemma SecondReaderWaitsBesideData()
    ensures Reachable(BesideData)
    ensures forall es :: Legal(BesideData, es) && NoWrites(es) ==> WaitingReaders(Exec(BesideData, es).readers) != {}
  {
    BesideDataIsReachable();
    assert WaitingReaders(BesideData.readers) == {2};
    forall es | Legal(BesideData, es) && NoWrites(es)
      ensures WaitingReaders(Exec(BesideData, es).readers) != {}
    {
      ReadDebtGrowsInRuns(BesideData, es);
    }
  }

  // -------------------------------------------------------------- writers

  ghost predicate NoReads(es: seq<Event>) { forall e :: e in es ==> !e.ReadCall? && !e.CloseRead? }

  ghost function WriteDebt(s: State): int { |WaitingWriters(s.writers)| - s.writeSem }

  lemma WriteDebtGrows(s: State, e: Event)
    requires s.readers == map[] && Enabled(s, e) && !e.ReadCall? && !e.CloseRead?
    ensures Apply(s, e).readers == map[] && WriteDebt(Apply(s, e)) >= WriteDebt(s)
  {
    var s' := Apply(s, e);
    if e.WriteCall? || e.WriteToken? || e.WriteResume? {
      SizesDifferAt(WaitingWriters(s.writers), WaitingWriters(s'.writers), e.t);
    }
  }

  lemma {:induction false} WriteDebtGrowsInRuns(s: State, es: seq<Event>)
    requires s.readers == map[] && Legal(s, es) && NoReads(es)
    ensures WriteDebt(Exec(s, es)) >= WriteDebt(s)
    decreases |es|
  {
    if es != [] {
      assert es == [es[0]] + es[1..];
      WriteDebtGrows(s, es[0]);
      WriteDebtGrowsInRuns(Apply(s, es[0]), es[1..]);
    }
  }

  lemma {:induction false} WakeWriters(s: State) returns (es: seq<Event>)
    requires |WaitingWriters(s.writers)| <= s.writeSem
    ensures Legal(s, es) && NoReads(es) && WaitingWriters(Exec(s, es).writers) == {}
    decreases |WaitingWriters(s.writers)|
  {
    if WaitingWriters(s.writers) == {} {
      es := [];
    } else {
      var t :| t in WaitingWriters(s.writers);
      var e := WriteToken(t);
      assert WaitingWriters(Apply(s, e).writers) == WaitingWriters(s.writers) - {t};
      var rest := WakeWriters(Apply(s, e));
      Then(s, e, rest);
      es := [e] + rest;
    }
  }

  /** The mirror image: without a further read all waiting writers can be woken exactly when each has a token. */
  lemma {:induction false} WritersAreWokenIff(s: State)
    requires Reachable(s) && s.readers == map[]
    ensures (exists es :: Legal(s, es) && NoReads(es) && WaitingWriters(Exec(s, es).writers) == {})
            <==> |WaitingWriters(s.writers)| <= s.writeSem
  {
    if es :| Legal(s, es) && NoReads(es) && WaitingWriters(Exec(s, es).writers) == {} {
      WriteDebtGrowsInRuns(s, es);
    }
    if |WaitingWriters(s.writers)| <= s.writeSem {
      var es := WakeWriters(s);
    }
  }

  /** A read has emptied the pipe on which two writers wait; its one token wakes only one of them. */
  ghost const BesideSpace :=
    TwoWriters.(q := [], taken := Bytes(PIPESIZE), writeSem := 1)

  /** The failing case exists: one of two writers waits beside an empty pipe until somebody reads again. */
  lemma SecondWriterWaitsBesideSpace()
    ensures Reachable(BesideSpace) && BesideSpace.q == []
    ensures forall es :: Legal(BesideSpace, es) && NoReads(es) ==> WaitingWriters(Exec(BesideSpace, es).writers) != {}
  {
    hide Bytes;
    TwoWritersAreReachable();
    var e := ReadCall(3, PIPESIZE, PIPESIZE);
    ReachableStep(TwoWriters, e);
    assert Bytes(PIPESIZE)[PIPESIZE..] == [] && Bytes(PIPESIZE)[..PIPESIZE] == Bytes(PIPESIZE);
    assert [] + Bytes(PIPESIZE) == Bytes(PIPESIZE);
    assert Apply(TwoWriters, e).readers == map[];
    assert Apply(TwoWriters, e) == BesideSpace;
    assert WaitingWriters(BesideSpace.writers) == {1, 2};
    forall es | Legal(BesideSpace, es) && NoReads(es)
      ensures WaitingWriters(Exec(BesideSpace, es).writers) != {}
    {
      WriteDebtGrowsInRuns(BesideSpace, es);
    }
  }
}
