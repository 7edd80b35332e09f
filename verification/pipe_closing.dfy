/**
 Closing one end of a pipe while any number of threads wait at the other. The close
 signals the semaphore once, and afterwards nobody is left to signal it, so what can
 still be released is decided by counting waiters and tokens.
 */
module PipeClosing {
  import opened Common
  import opened PipeRing
  import opened PipeRuns

  ghost predicate Reachable(s: State) {
    exists es :: Legal(Init, es) && s == Exec(Init, es)
  }

  lemma {:induction false} Then(s: State, e: Event, rest: seq<Event>)
    requires Enabled(s, e) && Legal(Apply(s, e), rest)
    ensures Legal(s, [e] + rest) && Exec(s, [e] + rest) == Exec(Apply(s, e), rest)
  {
    assert ([e] + rest)[1..] == rest;
  }

  // ------------------------------------------------------- the write end closed

  ghost function WaitingReaders(m: map<Tid, Reader>): set<Tid> {
    set t | t in m && m[t].ReadWaiting?
  }

  /** The write end is closed and no write is in progress. */
  ghost predicate NoMoreData(s: State) { !s.writeOpen && s.writers == map[] }

  ghost predicate NoWriteCall(es: seq<Event>) { forall i :: 0 <= i < |es| ==> !es[i].WriteCall? }

  /** Waiters without a token: no step changes their number. */
  lemma StepKeepsReadDebt(s: State, e: Event)
    requires NoMoreData(s) && Enabled(s, e) && !e.WriteCall?
    ensures var s' := Apply(s, e);
            NoMoreData(s') && |WaitingReaders(s'.readers)| - s'.readSem == |WaitingReaders(s.readers)| - s.readSem
  {
    var s' := Apply(s, e);
    if e.ReadCall? || e.ReadToken? || e.ReadResume? {
      SizesDifferAt(WaitingReaders(s.readers), WaitingReaders(s'.readers), e.t);
    }
  }

  lemma {:induction false} RunKeepsReadDebt(s: State, es: seq<Event>)
    requires NoMoreData(s) && Legal(s, es) && NoWriteCall(es)
    ensures var s' := Exec(s, es);
            NoMoreData(s') && |WaitingReaders(s'.readers)| - s'.readSem == |WaitingReaders(s.readers)| - s.readSem
    decreases |es|
  {
    if es != [] {
      StepKeepsReadDebt(s, es[0]);
      assert forall i :: 0 <= i < |es[1..]| ==> es[1..][i] == es[i + 1];
      RunKeepsReadDebt(Apply(s, es[0]), es[1..]);
    }
  }

  /** With a token for every waiter all reads can be brought to an end. */
  lemma {:induction false} ReleaseReaders(s: State) returns (es: seq<Event>)
    requires NoMoreData(s) && |WaitingReaders(s.readers)| <= s.readSem
    ensures Legal(s, es) && NoWriteCall(es) && Exec(s, es).readers == map[]
    decreases |WaitingReaders(s.readers)|, |s.readers|
  {
    if s.readers == map[] {
      es := [];
    } else {
      var e: Event;
      if WaitingReaders(s.readers) != {} {
        var t :| t in WaitingReaders(s.readers);
        e := ReadToken(t);
        assert WaitingReaders(Apply(s, e).readers) == WaitingReaders(s.readers) - {t};
      } else {
        var t :| t in s.readers;
        assert t !in WaitingReaders(s.readers);
        e := ReadResume(t, 0);
        assert WaitingReaders(Apply(s, e).readers) == {};
        assert Apply(s, e).readers.Keys == s.readers.Keys - {t};
      }
      StepKeepsReadDebt(s, e);
      var rest := ReleaseReaders(Apply(s, e));
      Then(s, e, rest);
      es := [e] + rest;
    }
  }

  /**
   Once the write end is closed and no write is in progress, all readers can still be
   released exactly when there is a token for every one that waits.
   */
  lemma {:induction false} ReadersAreReleasedIff(s: State)
    requires Reachable(s) && NoMoreData(s)
    ensures (exists es :: Legal(s, es) && NoWriteCall(es) && Exec(s, es).readers == map[])
            <==> |WaitingReaders(s.readers)| <= s.readSem
  {
    if es :| Legal(s, es) && NoWriteCall(es) && Exec(s, es).readers == map[] {
      RunKeepsReadDebt(s, es);
      assert WaitingReaders(Exec(s, es).readers) == {};
    }
    if |WaitingReaders(s.readers)| <= s.readSem {
      var es := ReleaseReaders(s);
    }
  }

  /** Otherwise at least the difference waits for ever, whatever happens next. */
  lemma {:induction false} ReadersWithoutTokenStay(s: State, es: seq<Event>)
    requires NoMoreData(s) && Legal(s, es) && NoWriteCall(es)
    ensures |WaitingReaders(Exec(s, es).readers)| >= |WaitingReaders(s.readers)| - s.readSem
  {
    RunKeepsReadDebt(s, es);
  }

  /** Closing the write end releases all readers exactly when at most one of them has no token before. */
  lemma {:induction false} CloseWriteReleasesAllIff(s: State)
    requires Reachable(s) && Enabled(s, CloseWrite) && s.writers == map[]
    ensures var s' := Apply(s, CloseWrite);
            (exists es :: Legal(s', es) && NoWriteCall(es) && Exec(s', es).readers == map[])
            <==> |WaitingReaders(s.readers)| <= s.readSem + 1
  {
    ReachableStep(s, CloseWrite);
    ReadersAreReleasedIff(Apply(s, CloseWrite));
  }

  // -------------------------------------------------------- the read end closed

  ghost function WaitingWriters(m: map<Tid, Writer>): set<Tid> {
    set t | t in m && m[t].WriteWaiting?
  }

  /** The read end is closed and no read is in progress. */
  ghost predicate NoMoreSpace(s: State) { !s.readOpen && s.readers == map[] }

  ghost predicate NoReadCall(es: seq<Event>) { forall i :: 0 <= i < |es| ==> !es[i].ReadCall? }

  lemma StepKeepsWriteDebt(s: State, e: Event)
    requires NoMoreSpace(s) && Enabled(s, e) && !e.ReadCall?
    ensures var s' := Apply(s, e);
            NoMoreSpace(s') && |WaitingWriters(s'.writers)| - s'.writeSem == |WaitingWriters(s.writers)| - s.writeSem
  {
    var s' := Apply(s, e);
    if e.WriteCall? || e.WriteToken? || e.WriteResume? {
      SizesDifferAt(WaitingWriters(s.writers), WaitingWriters(s'.writers), e.t);
    }
  }

  lemma {:induction false} RunKeepsWriteDebt(s: State, es: seq<Event>)
    requires NoMoreSpace(s) && Legal(s, es) && NoReadCall(es)
    ensures var s' := Exec(s, es);
            NoMoreSpace(s') && |WaitingWriters(s'.writers)| - s'.writeSem == |WaitingWriters(s.writers)| - s.writeSem
    decreases |es|
  {
    if es != [] {
      StepKeepsWriteDebt(s, es[0]);
      assert forall i :: 0 <= i < |es[1..]| ==> es[1..][i] == es[i + 1];
      RunKeepsWriteDebt(Apply(s, es[0]), es[1..]);
    }
  }

  lemma {:induction false} ReleaseWriters(s: State) returns (es: seq<Event>)
    requires Fifo(s) && NoMoreSpace(s) && |WaitingWriters(s.writers)| <= s.writeSem
    ensures Legal(s, es) && NoReadCall(es) && Exec(s, es).writers == map[]
    decreases |WaitingWriters(s.writers)|, |s.writers|
  {
    if s.writers == map[] {
      es := [];
    } else {
      var e: Event;
      if WaitingWriters(s.writers) != {} {
        var t :| t in WaitingWriters(s.writers);
        e := WriteToken(t);
        assert WaitingWriters(Apply(s, e).writers) == WaitingWriters(s.writers) - {t};
      } else {
        var t :| t in s.writers;
        assert t !in WaitingWriters(s.writers);
        e := WriteResume(t, 0);
        assert WaitingWriters(Apply(s, e).writers) == {};
        assert Apply(s, e).writers.Keys == s.writers.Keys - {t};
      }
      StepKeepsWriteDebt(s, e);
      StepKeepsFifo(s, e);
      var rest := ReleaseWriters(Apply(s, e));
      Then(s, e, rest);
      es := [e] + rest;
    }
  }

  /** The mirror image: all writers can be released exactly when there is a token for every one that waits. */
  lemma {:induction false} WritersAreReleasedIff(s: State)
    requires Reachable(s) && NoMoreSpace(s)
    ensures (exists es :: Legal(s, es) && NoReadCall(es) && Exec(s, es).writers == map[])
            <==> |WaitingWriters(s.writers)| <= s.writeSem
  {
    ReachableFifo(s);
    if es :| Legal(s, es) && NoReadCall(es) && Exec(s, es).writers == map[] {
      RunKeepsWriteDebt(s, es);
      assert WaitingWriters(Exec(s, es).writers) == {};
    }
    if |WaitingWriters(s.writers)| <= s.writeSem {
      var es := ReleaseWriters(s);
    }
  }

  lemma {:induction false} WritersWithoutTokenStay(s: State, es: seq<Event>)
    requires NoMoreSpace(s) && Legal(s, es) && NoReadCall(es)
    ensures |WaitingWriters(Exec(s, es).writers)| >= |WaitingWriters(s.writers)| - s.writeSem
  {
    RunKeepsWriteDebt(s, es);
  }

  lemma {:induction false} CloseReadReleasesAllIff(s: State)
    requires Reachable(s) && Enabled(s, CloseRead) && s.readers == map[]
    ensures var s' := Apply(s, CloseRead);
            (exists es :: Legal(s', es) && NoReadCall(es) && Exec(s', es).writers == map[])
            <==> |WaitingWriters(s.writers)| <= s.writeSem + 1
  {
    ReachableStep(s, CloseRead);
    WritersAreReleasedIff(Apply(s, CloseRead));
  }

  // --------------------------------------------------------- reachable states

  lemma {:induction false} Append(s: State, es: seq<Event>, e: Event)
    requires Legal(s, es) && Enabled(Exec(s, es), e)
    ensures Legal(s, es + [e]) && Exec(s, es + [e]) == Apply(Exec(s, es), e)
    decreases |es|
  {
    if es == [] {
      Then(s, e, []);
    } else {
      Append(Apply(s, es[0]), es[1..], e);
      assert (es + [e])[1..] == es[1..] + [e];
    }
  }

  lemma ReachableStep(s: State, e: Event)
    requires Reachable(s) && Enabled(s, e)
    ensures Reachable(Apply(s, e))
  {
    var es :| Legal(Init, es) && s == Exec(Init, es);
    Append(Init, es, e);
  }

  lemma ReachableFifo(s: State)
    requires Reachable(s)
    ensures Fifo(s)
  {
    var es :| Legal(Init, es) && s == Exec(Init, es);
    RunKeepsFifo(Init, es);
  }

  /** Two readers call on an empty pipe. */
  ghost const TwoReaders := State([], true, true, 0, 0, map[1 := ReadWaiting(1), 2 := ReadWaiting(1)], map[], [], [])

  /** The failing case exists: two readers waiting without tokens cannot both be released by the close. */
  lemma SecondReaderIsStranded()
    ensures Reachable(TwoReaders) && Enabled(TwoReaders, CloseWrite)
    ensures var s := Apply(TwoReaders, CloseWrite);
            forall es :: Legal(s, es) && NoWriteCall(es) ==> WaitingReaders(Exec(s, es).readers) != {}
  {
    var s1 := State([], true, true, 0, 0, map[1 := ReadWaiting(1)], map[], [], []);
    assert Legal(Init, []) && Init == Exec(Init, []);
    ReachableStep(Init, ReadCall(1, 1, 1));
    assert Apply(Init, ReadCall(1, 1, 1)) == s1;
    ReachableStep(s1, ReadCall(2, 1, 1));
    assert Apply(s1, ReadCall(2, 1, 1)) == TwoReaders;
    var s := Apply(TwoReaders, CloseWrite);
    assert WaitingReaders(s.readers) == {1, 2};
    forall es | Legal(s, es) && NoWriteCall(es)
      ensures WaitingReaders(Exec(s, es).readers) != {}
    {
      ReadersWithoutTokenStay(s, es);
    }
  }

  ghost function Bytes(n: nat): (q: seq<bv8>)
    ensures |q| == n
  {
    seq(n, _ => 0)
  }

  /** Two writers have filled the pipe and have more to write. */
  ghost const TwoWriters := State(Bytes(PIPESIZE), true, true, 2, 0, map[],
    map[1 := WriteWaiting(Bytes(PIPESIZE + 1), PIPESIZE), 2 := WriteWaiting(Bytes(1), 0)], Bytes(PIPESIZE), [])

  lemma TwoWritersAreReachable()
    ensures Reachable(TwoWriters)
  {
    hide Bytes;
    var e1, e2 := WriteCall(1, Bytes(PIPESIZE + 1), PIPESIZE + 1), WriteCall(2, Bytes(1), 1);
    var s1 := TwoWriters.(readSem := 1, writers := map[1 := WriteWaiting(Bytes(PIPESIZE + 1), PIPESIZE)]);
    FirstFills();
    assert Legal(Init, []) && Init == Exec(Init, []);
    ReachableStep(Init, e1);
    assert Apply(Init, e1) == s1;
    ReachableStep(s1, e2);
    assert [] + Bytes(1)[0..0] == [] && Bytes(PIPESIZE) + Bytes(1)[0..0] == Bytes(PIPESIZE);
    assert Apply(s1, e2) == TwoWriters;
  }

  lemma FirstFills()
    ensures var src := Bytes(PIPESIZE + 1);
            Fill([], src, 0, PIPESIZE + 1) == (Bytes(PIPESIZE), PIPESIZE) && src[0..PIPESIZE] == Bytes(PIPESIZE)
  {
    var src := Bytes(PIPESIZE + 1);
    var r := Fill([], src, 0, PIPESIZE + 1);
    assert |r.0| == r.1;
    assert r.0 == src[0..r.1] == Bytes(PIPESIZE);
  }

  /** The mirror image: two writers waiting without tokens cannot both be released by closing the read end. */
  lemma SecondWriterIsStranded()
    ensures Reachable(TwoWriters) && Enabled(TwoWriters, CloseRead)
    ensures var s := Apply(TwoWriters, CloseRead);
            forall es :: Legal(s, es) && NoReadCall(es) ==> WaitingWriters(Exec(s, es).writers) != {}
  {
    hide Bytes;
    TwoWritersAreReachable();
    var s := Apply(TwoWriters, CloseRead);
    assert WaitingWriters(s.writers) == {1, 2};
    forall es | Legal(s, es) && NoReadCall(es)
      ensures WaitingWriters(Exec(s, es).writers) != {}
    {
      WritersWithoutTokenStay(s, es);
    }
  }
}
