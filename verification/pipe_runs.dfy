/**
 Readers and writers of one pipe under every interleaving. One step is one critical
 section of the pipe's lock or one return of `sema_wait`; the two semaphores are the
 counting semaphores that `Semaphores.RefinesCountingSemaphore` justifies.
 */
module PipeRuns {
  import opened PipeRing

  type Tid = nat

  /**
   A reader or writer that released the pipe's lock: in `sema_wait`, or back from it before
   retaking the lock.
   */
  datatype Reader = ReadWaiting(n: nat) | ReadWoken(n: nat)
  datatype Writer = WriteWaiting(src: seq<bv8>, i: nat) | WriteWoken(src: seq<bv8>, i: nat)

  datatype State = State(
    q: seq<bv8>, readOpen: bool, writeOpen: bool, readSem: nat, writeSem: nat,
    readers: map<Tid, Reader>, writers: map<Tid, Writer>,
    written: seq<bv8>, taken: seq<bv8>)  // history: bytes stored and bytes handed out, in order

  datatype Event =
    | ReadCall(t: Tid, n: nat, fault: nat)
    | ReadToken(t: Tid)
    | ReadResume(t: Tid, fault: nat)
    | WriteCall(t: Tid, src: seq<bv8>, fault: nat)
    | WriteToken(t: Tid)
    | WriteResume(t: Tid, fault: nat)
    | CloseRead
    | CloseWrite

  ghost const Init := State([], true, true, 0, 0, map[], map[], [], [])

  ghost predicate Enabled(s: State, e: Event) {
    match e
    case ReadCall(t, n, fault) => t !in s.readers && t !in s.writers
    case ReadToken(t) => t in s.readers && s.readers[t].ReadWaiting? && s.readSem > 0
    case ReadResume(t, fault) => t in s.readers && s.readers[t].ReadWoken?
    case WriteCall(t, src, fault) => t !in s.readers && t !in s.writers
    case WriteToken(t) => t in s.writers && s.writers[t].WriteWaiting? && s.writeSem > 0
    case WriteResume(t, fault) =>
      t in s.writers && s.writers[t].WriteWoken? && s.writers[t].i <= |s.writers[t].src|
    case CloseRead => s.readOpen
    case CloseWrite => s.writeOpen
  }

  /** `pipe_read` from taking the lock to the next release. */
  ghost function Reading(s: State, t: Tid, n: nat, fault: nat): State {
    if s.q == [] && s.writeOpen then
      s.(readers := s.readers[t := ReadWaiting(n)])
    else
      var k := Taken(|s.q|, n, fault);
      s.(q := s.q[k..], taken := s.taken + s.q[..k], writeSem := s.writeSem + 1, readers := s.readers - {t})
  }

  /** `pipe_write` from taking the lock with i bytes done to the next release. */
  ghost function Writing(s: State, t: Tid, src: seq<bv8>, i: nat, fault: nat): State
    requires i <= |src|
  {
    if i < |src| && !s.readOpen then
      s.(writers := s.writers - {t})  // returns -1 and signals nobody
    else
      var (q', j) := Fill(s.q, src, i, fault);
      var s' := s.(q := q', written := s.written + src[i..j], readSem := s.readSem + 1);
      if j < |src| && |q'| == PIPESIZE then s'.(writers := s.writers[t := WriteWaiting(src, j)])
      else s'.(writers := s.writers - {t})
  }

  ghost function Apply(s: State, e: Event): State
    requires Enabled(s, e)
  {
    match e
    case ReadCall(t, n, fault) => Reading(s, t, n, fault)
    case ReadToken(t) =>
      s.(readSem := s.readSem - 1, readers := s.readers[t := ReadWoken(s.readers[t].n)])
    case ReadResume(t, fault) => Reading(s, t, s.readers[t].n, fault)
    case WriteCall(t, src, fault) => Writing(s, t, src, 0, fault)
    case WriteToken(t) =>
      s.(writeSem := s.writeSem - 1, writers := s.writers[t := WriteWoken(s.writers[t].src, s.writers[t].i)])
    case WriteResume(t, fault) => Writing(s, t, s.writers[t].src, s.writers[t].i, fault)
    case CloseRead => s.(readOpen := false, writeSem := s.writeSem + 1)
    case CloseWrite => s.(writeOpen := false, readSem := s.readSem + 1)
  }

  ghost predicate Legal(s: State, es: seq<Event>)
    decreases |es|
  {
    es == [] || (Enabled(s, es[0]) && Legal(Apply(s, es[0]), es[1..]))
  }

  ghost function Exec(s: State, es: seq<Event>): State
    requires Legal(s, es)
    decreases |es|
  {
    if es == [] then s else Exec(Apply(s, es[0]), es[1..])
  }

  /** No read begins while another is in progress; likewise for writes. */
  ghost predicate OneReader(s: State, es: seq<Event>)
    requires Legal(s, es)
    decreases |es|
  {
    es == [] || ((es[0].ReadCall? ==> s.readers == map[]) && OneReader(Apply(s, es[0]), es[1..]))
  }

  ghost predicate OneWriter(s: State, es: seq<Event>)
    requires Legal(s, es)
    decreases |es|
  {
    es == [] || ((es[0].WriteCall? ==> s.writers == map[]) && OneWriter(Apply(s, es[0]), es[1..]))
  }

  // ------------------------------------------------------------------ FIFO

  ghost predicate Fifo(s: State) {
    && s.written == s.taken + s.q
    && |s.q| <= PIPESIZE
    && forall t :: t in s.writers ==> s.writers[t].i < |s.writers[t].src|
  }

  lemma ReadingKeepsFifo(s: State, t: Tid, n: nat, fault: nat)
    requires Fifo(s)
    ensures Fifo(Reading(s, t, n, fault))
  {
    if !(s.q == [] && s.writeOpen) {
      var k := Taken(|s.q|, n, fault);
      assert s.taken + s.q == s.taken + s.q[..k] + s.q[k..];
    }
  }

  lemma WritingKeepsFifo(s: State, t: Tid, src: seq<bv8>, i: nat, fault: nat)
    requires Fifo(s) && i <= |src|
    ensures Fifo(Writing(s, t, src, i, fault))
  {
    var j := Fill(s.q, src, i, fault).1;
    assert s.taken + s.q + src[i..j] == s.taken + (s.q + src[i..j]);
  }

  lemma StepKeepsFifo(s: State, e: Event)
    requires Fifo(s) && Enabled(s, e)
    ensures Fifo(Apply(s, e))
  {
    match e
    case ReadCall(t, n, fault) => ReadingKeepsFifo(s, t, n, fault);
    case ReadResume(t, fault) => ReadingKeepsFifo(s, t, s.readers[t].n, fault);
    case WriteCall(t, src, fault) => WritingKeepsFifo(s, t, src, 0, fault);
    case WriteResume(t, fault) => WritingKeepsFifo(s, t, s.writers[t].src, s.writers[t].i, fault);
    case _ =>
  }

  lemma {:induction false} RunKeepsFifo(s: State, es: seq<Event>)
    requires Fifo(s) && Legal(s, es)
    ensures Fifo(Exec(s, es))
    decreases |es|
  {
    if es != [] {
      StepKeepsFifo(s, es[0]);
      RunKeepsFifo(Apply(s, es[0]), es[1..]);
    }
  }

  /** With any number of readers and writers the bytes read are always a prefix of the bytes written. */
  lemma {:induction false} ReadsArePrefixOfWrites(es: seq<Event>)
    requires Legal(Init, es)
    ensures var s := Exec(Init, es);
            s.taken <= s.written && |s.written| - |s.taken| <= PIPESIZE && s.q == s.written[|s.taken|..]
  {
    RunKeepsFifo(Init, es);
  }

  // ------------------------------------------------------ what a section does

  /** Reader t asks for n bytes, in a new call or when it resumes. */
  ghost predicate Reads(s: State, e: Event, t: Tid, n: nat, fault: nat) {
    e == ReadCall(t, n, fault)
    || (e == ReadResume(t, fault) && t in s.readers && s.readers[t].ReadWoken? && s.readers[t].n == n)
  }

  /**
   A reader waits exactly on an empty pipe whose write end is open, and then changes nothing
   else. Otherwise its read ends: it takes the oldest bytes, no more than it asked for, stops
   short only at a fault or on an empty pipe, and signals the writers once.
   */
  lemma ReadIsExact(s: State, e: Event, t: Tid, n: nat, fault: nat)
    requires Enabled(s, e) && Reads(s, e, t, n, fault)
    ensures var s' := Apply(s, e);
            && (t in s'.readers <==> s.q == [] && s.writeOpen)
            && (t in s'.readers ==> s' == s.(readers := s.readers[t := ReadWaiting(n)]))
            && (t !in s'.readers ==>
                  var k := |s.q| - |s'.q|;
                  && 0 <= k <= n && k <= fault && (k == n || k == fault || s'.q == [])
                  && s'.q == s.q[k..] && s'.taken == s.taken + s.q[..k]
                  && s' == s.(q := s'.q, taken := s'.taken, writeSem := s.writeSem + 1, readers := s.readers - {t}))
  {
  }

  /** Writer t has stored the first i bytes of src and goes on, in a new call or when it resumes. */
  ghost predicate Writes(s: State, e: Event, t: Tid, src: seq<bv8>, i: nat, fault: nat) {
    (e == WriteCall(t, src, fault) && i == 0)
    || (e == WriteResume(t, fault) && t in s.writers && s.writers[t] == WriteWoken(src, i))
  }

  /**
   With bytes left and the read end closed a writer leaves at once, signalling nobody.
   Otherwise it stores the next bytes and signals the readers once; it waits exactly if bytes
   are left and the pipe is full, and so leaves only when all are stored or at the fault.
   */
  lemma WriteIsExact(s: State, e: Event, t: Tid, src: seq<bv8>, i: nat, fault: nat)
    requires Fifo(s) && Enabled(s, e) && Writes(s, e, t, src, i, fault) && i <= |src|
    ensures var s', gone := Apply(s, e), s.(writers := s.writers - {t});
            if i < |src| && !s.readOpen then s' == gone
            else
              var j := i + |s'.q| - |s.q|;
              && i <= j <= |src| && (i <= fault ==> j <= fault) && s'.q == s.q + src[i..j] && |s'.q| <= PIPESIZE
              && (t in s'.writers <==> j < |src| && |s'.q| == PIPESIZE)
              && (t !in s'.writers ==> j == |src| || j == fault)
              && s' == gone.(q := s'.q, written := s.written + src[i..j], readSem := s.readSem + 1,
                             writers := if t in s'.writers then s.writers[t := WriteWaiting(src, j)]
                                        else s.writers - {t})
  {
  }

  // ------------------------------------------------------- no lost hand-shake

  ghost predicate ReaderStuck(s: State, t: Tid) {
    t in s.readers && s.readers[t].ReadWaiting? && s.readSem == 0
  }

  ghost predicate WriterStuck(s: State, t: Tid) {
    t in s.writers && s.writers[t].WriteWaiting? && s.writeSem == 0
  }

  /** At most one reader, and it is stuck only on an empty pipe whose write end is open. */
  ghost predicate ReaderInv(s: State) {
    && (forall t, u :: t in s.readers && u in s.readers ==> t == u)
    && (forall t :: ReaderStuck(s, t) ==> s.q == [] && s.writeOpen)
  }

  ghost predicate WriterInv(s: State) {
    && (forall t, u :: t in s.writers && u in s.writers ==> t == u)
    && (forall t :: WriterStuck(s, t) ==> |s.q| == PIPESIZE && s.readOpen)
  }

  lemma StepKeepsReaderInv(s: State, e: Event)
    requires ReaderInv(s) && Enabled(s, e) && (e.ReadCall? ==> s.readers == map[])
    ensures ReaderInv(Apply(s, e))
  {
    var s' := Apply(s, e);
    forall t | ReaderStuck(s', t)
      ensures s'.q == [] && s'.writeOpen
    {
      assert ReaderStuck(s, t) || t !in s.readers || s.readers[t].ReadWoken? || s.readSem != 0;
    }
  }

  lemma WritingKeepsWriterInv(s: State, t: Tid, src: seq<bv8>, i: nat, fault: nat)
    requires WriterInv(s) && i <= |src| && forall u :: u in s.writers ==> u == t
    ensures WriterInv(Writing(s, t, src, i, fault))
  {
  }

  lemma StayingKeepsWriterInv(s: State, e: Event)
    requires WriterInv(s) && Fifo(s) && Enabled(s, e) && !e.WriteCall? && !e.WriteResume?
    ensures WriterInv(Apply(s, e))
  {
    var s' := Apply(s, e);
    forall t ensures WriterStuck(s', t) ==> WriterStuck(s, t) && s'.q == s.q && s'.readOpen == s.readOpen {
    }
  }

  lemma StepKeepsWriterInv(s: State, e: Event)
    requires WriterInv(s) && Fifo(s) && Enabled(s, e) && (e.WriteCall? ==> s.writers == map[])
    ensures WriterInv(Apply(s, e))
  {
    match e
    case WriteCall(t, src, fault) => WritingKeepsWriterInv(s, t, src, 0, fault);
    case WriteResume(t, fault) => WritingKeepsWriterInv(s, t, s.writers[t].src, s.writers[t].i, fault);
    case _ => StayingKeepsWriterInv(s, e);
  }

  lemma {:induction false} RunKeepsReaderInv(s: State, es: seq<Event>)
    requires ReaderInv(s) && Legal(s, es) && OneReader(s, es)
    ensures ReaderInv(Exec(s, es))
    decreases |es|
  {
    if es != [] {
      StepKeepsReaderInv(s, es[0]);
      RunKeepsReaderInv(Apply(s, es[0]), es[1..]);
    }
  }

  lemma {:induction false} RunKeepsWriterInv(s: State, es: seq<Event>)
    requires WriterInv(s) && Fifo(s) && Legal(s, es) && OneWriter(s, es)
    ensures WriterInv(Exec(s, es))
    decreases |es|
  {
    if es != [] {
      StepKeepsFifo(s, es[0]);
      StepKeepsWriterInv(s, es[0]);
      RunKeepsWriterInv(Apply(s, es[0]), es[1..]);
    }
  }

  /**
   With one reader, a read without a token waits only for data that is not there yet,
   whatever the writers do.
   */
  lemma {:induction false} ReaderWaitsOnlyForData(es: seq<Event>, t: Tid)
    requires Legal(Init, es) && OneReader(Init, es)
    ensures var s := Exec(Init, es); ReaderStuck(s, t) ==> s.q == [] && s.writeOpen
  {
    RunKeepsReaderInv(Init, es);
  }

  /**
   With one writer, a write without a token waits only for space that is not there yet,
   whatever the readers do.
   */
  lemma {:induction false} WriterWaitsOnlyForSpace(es: seq<Event>, t: Tid)
    requires Legal(Init, es) && OneWriter(Init, es)
    ensures var s := Exec(Init, es); WriterStuck(s, t) ==> |s.q| == PIPESIZE && s.readOpen
  {
    RunKeepsWriterInv(Init, es);
  }

  /** One reader and one writer are never stuck together. */
  lemma {:induction false} NoDeadlock(es: seq<Event>, t: Tid, u: Tid)
    requires Legal(Init, es) && OneReader(Init, es) && OneWriter(Init, es)
    ensures !(ReaderStuck(Exec(Init, es), t) && WriterStuck(Exec(Init, es), u))
  {
    ReaderWaitsOnlyForData(es, t);
    WriterWaitsOnlyForSpace(es, u);
  }

  /** Once the write end is closed a lone reader always has a token, and spending it ends its read. */
  lemma {:induction false} CloseReleasesReader(es: seq<Event>, t: Tid, fault: nat)
    requires Legal(Init, es) && OneReader(Init, es)
    requires var s := Exec(Init, es); !s.writeOpen && t in s.readers
    ensures var s := Exec(Init, es);
            && !ReaderStuck(s, t)
            && (s.readers[t].ReadWaiting? ==> Enabled(s, ReadToken(t)) && Apply(s, ReadToken(t)).readers[t].ReadWoken?)
            && (s.readers[t].ReadWoken? ==> t !in Apply(s, ReadResume(t, fault)).readers)
  {
    RunKeepsReaderInv(Init, es);
  }

  lemma {:induction false} CloseReleasesWriter(es: seq<Event>, t: Tid, fault: nat)
    requires Legal(Init, es) && OneWriter(Init, es)
    requires var s := Exec(Init, es); !s.readOpen && t in s.writers
    ensures var s := Exec(Init, es);
            && !WriterStuck(s, t)
            && (s.writers[t].WriteWaiting? ==>
                  Enabled(s, WriteToken(t)) && Apply(s, WriteToken(t)).writers[t].WriteWoken?)
            && (s.writers[t].WriteWoken? ==>
                  Enabled(s, WriteResume(t, fault)) && t !in Apply(s, WriteResume(t, fault)).writers)
  {
    RunKeepsWriterInv(Init, es);
    RunKeepsFifo(Init, es);
  }
}
