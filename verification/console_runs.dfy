/**
 Typing, mode switches and a reader under every interleaving. The reader holds the lock
 except while it waits on the semaphore that input signals. Wakeups without input, left
 over from bytes an earlier read already took, are part of the runs.
 */
module ConsoleRuns {
  import opened Common
  import opened ConsoleLine

  /** A `consoleread` in progress: where in the stream it started and what it was asked for. */
  datatype Active = Active(rd: Reader, start: nat, target: int, waiting: bool)

  /** A finished read: the bytes it took are stream[start..stop], what it returned is `got`. */
  datatype Entry = Entry(start: nat, stop: nat, canon: bool, target: int, got: seq<Byte>, fault: bool)

  /** `stream` is every byte ever committed and `pos` how many were taken; with `log` they are history. */
  datatype State = State(line: Line, mode: Mode, permits: nat, reader: Option<Active>,
                         stream: seq<Byte>, pos: nat, log: seq<Entry>)

  datatype Event =
    | Key(c: Byte)
    | SetMode(m: Mode)
    | Begin(n: int, room: nat)
    | Proceed
    | Wake

  ghost predicate Initial(s: State) {
    s == State(Line([], []), s.mode, 0, None, [], 0, [])
  }

  ghost predicate Enabled(s: State, e: Event) {
    match e
    case Key(_) => true
    case SetMode(_) => true
    case Begin(_, _) => s.reader == None
    case Proceed => s.reader.Some? && !s.reader.value.waiting
    case Wake => s.reader.Some? && s.reader.value.waiting && s.permits > 0
  }

  /** The bytes a key press commits. */
  ghost function Added(l: Line, c: Byte, m: Mode): seq<Byte>
    requires |Input(l, c, m).committed| >= |l.committed|
  {
    Input(l, c, m).committed[|l.committed|..]
  }

  ghost function Apply(s: State, e: Event): State
    requires Enabled(s, e)
  {
    match e
    case Key(c) =>
      InputCommits(s.line, c, s.mode);
      s.(line := Input(s.line, c, s.mode),
         permits := if Signals(s.line, c, s.mode) then s.permits + 1 else s.permits,
         stream := s.stream + Added(s.line, c, s.mode))
    case SetMode(m) => s.(mode := m)
    case Begin(n, room) => s.(reader := Some(Active(Reader(s.mode.canon, n, [], room), s.pos, n, false)))
    case Proceed =>
      var a := s.reader.value;
      var o := Section(a.rd, s.line.committed);
      SectionTakes(a.rd, s.line.committed);
      var pos := s.pos + |s.line.committed| - |o.rest|;
      s.(line := s.line.(committed := o.rest), pos := pos,
         reader := if o.done then None else Some(a.(rd := o.rd, waiting := true)),
         log := if o.done then s.log + [Entry(a.start, pos, a.rd.canon, a.target, o.rd.got, o.fault)] else s.log)
    case Wake => s.(permits := s.permits - 1, reader := Some(s.reader.value.(waiting := false)))
  }

  ghost predicate Legal(s: State, es: seq<Event>)
    decreases |es|
  {
    es == [] || (Enabled(s, es[0]) && Legal(Apply(s, es[0]), es[1..]))
  }

  ghost function Exec(s: State, es: seq<Event>): State
    requires Legal(s, es)
    decreases |es|
  {
    if es == [] then s else Exec(Apply(s, es[0]), es[1..])
  }

  // ------------------------------------------------------ what a step does

  ghost predicate Clean(q: seq<Byte>) { forall i :: 0 <= i < |q| ==> !Ends(q[i]) }

  /** Input only ever adds to the committed bytes, and signals when it does. */
  lemma InputCommits(l: Line, c: Byte, m: Mode)
    ensures var l' := Input(l, c, m);
            && |l'.committed| >= |l.committed| && l'.committed[..|l.committed|] == l.committed
            && (l'.committed != l.committed ==> Signals(l, c, m))
  {
  }

  /**
   A section takes a prefix of the committed bytes and delivers all of it, except that
   the last byte taken may be a ^D that stands for end of file, or one user memory refused.
   */
  lemma {:induction false} SectionTakes(rd: Reader, q: seq<Byte>)
    ensures var o := Section(rd, q);
            && |o.rest| <= |q| && |rd.got| <= |o.rd.got| && o.rd.canon == rd.canon
            && |o.rd.got| - |rd.got| + o.rd.want - rd.want == 0
            && TookPrefix(rd, q, o, |q| - |o.rest|, |o.rd.got| - |rd.got|)
    decreases |q|
  {
    if rd.want > 0 && q != [] && !(rd.canon && q[0] == CTRL_D) && rd.room > 0 && !(rd.canon && q[0] == NEWLINE) {
      var rd' := rd.(want := rd.want - 1, got := rd.got + [q[0]], room := rd.room - 1);
      var o := Section(rd, q);
      assert o == Section(rd', q[1..]);
      hide Section, TookPrefix;
      SectionTakes(rd', q[1..]);
      TookOneMore(rd, rd', q, o, |q| - |o.rest|, |o.rd.got| - |rd.got|);
    } else {
      SectionStops(rd, q);
    }
  }

  lemma {:induction false} SectionStops(rd: Reader, q: seq<Byte>)
    requires rd.want <= 0 || q == [] || (rd.canon && Ends(q[0])) || rd.room == 0
    ensures var o := Section(rd, q);
            && |o.rest| <= |q| && |rd.got| <= |o.rd.got| && o.rd.canon == rd.canon
            && |o.rd.got| - |rd.got| + o.rd.want - rd.want == 0
            && TookPrefix(rd, q, o, |q| - |o.rest|, |o.rd.got| - |rd.got|)
  {
    var o := Section(rd, q);
    if o.rd.got != rd.got {
      assert o.rd.got == rd.got + q[..1];
    }
  }

  /** `k` bytes taken, `d` of them delivered. */
  ghost predicate TookPrefix(rd: Reader, q: seq<Byte>, o: Outcome, k: int, d: int) {
    && 0 <= d <= k <= |q| && k <= d + 1 && (d > 0 ==> o.rd.want >= 0)
    && o.rest == q[k..] && o.rd.got == rd.got + q[..d]
    && (rd.canon ==> Clean(q[..if d > 0 then d - 1 else 0]) && (d > 0 ==> q[d - 1] != CTRL_D))
    && (o.done <==> Finished(rd.canon, q, o, k, d))
    && (o.done || (k == d == |q| && o.rd.want > 0 && !o.fault && (rd.canon ==> Clean(q))))
  }

  /** The ways a read ends. */
  ghost predicate Finished(canon: bool, q: seq<Byte>, o: Outcome, k: int, d: int)
    requires 0 <= d <= k <= |q| && k <= d + 1
  {
    || (k == d && !o.fault && o.rd.want <= 0)
    || (k == d && !o.fault && canon && d > 0 && q[d - 1] == NEWLINE)
    || (k == d && !o.fault && canon && o.rd.got != [] && d < |q| && q[d] == CTRL_D)
    || (k == d + 1 && !o.fault && canon && o.rd.got == [] && q[d] == CTRL_D)
    || (k == d + 1 && o.fault && !(canon && q[d] == CTRL_D))
  }

  lemma TookOneMore(rd: Reader, rd': Reader, q: seq<Byte>, o: Outcome, k: int, d: int)
    requires q != [] && rd'.canon == rd.canon && rd'.got == rd.got + [q[0]] && !(rd.canon && Ends(q[0]))
    requires TookPrefix(rd', q[1..], o, k - 1, d - 1) && o.rd.want == rd.want - d && rd.want > 0
    requires o.rd.got != []
    ensures TookPrefix(rd, q, o, k, d)
  {
    assert q[1..][k - 1..] == q[k..];
    assert [q[0]] + q[1..][..d - 1] == q[..d];
    assert d > 1 ==> q[..d - 1] == [q[0]] + q[1..][..d - 2];
    assert d > 1 ==> q[1..][d - 2] == q[d - 1];
    assert d <= |q[1..]| ==> q[1..][d - 1] == q[d];
  }

  // ------------------------------------------------------------- invariant

  /** The ring is not overfull, and the line being typed holds no newline and no ^D. */
  ghost predicate LineInv(l: Line) {
    |l.committed| + |l.editing| <= SIZE && Clean(l.editing)
  }

  ghost predicate StreamInv(s: State) {
    s.pos <= |s.stream| && s.line.committed == s.stream[s.pos..]
  }

  /** A read in progress has delivered everything it took. */
  ghost predicate ReaderInv(a: Active, stream: seq<Byte>, pos: nat) {
    && a.start <= pos <= |stream| && a.rd.got == stream[a.start..pos]
    && a.rd.want + |a.rd.got| == a.target
    && (a.rd.canon ==> Clean(a.rd.got))
    && (a.rd.got != [] ==> a.target >= |a.rd.got|)
  }

  ghost predicate WaitInv(s: State) {
    s.reader.Some? && s.reader.value.waiting ==>
      s.reader.value.rd.want > 0 && (s.line.committed != [] ==> s.permits > 0)
  }

  /** A finished read is a piece of the stream. */
  ghost predicate Piece(en: Entry, stream: seq<Byte>) {
    var d := |en.got|;
    && en.start + d <= en.stop <= |stream| && en.stop <= en.start + d + 1
    && en.got == stream[en.start..en.start + d]
    && (d > 0 ==> d <= en.target)
    && (en.canon && d > 0 ==> Clean(en.got[..d - 1]) && en.got[d - 1] != CTRL_D)
    && (if en.fault then en.stop == en.start + d + 1 && !(en.canon && stream[en.start + d] == CTRL_D)
        else if en.stop == en.start + d then
          || d >= en.target
          || (en.canon && d > 0 && en.got[d - 1] == NEWLINE)
          || (en.canon && d > 0 && en.stop < |stream| && stream[en.stop] == CTRL_D)
        else en.canon && d == 0 && stream[en.start] == CTRL_D)
  }

  /** Successive reads take successive pieces; the last one ends where the next one starts or started. */
  ghost predicate LogInv(log: seq<Entry>, stream: seq<Byte>, next: nat) {
    && (forall i :: 0 <= i < |log| ==> Piece(log[i], stream))
    && (forall i :: 0 <= i < |log| - 1 ==> log[i].stop == log[i + 1].start)
    && (if log == [] then next == 0 else log[0].start == 0 && log[|log| - 1].stop == next)
  }

  ghost function NextStart(s: State): nat { if s.reader.Some? then s.reader.value.start else s.pos }

  ghost predicate Inv(s: State) {
    && LineInv(s.line) && StreamInv(s) && WaitInv(s)
    && (s.reader.Some? ==> ReaderInv(s.reader.value, s.stream, s.pos))
    && LogInv(s.log, s.stream, NextStart(s))
  }

  // ---------------------------------------------------------- preservation

  lemma {:induction false} KilledKeepsClean(q: seq<Byte>)
    requires Clean(q)
    ensures Killed(q) == []
  {
    if q != [] {
      assert !Ends(q[|q| - 1]);
      KilledKeepsClean(q[..|q| - 1]);
    }
  }

  lemma InputKeepsLine(l: Line, c: Byte, m: Mode)
    requires LineInv(l)
    ensures LineInv(Input(l, c, m))
  {
    KilledKeepsClean(l.editing);
  }

  lemma PieceStays(en: Entry, stream: seq<Byte>, more: seq<Byte>)
    requires Piece(en, stream)
    ensures Piece(en, stream + more)
  {
    var d := |en.got|;
    assert (stream + more)[en.start..en.start + d] == stream[en.start..en.start + d];
  }

  lemma LogStays(log: seq<Entry>, stream: seq<Byte>, more: seq<Byte>, next: nat)
    requires LogInv(log, stream, next)
    ensures LogInv(log, stream + more, next)
  {
    hide Piece;
    forall i | 0 <= i < |log| ensures Piece(log[i], stream + more) {
      PieceStays(log[i], stream, more);
    }
  }

  lemma KeyKeepsInv(s: State, c: Byte)
    requires Inv(s)
    ensures Inv(Apply(s, Key(c)))
  {
    InputCommits(s.line, c, s.mode);
    InputKeepsLine(s.line, c, s.mode);
    var more := Added(s.line, c, s.mode);
    LogStays(s.log, s.stream, more, NextStart(s));
    hide Input, Signals, LogInv, LineInv;
    var s' := Apply(s, Key(c));
    assert s'.line.committed == s.line.committed + more;
    if s.reader.Some? {
      assert s'.stream[s.reader.value.start..s.pos] == s.stream[s.reader.value.start..s.pos];
    }
  }

  lemma JoinPieces(stream: seq<Byte>, start: nat, pos: nat, d: nat)
    requires start <= pos && pos + d <= |stream|
    ensures stream[start..pos] + stream[pos..][..d] == stream[start..pos + d]
  {
    assert stream[pos..][..d] == stream[pos..pos + d];
  }

  /** The outcome of a section, placed in the stream. */
  lemma SectionIsPiece(a: Active, o: Outcome, stream: seq<Byte>, pos: nat, k: int, d: int)
    requires ReaderInv(a, stream, pos) && o.done
    requires TookPrefix(a.rd, stream[pos..], o, k, d) && o.rd.want == a.rd.want - d && |o.rd.got| == |a.rd.got| + d
    ensures Piece(Entry(a.start, pos + k, a.rd.canon, a.target, o.rd.got, o.fault), stream)
  {
    var q, n := stream[pos..], |a.rd.got|;
    JoinPieces(stream, a.start, pos, d);
    assert o.rd.got == stream[a.start..pos + d];
    assert d < |q| ==> q[d] == stream[pos + d];
    assert d > 0 ==> q[d - 1] == o.rd.got[n + d - 1];
    if a.rd.canon && n + d > 0 {
      JoinClean(a.rd.got, q[..d]);
      hide Clean;
      assert d > 0 ==> q[..d][..d - 1] == q[..d - 1];
    }
  }

  lemma JoinClean(a: seq<Byte>, b: seq<Byte>)
    requires Clean(a) && |a + b| > 0
    ensures b == [] ==> (a + b)[|a| - 1] != CTRL_D
    ensures b == [] || Clean(b[..|b| - 1]) ==> Clean((a + b)[..|a + b| - 1])
  {
    assert b != [] ==> (a + b)[..|a + b| - 1] == a + b[..|b| - 1];
  }

  lemma SectionGoesOn(a: Active, o: Outcome, stream: seq<Byte>, pos: nat, k: int, d: int)
    requires ReaderInv(a, stream, pos) && !o.done
    requires TookPrefix(a.rd, stream[pos..], o, k, d) && o.rd.want == a.rd.want - d && |o.rd.got| == |a.rd.got| + d
    requires o.rd.canon == a.rd.canon
    ensures k == |stream| - pos && o.rest == [] && o.rd.want > 0
    ensures ReaderInv(a.(rd := o.rd, waiting := true), stream, pos + k)
  {
    assert o.rd.got == stream[a.start..pos + k];
    assert stream[pos..][..d] == stream[pos..];
  }

  lemma TakesSuffix(rd: Reader, q: seq<Byte>, o: Outcome, k: int, d: int)
    requires TookPrefix(rd, q, o, k, d)
    ensures 0 <= k <= |q| && o.rest == q[k..]
  {
  }

  lemma ProceedKeepsInv(s: State)
    requires Inv(s) && Enabled(s, Proceed)
    ensures Inv(Apply(s, Proceed))
  {
    hide Section, TookPrefix, ReaderInv, LogInv, Piece, Clean;
    var a, q := s.reader.value, s.line.committed;
    var o := Section(a.rd, q);
    SectionTakes(a.rd, q);
    var k, d := |q| - |o.rest|, |o.rd.got| - |a.rd.got|;
    TakesSuffix(a.rd, q, o, k, d);
    assert s.stream[s.pos..][k..] == s.stream[s.pos + k..];
    if o.done {
      SectionIsPiece(a, o, s.stream, s.pos, k, d);
      LogGrows(s.log, s.stream, a.start, Entry(a.start, s.pos + k, a.rd.canon, a.target, o.rd.got, o.fault));
    } else {
      SectionGoesOn(a, o, s.stream, s.pos, k, d);
    }
  }

  lemma LogGrows(log: seq<Entry>, stream: seq<Byte>, next: nat, en: Entry)
    requires LogInv(log, stream, next) && Piece(en, stream) && en.start == next
    ensures LogInv(log + [en], stream, en.stop)
  {
    hide Piece;
    var log' := log + [en];
    forall i | 0 <= i < |log'| - 1 ensures log'[i].stop == log'[i + 1].start {
      assert i + 1 < |log| ==> log[i].stop == log[i + 1].start;
    }
  }

  lemma StepKeepsInv(s: State, e: Event)
    requires Inv(s) && Enabled(s, e)
    ensures Inv(Apply(s, e))
  {
    match e
    case Key(c) => KeyKeepsInv(s, c);
    case Proceed => ProceedKeepsInv(s);
    case Begin(n, room) =>
      assert s.stream[s.pos..s.pos] == [];
    case _ =>
  }

  lemma {:induction false} RunKeepsInv(s: State, es: seq<Event>)
    requires Inv(s) && Legal(s, es)
    ensures Inv(Exec(s, es))
    decreases |es|
  {
    if es != [] {
      StepKeepsInv(s, es[0]);
      RunKeepsInv(Apply(s, es[0]), es[1..]);
    }
  }

  ghost predicate Reachable(s: State) {
    exists b, es :: Initial(b) && Legal(b, es) && s == Exec(b, es)
  }

  lemma ReachableInv(s: State)
    requires Reachable(s)
    ensures Inv(s)
  {
    var b, es :| Initial(b) && Legal(b, es) && s == Exec(b, es);
    RunKeepsInv(b, es);
  }

  // ---------------------------------------------------------- main theorems

  /**
   In every run a key has the effect of its case on the line, adds to the stream exactly what
   it commits, and gives the readers one permit exactly when it commits.
   */
  lemma KeyIsExact(s: State, c: Byte)
    requires Reachable(s)
    ensures var s' := Apply(s, Key(c));
            && AfterKey(s.line, c, s.mode, s'.line, s'.permits == s.permits + 1)
            && s.permits <= s'.permits <= s.permits + 1
            && |s'.line.committed| >= |s.line.committed|
            && s'.line.committed == s.line.committed + s'.stream[|s.stream|..] && s.stream <= s'.stream
            && s' == s.(line := s'.line, permits := s'.permits, stream := s'.stream)
  {
    ReachableInv(s);
    InputCommits(s.line, c, s.mode);
    InputIsExact(s.line, c, s.mode);
    hide Inv, Input, Signals, AfterKey;
    var s' := Apply(s, Key(c));
    assert s'.stream[|s.stream|..] == Added(s.line, c, s.mode);
  }

  /**
   In every run, across mode switches: the ring never holds more than 128 bytes, the line
   being typed holds no newline and no ^D, and kill-line erases exactly that line.
   */
  lemma KillErasesExactlyTheLine(s: State, m: Mode)
    requires Reachable(s) && m.canon
    ensures |s.line.committed| + |s.line.editing| <= SIZE && Clean(s.line.editing)
    ensures Input(s.line, CTRL_U, m) == Line(s.line.committed, [])
  {
    ReachableInv(s);
    KilledKeepsClean(s.line.editing);
  }

  /**
   In every run finished reads return successive pieces of the committed stream, and what was
   not taken is what is left in the ring.
   */
  lemma ReadsReturnSuccessivePieces(s: State, i: nat)
    requires Reachable(s) && i < |s.log|
    ensures Piece(s.log[i], s.stream)
    ensures s.log[i].start == if i == 0 then 0 else s.log[i - 1].stop
    ensures s.log[i].stop <= s.pos <= |s.stream| && s.line.committed == s.stream[s.pos..]
  {
    ReachableInv(s);
    LogEndsBefore(s.log, s.stream, NextStart(s), i);
  }

  lemma {:induction false} LogEndsBefore(log: seq<Entry>, stream: seq<Byte>, next: nat, i: nat)
    requires LogInv(log, stream, next) && i < |log|
    ensures log[i].stop <= next
    decreases |log| - i
  {
    if i + 1 < |log| {
      assert Piece(log[i + 1], stream) && log[i].stop == log[i + 1].start;
      LogEndsBefore(log, stream, next, i + 1);
    }
  }

  /**
   In every run a canonical read whose copies succeed never returns bytes past a newline,
   and takes exactly what it returns, except that a ^D at its start gives a read of zero
   bytes that takes that ^D; so every ^D taken by such reads is one empty read.
   */
  lemma CanonicalReadTakesOneLine(s: State, i: nat)
    requires Reachable(s) && i < |s.log| && s.log[i].canon && !s.log[i].fault
    ensures var en := s.log[i];
            en.start <= en.stop <= |s.stream|
            && var took := s.stream[en.start..en.stop];
            && (took == en.got || (en.got == [] && took == [CTRL_D]))
            && (forall j :: 0 <= j < |en.got| ==> en.got[j] != CTRL_D && (en.got[j] == NEWLINE ==> j == |en.got| - 1))
            && (en.got == [] && took == [] ==> en.target <= 0)
            && |en.got| <= if en.target > 0 then en.target else 0
  {
    ReadsReturnSuccessivePieces(s, i);
    var en := s.log[i];
    var d := |en.got|;
    assert Piece(en, s.stream);
    assert en.stop == en.start + d ==> s.stream[en.start..en.stop] == en.got;
    assert en.stop == en.start + 1 ==> s.stream[en.start..en.stop] == [s.stream[en.start]];
    forall j | 0 <= j < d ensures en.got[j] != CTRL_D && (en.got[j] == NEWLINE ==> j == d - 1) {
      if j < d - 1 {
        assert !Ends(en.got[..d - 1][j]);
      }
    }
  }

  /**
   In every run a reader waiting although there is committed input has a wakeup to consume:
   no input is missed.
   */
  lemma NoInputIsMissed(s: State)
    requires Reachable(s) && s.reader.Some? && s.reader.value.waiting && s.line.committed != []
    ensures Enabled(s, Wake)
  {
    ReachableInv(s);
  }

  // -------------------------------------------------------- whole reads

  lemma {:induction false} Then(s: State, e: Event, s': State, rest: seq<Event>)
    requires Enabled(s, e) && Apply(s, e) == s' && Legal(s', rest)
    ensures Legal(s, [e] + rest) && Exec(s, [e] + rest) == Exec(s', rest)
  {
    assert ([e] + rest)[1..] == rest;
  }

  /** A section of a canonical read on a line that fits takes exactly the line. */
  lemma {:induction false} SectionTakesLine(rd: Reader, text: seq<Byte>, more: seq<Byte>)
    requires rd.canon && Clean(text) && rd.want > |text| && rd.room > |text|
    ensures var o := Section(rd, text + [NEWLINE] + more);
            o.done && !o.fault && o.rest == more && o.rd.got == rd.got + text + [NEWLINE]
    decreases |text|
  {
    var q := text + [NEWLINE] + more;
    if text == [] {
      assert q[0] == NEWLINE && q[1..] == more;
      assert rd.got + [NEWLINE] == rd.got + text + [NEWLINE];
    } else {
      var rd' := rd.(want := rd.want - 1, got := rd.got + [text[0]], room := rd.room - 1);
      assert q[0] == text[0] && !Ends(text[0]) && q[1..] == text[1..] + [NEWLINE] + more;
      SectionTakesLine(rd', text[1..], more);
      assert rd'.got + text[1..] == rd.got + text;
    }
  }

  /**
   In every run a canonical read that finds a committed line it has room for ends at once, returns
   exactly that line with its newline, and leaves what comes after it for the next read.
   */
  lemma {:induction false} ReadReturnsTheLine(s: State, text: seq<Byte>, more: seq<Byte>, n: int, room: nat)
    requires Reachable(s) && s.reader == None && s.mode.canon && Clean(text)
    requires s.line.committed == text + [10] + more && n > |text| && room > |text|
    ensures var es := [Begin(n, room), Proceed];
            && Legal(s, es)
            && var s' := Exec(s, es);
               && s'.reader == None && s'.line == Line(more, s.line.editing) && s'.permits == s.permits
               && |s'.log| == |s.log| + 1 && s'.log[|s.log|].got == text + [10] && !s'.log[|s.log|].fault
               && s'.log[|s.log|].start == s.pos && s'.log[|s.log|].stop == s'.pos == s.pos + |text| + 1
  {
    hide Section;
    var rd := Reader(true, n, [], room);
    SectionTakesLine(rd, text, more);
    assert [] + text + [10] == text + [10];
    var s1 := s.(reader := Some(Active(rd, s.pos, n, false)));
    Then(s1, Proceed, Apply(s1, Proceed), []);
    Then(s, Begin(n, room), s1, [Proceed]);
  }

  /**
   In every run a read for at least one byte that finds nothing waits; once a key commits input it
   can be woken, which uses up one permit, and goes on where it waited.
   */
  lemma {:induction false} ReadWaitsForInput(s: State, n: int, room: nat)
    requires Reachable(s) && s.reader == None && s.line.committed == [] && n > 0
    ensures var es := [Begin(n, room), Proceed];
            && Legal(s, es)
            && var s' := Exec(s, es);
               && s'.reader == Some(Active(Reader(s.mode.canon, n, [], room), s.pos, n, true))
               && s' == s.(reader := s'.reader)
  {
    var rd := Reader(s.mode.canon, n, [], room);
    assert Section(rd, []) == Outcome(rd, [], false, false);
    hide Section;
    var s1 := s.(reader := Some(Active(rd, s.pos, n, false)));
    Then(s1, Proceed, Apply(s1, Proceed), []);
    Then(s, Begin(n, room), s1, [Proceed]);
  }

  /** A wakeup uses up one permit and lets the reader go on with what it has. */
  lemma WakeIsExact(s: State)
    requires Enabled(s, Wake)
    ensures var s' := Apply(s, Wake);
            && s'.permits == s.permits - 1 && s'.reader.Some? && Enabled(s', Proceed)
            && s'.reader.value.rd == s.reader.value.rd && s'.reader.value.start == s.reader.value.start
            && s' == s.(permits := s'.permits, reader := s'.reader)
  {
  }
}
