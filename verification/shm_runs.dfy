/**
 Creating, attaching and removing shared-memory segments under every interleaving.
 `shmget`, `shmctl(IPC_RMID)` and the end of `shmat` run under the namespace semaphore;
 the beginning of `shmat` does not, so its table lookup and its locking of the
 descriptor it found are separate steps.
 */
module ShmRuns {
  import opened Common
  import opened Shm

  type Tid = nat

  /** Inside `do_shmat`: descriptor found but not yet locked, or attach counted and not yet finished. */
  datatype Phase = Found(h: nat, id: int) | Attached(h: nat, id: int)

  /** `gone` lists the descriptors `shm_destroy` was called on. It is history. */
  datatype State = State(ns: Ns, threads: map<Tid, Phase>, gone: seq<nat>)

  datatype Event =
    | Create(size: nat)
    | Find(t: Tid, id: int)
    | Attach(t: Tid)
    | Finish(t: Tid)
    | Remove(id: int)

  ghost const Init := State(Empty(), map[], [])

  /** The lookup and the tests of an event succeed; where they fail the kernel panics or refuses. */
  ghost predicate Enabled(s: State, e: Event) {
    match e
    case Create(size) => s.ns.nextIdx < IPCMNI && size < WORD && Admit(s.ns, size).Id?
    case Find(t, id) => t !in s.threads && id >= 0 && Lookup(s.ns, id).Some?
    case Attach(t) =>
      t in s.threads && s.threads[t].Found? && s.threads[t].h in s.ns.segs
      && Passes(s.ns.segs[s.threads[t].h], s.threads[t].id)
    case Finish(t) => t in s.threads && s.threads[t].Attached? && LockSucceeds(s, s.threads[t].id)
    case Remove(id) => id >= 0 && Lookup(s.ns, id).Some? && Passes(s.ns.segs[Lookup(s.ns, id).value], id)
  }

  /** `shm_lock`: the lookup finds a descriptor and it is not deleted. */
  ghost predicate LockSucceeds(s: State, id: int) {
    Lookup(s.ns, id).Some? && !s.ns.segs[Lookup(s.ns, id).value].deleted
  }

  ghost function Apply(s: State, e: Event): State
    requires Enabled(s, e)
  {
    match e
    case Create(size) => s.(ns := NewSeg(s.ns, size))
    case Find(t, id) => s.(threads := s.threads[t := Found(Lookup(s.ns, id).value, id)])
    case Attach(t) =>
      var ph := s.threads[t];
      s.(ns := BeginAttach(s.ns, ph.h), threads := s.threads[t := Attached(ph.h, ph.id)])
    case Finish(t) =>
      var h := Lookup(s.ns, s.threads[t].id).value;
      s.(ns := EndAttach(s.ns, h), threads := s.threads - {t},
         gone := if s.ns.segs[h].nattch - 1 == 0 && s.ns.segs[h].dest then s.gone + [h] else s.gone)
    case Remove(id) =>
      var h := Lookup(s.ns, id).value;
      s.(ns := Rmid(s.ns, h), gone := if s.ns.segs[h].nattch != 0 then s.gone else s.gone + [h])
  }

  ghost predicate Legal(s: State, es: seq<Event>)
    decreases |es|
  {
    es == [] || (Enabled(s, es[0]) && Legal(Apply(s, es[0]), es[1..]))
  }

  ghost function Exec(s: State, es: seq<Event>): State
    requires Legal(s, es)
    decreases |es|
  {
    if es == [] then s else Exec(Apply(s, es[0]), es[1..])
  }

  // ------------------------------------------------------------- invariant

  ghost function Attaching(m: map<Tid, Phase>, h: nat): set<Tid> {
    set t | t in m && m[t].Attached? && m[t].h == h
  }

  ghost predicate AttachInv(ns: Ns, m: map<Tid, Phase>) {
    && (forall h :: h in ns.segs ==> ns.segs[h].nattch == |Attaching(m, h)|)
    && (forall h :: h in ns.segs && ns.segs[h].dest && !ns.segs[h].deleted ==> ns.segs[h].nattch > 0)
    && (forall t :: t in m ==> m[t].h in ns.segs && IdToIdx(m[t].id) == m[t].h)
    && (forall t :: t in m && m[t].Attached? ==> !ns.segs[m[t].h].deleted)
  }

  ghost predicate GoneInv(ns: Ns, gone: seq<nat>) {
    NoDup(gone) && forall h :: h in gone <==> h in ns.segs && ns.segs[h].deleted
  }

  ghost predicate Inv(s: State) {
    && TableInv(s.ns) && IdInv(s.ns) && AttachInv(s.ns, s.threads) && GoneInv(s.ns, s.gone)
    && s.ns.tot == Total(s.ns.segs) && s.ns.tot <= SHMALL
  }

  /** An attach in flight finds its own segment again, alive. */
  lemma AttachFindsItsSegment(s: State, t: Tid)
    requires Inv(s) && t in s.threads && s.threads[t].Attached?
    ensures Lookup(s.ns, s.threads[t].id) == Some(s.threads[t].h) && LockSucceeds(s, s.threads[t].id)
  {
  }

  lemma LookupIsLive(s: State, id: int)
    requires TableInv(s.ns) && IdInv(s.ns) && Lookup(s.ns, id).Some?
    ensures var h := Lookup(s.ns, id).value;
            h in s.ns.segs && !s.ns.segs[h].deleted && h == IdToIdx(id)
  {
  }

  // ---------------------------------------------------------- preservation

  lemma SameGone(ns: Ns, h: nat, s: Seg, gone: seq<nat>)
    requires GoneInv(ns, gone) && h in ns.segs && s == ns.segs[h].(nattch := s.nattch, dest := s.dest)
    ensures GoneInv(ns.(segs := ns.segs[h := s]), gone)
  {
  }

  lemma SameShape(ns: Ns, h: nat, s: Seg, gone: seq<nat>)
    requires TableInv(ns) && IdInv(ns) && GoneInv(ns, gone)
    requires h in ns.segs && s == ns.segs[h].(nattch := s.nattch, dest := s.dest)
    ensures var ns' := ns.(segs := ns.segs[h := s]);
            TableInv(ns') && IdInv(ns') && GoneInv(ns', gone) && Total(ns'.segs) == Total(ns.segs)
  {
    hide *;
    SameTable(ns, h, s);
    SameIds(ns, h, s);
    SameTotal(ns, h, s);
    SameGone(ns, h, s, gone);
  }

  lemma DestroyKeepsGone(ns: Ns, h: nat, gone: seq<nat>)
    requires GoneInv(ns, gone) && h in ns.segs && !ns.segs[h].deleted
    ensures GoneInv(Destroy(ns, h), gone + [h])
  {
    hide Pages, IdToIdx;
  }

  // creation

  lemma CreateKeepsAttach(ns: Ns, m: map<Tid, Phase>, size: nat)
    requires AttachInv(ns, m) && ns.nextIdx !in ns.segs && Admit(ns, size).Id?
    ensures AttachInv(NewSeg(ns, size), m)
  {
    hide Admit, Pages, BuildId, SeqMax, IdToIdx;
    assert Attaching(m, ns.nextIdx) == {};
  }

  lemma CreateKeepsInv(s: State, size: nat)
    requires Inv(s) && Enabled(s, Create(size))
    ensures Inv(Apply(s, Create(size)))
  {
    NextIsNew(s.ns);
    hide Admit, Pages, BuildId, SeqMax, IdToIdx, TableInv, IdInv, AttachInv, Total;
    CreateKeepsTable(s.ns, size);
    CreateKeepsTotal(s.ns, size);
    CreateKeepsAttach(s.ns, s.threads, size);
    assert GoneInv(Apply(s, Create(size)).ns, s.gone);
  }

  // attaching

  ghost predicate SameElsewhere(m: map<Tid, Phase>, m': map<Tid, Phase>, t: Tid) {
    forall u :: u != t ==> (u in m <==> u in m') && (u in m ==> m[u] == m'[u])
  }

  ghost function Share(m: map<Tid, Phase>, t: Tid, h: nat): nat {
    if t in m && m[t].Attached? && m[t].h == h then 1 else 0
  }

  lemma AttachingMoves(m: map<Tid, Phase>, m': map<Tid, Phase>, t: Tid, h: nat)
    requires SameElsewhere(m, m', t)
    ensures |Attaching(m', h)| - Share(m', t, h) == |Attaching(m, h)| - Share(m, t, h)
  {
    SizesDifferAt(Attaching(m, h), Attaching(m', h), t);
  }

  lemma FindKeepsInv(s: State, t: Tid, id: int)
    requires Inv(s) && Enabled(s, Find(t, id))
    ensures Inv(Apply(s, Find(t, id)))
  {
    var s' := Apply(s, Find(t, id));
    LookupIsLive(s, id);
    hide IdToIdx, BuildId, SeqMax, Attaching;
    forall h | h in s.ns.segs
      ensures |Attaching(s'.threads, h)| == |Attaching(s.threads, h)|
    {
      AttachingMoves(s.threads, s'.threads, t, h);
    }
  }

  lemma AttachKeepsAttach(s: State, t: Tid)
    requires AttachInv(s.ns, s.threads) && Enabled(s, Attach(t))
    ensures var s' := Apply(s, Attach(t)); AttachInv(s'.ns, s'.threads)
  {
    hide IdToIdx, IdToSeq, Attaching;
    var s' := Apply(s, Attach(t));
    forall g | g in s.ns.segs
      ensures s'.ns.segs[g].nattch == |Attaching(s'.threads, g)|
    {
      AttachingMoves(s.threads, s'.threads, t, g);
    }
  }

  lemma AttachKeepsInv(s: State, t: Tid)
    requires Inv(s) && Enabled(s, Attach(t))
    ensures Inv(Apply(s, Attach(t)))
  {
    hide TableInv, IdInv, AttachInv, GoneInv, Total, Passes;
    var h := s.threads[t].h;
    SameShape(s.ns, h, s.ns.segs[h].(nattch := s.ns.segs[h].nattch + 1), s.gone);
    AttachKeepsAttach(s, t);
  }

  // removal and the end of an attach

  lemma NobodyAttached(m: map<Tid, Phase>, h: nat)
    requires |Attaching(m, h)| == 0
    ensures forall t :: t in m && m[t].Attached? ==> m[t].h != h
  {
    forall t | t in m && m[t].Attached?
      ensures m[t].h != h
    {
      assert t in Attaching(m, m[t].h);
    }
  }

  lemma DestroyKeepsAttach(ns: Ns, m: map<Tid, Phase>, h: nat)
    requires h in ns.segs && |Attaching(m, h)| == 0
    requires forall g :: g in ns.segs ==> ns.segs[g].nattch == |Attaching(m, g)|
    requires forall g :: g in ns.segs && g != h && ns.segs[g].dest && !ns.segs[g].deleted ==> ns.segs[g].nattch > 0
    requires forall t :: t in m ==> m[t].h in ns.segs && IdToIdx(m[t].id) == m[t].h
    requires forall t :: t in m && m[t].Attached? ==> !ns.segs[m[t].h].deleted
    ensures AttachInv(Destroy(ns, h), m)
  {
    hide Pages, IdToIdx, Attaching;
    NobodyAttached(m, h);
  }

  lemma MarkKeepsAttach(ns: Ns, m: map<Tid, Phase>, h: nat)
    requires AttachInv(ns, m) && h in ns.segs && ns.segs[h].nattch != 0
    ensures AttachInv(Rmid(ns, h), m)
  {
    hide IdToIdx, Attaching;
  }

  lemma MarkKeepsInv(s: State, h: nat)
    requires Inv(s) && h in s.ns.segs && s.ns.segs[h].nattch != 0
    ensures Inv(s.(ns := Rmid(s.ns, h)))
  {
    SameShape(s.ns, h, s.ns.segs[h].(dest := true), s.gone);
    MarkKeepsAttach(s.ns, s.threads, h);
    hide TableInv, IdInv, AttachInv, GoneInv, Total;
  }

  lemma DestroyKeepsInv(s: State, h: nat)
    requires Inv(s) && h in s.ns.segs && s.ns.segs[h].nattch == 0 && !s.ns.segs[h].deleted
    ensures Inv(s.(ns := Rmid(s.ns, h), gone := s.gone + [h]))
  {
    DestroyKeepsTable(s.ns, h);
    DestroyKeepsTotal(s.ns, h);
    DestroyKeepsGone(s.ns, h, s.gone);
    DestroyKeepsAttach(s.ns, s.threads, h);
    hide TableInv, IdInv, AttachInv, GoneInv, Total, Destroy;
  }

  lemma RemoveKeepsInv(s: State, id: int)
    requires Inv(s) && Enabled(s, Remove(id))
    ensures Inv(Apply(s, Remove(id)))
  {
    var h := Lookup(s.ns, id).value;
    LookupIsLive(s, id);
    hide Inv, Passes, Lookup, Rmid;
    if s.ns.segs[h].nattch != 0 {
      MarkKeepsInv(s, h);
    } else {
      DestroyKeepsInv(s, h);
    }
  }

  lemma FinishCounts(s: State, t: Tid)
    requires Inv(s) && Enabled(s, Finish(t))
    ensures var h := s.threads[t].h;
            forall k :: k in s.ns.segs ==>
              s.ns.segs[k].nattch - (if k == h then 1 else 0) == |Attaching(s.threads - {t}, k)|
  {
    hide TableInv, IdInv, GoneInv, Total, IdToIdx, Lookup, LockSucceeds, Attaching;
    forall k | k in s.ns.segs
      ensures s.ns.segs[k].nattch - (if k == s.threads[t].h then 1 else 0) == |Attaching(s.threads - {t}, k)|
    {
      AttachingMoves(s.threads, s.threads - {t}, t, k);
    }
  }

  lemma EndKeepsAttach(ns: Ns, m: map<Tid, Phase>, h: nat)
    requires h in ns.segs && ns.segs[h].nattch > 0
    requires forall k :: k in ns.segs ==> ns.segs[k].nattch - (if k == h then 1 else 0) == |Attaching(m, k)|
    requires forall k :: k in ns.segs && ns.segs[k].dest && !ns.segs[k].deleted ==> ns.segs[k].nattch > 0
    requires forall t :: t in m ==> m[t].h in ns.segs && IdToIdx(m[t].id) == m[t].h
    requires forall t :: t in m && m[t].Attached? ==> !ns.segs[m[t].h].deleted
    ensures AttachInv(EndAttach(ns, h), m)
  {
    var g := ns.segs[h].(nattch := ns.segs[h].nattch - 1);
    var mid := ns.(segs := ns.segs[h := g]);
    hide IdToIdx, Attaching, Destroy;
    if g.nattch == 0 && g.dest {
      DestroyKeepsAttach(mid, m, h);
    }
  }

  lemma FinishKeepsAttach(s: State, t: Tid)
    requires Inv(s) && Enabled(s, Finish(t)) && Lookup(s.ns, s.threads[t].id) == Some(s.threads[t].h)
    ensures var s' := Apply(s, Finish(t)); AttachInv(s'.ns, s'.threads)
  {
    FinishCounts(s, t);
    assert t in Attaching(s.threads, s.threads[t].h);
    hide TableInv, IdInv, GoneInv, Total, IdToIdx, Attaching, EndAttach, Lookup, LockSucceeds;
    EndKeepsAttach(s.ns, s.threads - {t}, s.threads[t].h);
  }

  lemma FinishKeepsInv(s: State, t: Tid)
    requires Inv(s) && Enabled(s, Finish(t))
    ensures Inv(Apply(s, Finish(t)))
  {
    var h := s.threads[t].h;
    AttachFindsItsSegment(s, t);
    var g := s.ns.segs[h].(nattch := s.ns.segs[h].nattch - 1);
    var mid := s.ns.(segs := s.ns.segs[h := g]);
    SameShape(s.ns, h, g, s.gone);
    FinishKeepsAttach(s, t);
    if g.nattch == 0 && g.dest {
      DestroyKeepsTable(mid, h);
      DestroyKeepsTotal(mid, h);
      DestroyKeepsGone(mid, h, s.gone);
    }
    hide TableInv, IdInv, AttachInv, GoneInv, Total, Destroy, Lookup, LockSucceeds;
  }

  lemma StepKeepsInv(s: State, e: Event)
    requires Inv(s) && Enabled(s, e)
    ensures Inv(Apply(s, e))
  {
    match e
    case Create(size) => CreateKeepsInv(s, size);
    case Find(t, id) => FindKeepsInv(s, t, id);
    case Attach(t) => AttachKeepsInv(s, t);
    case Finish(t) => FinishKeepsInv(s, t);
    case Remove(id) => RemoveKeepsInv(s, id);
  }

  lemma {:induction false} RunKeepsInv(s: State, es: seq<Event>)
    requires Inv(s) && Legal(s, es)
    ensures Inv(Exec(s, es))
    decreases |es|
  {
    if es != [] {
      StepKeepsInv(s, es[0]);
      RunKeepsInv(Apply(s, es[0]), es[1..]);
    }
  }

  ghost predicate Reachable(s: State) {
    exists es :: Legal(Init, es) && s == Exec(Init, es)
  }

  lemma ReachableInv(s: State)
    requires Reachable(s)
    ensures Inv(s)
  {
    var es :| Legal(Init, es) && s == Exec(Init, es);
    RunKeepsInv(Init, es);
  }

  // ---------------------------------------------------------- main theorems

  /**
   In every run an attach in flight keeps its segment: its second lookup finds it, alive, so
   `shmat` always finishes.
   */
  lemma AttachAlwaysFinishes(s: State, t: Tid)
    requires Reachable(s) && t in s.threads && s.threads[t].Attached?
    ensures Enabled(s, Finish(t)) && Lookup(s.ns, s.threads[t].id) == Some(s.threads[t].h)
  {
    ReachableInv(s);
    AttachFindsItsSegment(s, t);
  }

  /**
   In every run: a segment is destroyed at most once; one marked for destruction is
   alive exactly while attaches are in flight; the attach count is the number of those.
   */
  lemma MarkedSegmentDiesWithItsLastAttach(s: State, h: nat)
    requires Reachable(s) && h in s.ns.segs
    ensures NoDup(s.gone) && (h in s.gone <==> s.ns.segs[h].deleted)
    ensures s.ns.segs[h].nattch == |Attaching(s.threads, h)|
    ensures s.ns.segs[h].dest ==> (s.ns.segs[h].deleted <==> Attaching(s.threads, h) == {})
  {
    ReachableInv(s);
    if Attaching(s.threads, h) != {} {
      var t :| t in Attaching(s.threads, h);
      assert s.threads[t].Attached? && !s.ns.segs[h].deleted;
    }
  }

  lemma RemovalStays(s: State, e: Event, h: nat)
    requires Inv(s) && Enabled(s, e) && h in s.ns.segs && (s.ns.segs[h].dest || s.ns.segs[h].deleted)
    ensures h in Apply(s, e).ns.segs && (Apply(s, e).ns.segs[h].dest || Apply(s, e).ns.segs[h].deleted)
  {
    NextIsNew(s.ns);
    hide TableInv, IdInv, AttachInv, GoneInv, Total, Pages, IdToIdx, Admit;
  }

  lemma {:induction false} RemovalStaysInRuns(s: State, es: seq<Event>, h: nat)
    requires Inv(s) && Legal(s, es) && h in s.ns.segs && (s.ns.segs[h].dest || s.ns.segs[h].deleted)
    ensures Inv(Exec(s, es)) && h in Exec(s, es).ns.segs
    ensures Exec(s, es).ns.segs[h].dest || Exec(s, es).ns.segs[h].deleted
    decreases |es|
  {
    hide Inv, Apply, Enabled;
    if es != [] {
      StepKeepsInv(s, es[0]);
      RemovalStays(s, es[0], h);
      RemovalStaysInRuns(Apply(s, es[0]), es[1..], h);
    }
  }

  /**
   A removal is never forgotten: after it, whatever else happens, the segment is destroyed as soon
   as no attach of it is in flight, at once if none is.
   */
  lemma {:induction false} RemovedSegmentIsDestroyed(s: State, id: int, es: seq<Event>)
    requires Reachable(s) && Enabled(s, Remove(id)) && Legal(Apply(s, Remove(id)), es)
    ensures var h, s' := Lookup(s.ns, id).value, Exec(Apply(s, Remove(id)), es);
            h in s'.ns.segs && (s'.ns.segs[h].deleted <==> Attaching(s'.threads, h) == {})
  {
    ReachableInv(s);
    StepKeepsInv(s, Remove(id));
    var h := Lookup(s.ns, id).value;
    LookupIsLive(s, id);
    assert h in Apply(s, Remove(id)).ns.segs;
    RemovalStaysInRuns(Apply(s, Remove(id)), es, h);
    DeadIffUnattached(Exec(Apply(s, Remove(id)), es), h);
  }

  lemma DeadIffUnattached(s: State, h: nat)
    requires Inv(s) && h in s.ns.segs
    ensures s.ns.segs[h].deleted ==> Attaching(s.threads, h) == {}
    ensures s.ns.segs[h].dest && Attaching(s.threads, h) == {} ==> s.ns.segs[h].deleted
  {
    if Attaching(s.threads, h) != {} {
      var t :| t in Attaching(s.threads, h);
      assert s.threads[t].Attached? && !s.ns.segs[h].deleted;
    }
  }

  /** The step that destroys a marked segment is the finish of its last attach. */
  lemma OnlyTheLastFinishDestroys(s: State, e: Event, h: nat)
    requires Reachable(s) && Enabled(s, e) && h in s.ns.segs && s.ns.segs[h].dest && !s.ns.segs[h].deleted
    ensures h in Apply(s, e).ns.segs
    ensures Apply(s, e).ns.segs[h].deleted <==> e.Finish? && Attaching(s.threads, h) == {e.t}
  {
    ReachableInv(s);
    var s' := Apply(s, e);
    match e
    case Finish(t) =>
      AttachFindsItsSegment(s, t);
      var a := Attaching(s.threads, s.threads[t].h);
      assert t in a;
      if |a| == 1 {
        SubsetSameSize({t}, a);
      }
      if s.threads[t].h != h {
        assert t !in Attaching(s.threads, h);
      }
    case Remove(id) => LookupIsLive(s, id);
    case _ =>
  }

  /**
   In every run the page total is the sum over live segments, the usage count their number,
   and both keep their limits.
   */
  lemma AccountingIsExact(s: State)
    requires Reachable(s)
    ensures s.ns.tot == Total(s.ns.segs) <= SHMALL
    ensures s.ns.inUse == |s.ns.table|
    ensures forall h :: h in s.ns.table <==> h in s.ns.segs && !s.ns.segs[h].deleted
  {
    ReachableInv(s);
  }

  /**
   In every run an identifier in use is a non-negative int that decodes to its segment's
   index and sequence number, and two segments never share one.
   */
  lemma IdentifiersAreUnique(s: State, g: nat, h: nat)
    requires Reachable(s) && g in s.ns.segs && h in s.ns.segs
    ensures 0 <= s.ns.segs[h].id <= INT_MAX
    ensures IdToIdx(s.ns.segs[h].id) == h && IdToSeq(s.ns.segs[h].id) == s.ns.segs[h].gen
    ensures s.ns.segs[g].id == s.ns.segs[h].id ==> g == h
  {
    ReachableInv(s);
    IdDecodesIff(g, s.ns.segs[g].gen);
    IdDecodesIff(h, s.ns.segs[h].gen);
  }

  // ------------------------------------------- an attach that loses the race

  lemma SegmentStays(s: State, e: Event, h: nat)
    requires Inv(s) && Enabled(s, e) && h in s.ns.segs
    ensures h in Apply(s, e).ns.segs && Apply(s, e).ns.segs[h].gen == s.ns.segs[h].gen
  {
    NextIsNew(s.ns);
  }

  lemma FoundStep(s: State, e: Event, t: Tid)
    requires Enabled(s, e) && e != Attach(t) && t in s.threads && s.threads[t].Found?
    ensures t in Apply(s, e).threads && Apply(s, e).threads[t] == s.threads[t]
  {
    hide Rmid, NewSeg, EndAttach, BeginAttach;
  }

  lemma {:induction false} FoundStays(s: State, es: seq<Event>, t: Tid)
    requires Inv(s) && Legal(s, es) && Attach(t) !in es && t in s.threads && s.threads[t].Found?
    ensures var s', h := Exec(s, es), s.threads[t].h;
            && Inv(s') && t in s'.threads && s'.threads[t] == s.threads[t]
            && h in s.ns.segs && h in s'.ns.segs && s'.ns.segs[h].gen == s.ns.segs[h].gen
    decreases |es|
  {
    assert s.threads[t].h in s.ns.segs;
    hide Apply, Enabled, Inv;
    if es != [] {
      var e, rest := es[0], es[1..];
      assert es == [e] + rest;
      StepKeepsInv(s, e);
      SegmentStays(s, e, s.threads[t].h);
      FoundStep(s, e, t);
      FoundStays(Apply(s, e), rest, t);
    }
  }

  /**
   A `shmat` that has found its descriptor without a lock can go on, whatever happens before
   it locks it, exactly when the identifier was the segment's own and the segment has not been
   destroyed since; otherwise it panics.
   */
  lemma {:induction false} AttachGoesOnIff(s: State, t: Tid, id: int, es: seq<Event>)
    requires Reachable(s) && Enabled(s, Find(t, id))
    requires Legal(Apply(s, Find(t, id)), es) && Attach(t) !in es
    ensures var s', h := Exec(Apply(s, Find(t, id)), es), Lookup(s.ns, id).value;
            && h in s.ns.segs && t in s'.threads && s'.threads[t] == Found(h, id)
            && (Enabled(s', Attach(t)) <==> id == s.ns.segs[h].id && h !in s'.gone)
  {
    ReachableInv(s);
    var s1, h := Apply(s, Find(t, id)), Lookup(s.ns, id).value;
    StepKeepsInv(s, Find(t, id));
    FoundStays(s1, es, t);
    var s' := Exec(s1, es);
    LookupIsLive(s, id);
    IdentifiersAreUnique(s, h, h);
    assert id == IPCMNI * IdToSeq(id) + IdToIdx(id);
    hide IdToSeq, IdToIdx;
    assert h in s'.gone <==> s'.ns.segs[h].deleted;
  }

  lemma {:induction false} Then(s: State, e: Event, s': State, rest: seq<Event>)
    requires Enabled(s, e) && Apply(s, e) == s' && Legal(s', rest)
    ensures Legal(s, [e] + rest) && Exec(s, [e] + rest) == Exec(s', rest)
  {
    assert ([e] + rest)[1..] == rest;
  }

  /** One segment of one byte; a `shmat` has found it; it is removed. */
  ghost const Created := State(Ns(map[0 := Seg(0, 0, 1, 0, false, false)], {0}, 1, 1, 1, 1), map[], [])
  ghost const Looking := Created.(threads := map[1 := Found(0, 0)])
  ghost const Removed := State(Ns(map[0 := Seg(0, 0, 1, 0, false, true)], {}, 0, 1, 1, 0), map[1 := Found(0, 0)], [0])

  lemma FirstSegment()
    ensures Admit(Empty(), 1) == Id(0) && NewSeg(Empty(), 1) == Created.ns
  {
    assert Pages(1) == 1;
    assert SeqMax() >= 1;
  }

  lemma ZeroDecodes()
    ensures IdToIdx(0) == 0 == IdToSeq(0)
  {
  }

  lemma FirstSteps()
    ensures Enabled(Init, Create(1)) && Apply(Init, Create(1)) == Created
    ensures Enabled(Created, Find(1, 0)) && Apply(Created, Find(1, 0)) == Looking
  {
    FirstSegment();
    ZeroDecodes();
    hide Admit, NewSeg, IdToIdx, IdToSeq, Rmid, BeginAttach, EndAttach;
  }

  lemma LastStep()
    ensures Enabled(Looking, Remove(0)) && Apply(Looking, Remove(0)) == Removed && !Enabled(Removed, Attach(1))
  {
    ZeroDecodes();
    assert Minus(1, Pages(1)) == 0;
    hide Admit, NewSeg, IdToIdx, IdToSeq, BeginAttach, EndAttach, Pages, Minus;
  }

  /** The race can be lost: the segment is removed between the two steps. */
  lemma {:induction false} AttachCanLose()
    ensures var es := [Create(1), Find(1, 0), Remove(0)];
            && Legal(Init, es) && 1 in Exec(Init, es).threads
            && Exec(Init, es).threads[1] == Found(0, 0) && !Enabled(Exec(Init, es), Attach(1))
  {
    FirstSteps();
    LastStep();
    hide Enabled, Apply;
    Then(Looking, Remove(0), Removed, []);
    Then(Created, Find(1, 0), Looking, [Remove(0)]);
    Then(Init, Create(1), Created, [Find(1, 0), Remove(0)]);
  }
}
