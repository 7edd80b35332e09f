/**
 Any number of producers and consumers of one bounded buffer, under every interleaving.
 One step is one return of `sema_wait`, one critical section, one unlocked read of a
 counter, or one `sema_signal`. The ring itself is part of the state: a store writes, and
 a take reads, the slot that the 32-bit counter reduced modulo the capacity names.
 */
module SbufRuns {
  import opened Common
  import opened SbufRing

  type Tid = nat

  datatype Phase =
    | InsertGranted(item: bv8)  // has a slot, has not stored yet
    | InsertStored              // stored, has not signalled items yet
    | RemoveGranted             // has an item, has read neither counter
    | SawR(v: nat)              // read r (as v), about to read w
    | SawW(v: nat)              // read w (as v), about to read r
    | RemoveChecked             // passed the test r == w, about to lock
    | RemoveTaken               // took the byte, has not signalled slots yet

  /**
   The counters w and r are the lengths of `inserted` and `removed`, the bytes stored and
   the bytes handed out. `lost` counts slots given up by failed copies, `dropped` the items
   given up by the return after the unlocked test; both are history.
   */
  datatype State = State(
    n: nat, slots: nat, items: nat, inserted: seq<bv8>, removed: seq<bv8>, buf: seq<bv8>,
    threads: map<Tid, Phase>, lost: nat, dropped: nat)

  datatype Event =
    | SlotGranted(t: Tid, item: bv8)   // sema_wait(slots) returns
    | Store(t: Tid, ok: bool)          // the section of sbuf_insert; ok: the copy from user memory succeeds
    | SignalItem(t: Tid)
    | ItemGranted(t: Tid)              // sema_wait(items) returns
    | ReadFirst(t: Tid, rFirst: bool)  // the two reads of r == w; C leaves their order open
    | ReadSecond(t: Tid)
    | Take(t: Tid, ok: bool)           // the section of sbuf_remove; ok: the copy to user memory succeeds
    | SignalSlot(t: Tid)

  /** `sbuf_init`; what the allocated memory holds is arbitrary. */
  ghost predicate Initial(s: State) {
    s == State(s.n, s.n, 0, [], [], s.buf, map[], 0, 0) && |s.buf| == s.n > 0
  }

  ghost predicate Enabled(s: State, e: Event) {
    |s.buf| == s.n > 0
    && match e
       case SlotGranted(t, item) => t !in s.threads && s.slots > 0
       case Store(t, ok) => t in s.threads && s.threads[t].InsertGranted?
       case SignalItem(t) => t in s.threads && s.threads[t].InsertStored?
       case ItemGranted(t) => t !in s.threads && s.items > 0
       case ReadFirst(t, rFirst) => t in s.threads && s.threads[t].RemoveGranted?
       case ReadSecond(t) => t in s.threads && (s.threads[t].SawR? || s.threads[t].SawW?)
       case Take(t, ok) => t in s.threads && s.threads[t].RemoveChecked?
       case SignalSlot(t) => t in s.threads && s.threads[t].RemoveTaken?
  }

  /** The unlocked test of `sbuf_remove` on the 32-bit counters, one of which was read earlier. */
  ghost predicate LooksEmpty(s: State, ph: Phase)
    requires ph.SawR? || ph.SawW?
  {
    if ph.SawR? then ph.v % WRAP == |s.inserted| % WRAP else |s.removed| % WRAP == ph.v % WRAP
  }

  ghost function Apply(s: State, e: Event): State
    requires Enabled(s, e)
  {
    match e
    case SlotGranted(t, item) => s.(slots := s.slots - 1, threads := s.threads[t := InsertGranted(item)])
    case Store(t, ok) =>
      if ok then
        s.(inserted := s.inserted + [s.threads[t].item],
           buf := s.buf[Slot(|s.inserted|, s.n) := s.threads[t].item], threads := s.threads[t := InsertStored])
      else s.(threads := s.threads - {t}, lost := s.lost + 1)
    case SignalItem(t) => s.(items := s.items + 1, threads := s.threads - {t})
    case ItemGranted(t) => s.(items := s.items - 1, threads := s.threads[t := RemoveGranted])
    case ReadFirst(t, rFirst) =>
      s.(threads := s.threads[t := if rFirst then SawR(|s.removed|) else SawW(|s.inserted|)])
    case ReadSecond(t) =>
      if LooksEmpty(s, s.threads[t]) then s.(threads := s.threads - {t}, dropped := s.dropped + 1)
      else s.(threads := s.threads[t := RemoveChecked])
    case Take(t, ok) =>
      var s' := s.(removed := s.removed + [s.buf[Slot(|s.removed|, s.n)]]);
      if ok then s'.(threads := s.threads[t := RemoveTaken])
      else s'.(threads := s.threads - {t}, lost := s.lost + 1)
    case SignalSlot(t) => s.(slots := s.slots + 1, threads := s.threads - {t})
  }

  ghost predicate Legal(s: State, es: seq<Event>)
    decreases |es|
  {
    es == [] || (Enabled(s, es[0]) && Legal(Apply(s, es[0]), es[1..]))
  }

  ghost function Exec(s: State, es: seq<Event>): State
    requires Legal(s, es)
    decreases |es|
  {
    if es == [] then s else Exec(Apply(s, es[0]), es[1..])
  }

  // ------------------------------------------------------------- counting

  datatype Kind = Inserting | Stored | Removing | Taken

  ghost function KindOf(ph: Phase): Kind {
    match ph
    case InsertGranted(_) => Inserting
    case InsertStored => Stored
    case RemoveTaken => Taken
    case _ => Removing
  }

  ghost function Of(m: map<Tid, Phase>, k: Kind): set<Tid> {
    set t | t in m && KindOf(m[t]) == k
  }

  ghost function Share(m: map<Tid, Phase>, t: Tid, k: Kind): nat {
    if t in m && KindOf(m[t]) == k then 1 else 0
  }

  ghost predicate SameElsewhere(m: map<Tid, Phase>, m': map<Tid, Phase>, t: Tid) {
    forall u :: u != t ==> (u in m <==> u in m') && (u in m ==> m[u] == m'[u])
  }

  lemma Moves(m: map<Tid, Phase>, m': map<Tid, Phase>, t: Tid, k: Kind)
    requires SameElsewhere(m, m', t)
    ensures |Of(m', k)| - Share(m', t, k) == |Of(m, k)| - Share(m, t, k)
  {
    SizesDifferAt(Of(m, k), Of(m', k), t);
  }

  ghost predicate Inv(s: State) {
    && |s.buf| == s.n > 0
    && s.slots + |Of(s.threads, Inserting)| + (|s.inserted| - |s.removed|) + |Of(s.threads, Taken)| + s.lost == s.n
    && s.items + |Of(s.threads, Removing)| + |Of(s.threads, Stored)| + s.dropped == |s.inserted| - |s.removed|
    && |s.removed| <= |s.inserted|
  }

  lemma HolderSeesAByte(s: State, t: Tid)
    requires Inv(s) && t in s.threads && KindOf(s.threads[t]) == Removing
    ensures |s.removed| < |s.inserted|
  {
    assert t in Of(s.threads, Removing);
  }

  lemma OneMoves(s: State, e: Event, k: Kind)
    requires Enabled(s, e)
    ensures |Of(Apply(s, e).threads, k)| - Share(Apply(s, e).threads, e.t, k)
         == |Of(s.threads, k)| - Share(s.threads, e.t, k)
  {
    assert SameElsewhere(s.threads, Apply(s, e).threads, e.t);
    Moves(s.threads, Apply(s, e).threads, e.t, k);
  }

  lemma StepKeepsInv(s: State, e: Event)
    requires Inv(s) && Enabled(s, e)
    ensures Inv(Apply(s, e)) && Apply(s, e).n == s.n
  {
    hide Of, Slot;
    OneMoves(s, e, Inserting);
    OneMoves(s, e, Stored);
    OneMoves(s, e, Removing);
    OneMoves(s, e, Taken);
    if e.Take? {
      HolderSeesAByte(s, e.t);
    }
  }

  // -------------------------------------------------------------- the ring

  /**
   While slots follow the counter, unread bytes are in their slots and what was taken is what
   was stored first.
   */
  ghost predicate RingInv(s: State)
    requires |s.buf| == s.n > 0
  {
    Exact(|s.inserted|, s.n) ==>
      && s.removed <= s.inserted
      && forall k :: |s.removed| <= k < |s.inserted| ==> s.buf[Slot(k, s.n)] == s.inserted[k]
  }

  lemma StoreKeepsRing(s: State, t: Tid)
    requires Inv(s) && RingInv(s) && Enabled(s, Store(t, true))
    ensures RingInv(Apply(s, Store(t, true)))
  {
    assert t in Of(s.threads, Inserting);
    var w := |s.inserted|;
    if Exact(w + 1, s.n) {
      SlotsDiffer(|s.removed|, w, s.n);
      Advance(w, s.n);
    }
    hide Slot, Exact, Of;
  }

  lemma StepKeepsRing(s: State, e: Event)
    requires Inv(s) && RingInv(s) && Enabled(s, e)
    ensures |Apply(s, e).buf| == s.n && RingInv(Apply(s, e))
  {
    hide Slot, Exact, Of;
    if e.Store? && e.ok {
      StoreKeepsRing(s, e.t);
    } else if e.Take? {
      HolderSeesAByte(s, e.t);
    }
  }

  lemma {:induction false} RunKeepsInv(s: State, es: seq<Event>)
    requires Inv(s) && RingInv(s) && Legal(s, es)
    ensures Inv(Exec(s, es)) && Exec(s, es).n == s.n && RingInv(Exec(s, es))
    decreases |es|
  {
    if es != [] {
      StepKeepsInv(s, es[0]);
      StepKeepsRing(s, es[0]);
      RunKeepsInv(Apply(s, es[0]), es[1..]);
    }
  }

  ghost predicate Reachable(s: State) {
    exists b, es :: Initial(b) && Legal(b, es) && s == Exec(b, es)
  }

  lemma InitialInv(s: State)
    requires Initial(s)
    ensures Inv(s) && RingInv(s)
  {
    assert Of(map[], Inserting) == {} && Of(map[], Stored) == {} && Of(map[], Removing) == {} && Of(map[], Taken) == {};
  }

  lemma ReachableInv(s: State)
    requires Reachable(s)
    ensures Inv(s) && RingInv(s)
  {
    var b, es :| Initial(b) && Legal(b, es) && s == Exec(b, es);
    InitialInv(b);
    RunKeepsInv(b, es);
  }

  // ---------------------------------------------------------- main theorems

  /**
   In every run, however long: capacity is conserved (free slots, inserters, unread bytes,
   removers and slots lost to failed copies make up n), and items and their holders make
   up the unread bytes.
   */
  lemma CapacityIsConserved(s: State)
    requires Reachable(s)
    ensures |s.removed| <= |s.inserted| <= |s.removed| + s.n
    ensures s.slots + |Of(s.threads, Inserting)| + (|s.inserted| - |s.removed|) + |Of(s.threads, Taken)| + s.lost == s.n
    ensures s.items + |Of(s.threads, Removing)| + |Of(s.threads, Stored)| + s.dropped == |s.inserted| - |s.removed|
  {
    ReachableInv(s);
  }

  /**
   The bytes handed out are a prefix of the bytes stored, and every unread byte is in its
   slot, before the counter first wraps and for ever if the capacity divides 2^32.
   */
  lemma BytesComeOutInOrder(s: State)
    requires Reachable(s) && s.n > 0 && Exact(|s.inserted|, s.n)
    ensures s.removed <= s.inserted && |s.buf| == s.n
    ensures forall k :: |s.removed| <= k < |s.inserted| ==> s.buf[Slot(k, s.n)] == s.inserted[k]
  {
    ReachableInv(s);
  }

  /** Whoever is about to store has room, as `Sbuf.Insert` demands. */
  lemma StoreHasRoom(s: State, t: Tid)
    requires Reachable(s) && t in s.threads && s.threads[t].InsertGranted?
    ensures |s.inserted| - |s.removed| < s.n
  {
    ReachableInv(s);
    assert t in Of(s.threads, Inserting);
  }

  /** And the slot it writes holds no unread byte, as long as slots follow the counter. */
  lemma NoUnreadByteIsOverwritten(s: State, t: Tid, k: nat)
    requires Reachable(s) && Enabled(s, Store(t, true)) && Exact(|s.inserted| + 1, s.n)
    requires |s.removed| <= k < |s.inserted|
    ensures |s.buf| == |Apply(s, Store(t, true)).buf| == s.n
    ensures Apply(s, Store(t, true)).buf[Slot(k, s.n)] == s.buf[Slot(k, s.n)] == s.inserted[k]
  {
    ReachableInv(s);
    StoreHasRoom(s, t);
    SlotsDiffer(|s.removed|, |s.inserted|, s.n);
    Advance(|s.inserted|, s.n);
    hide Slot, Exact;
  }

  /** Whoever is about to take a byte finds one, as `Sbuf.Remove` demands. */
  lemma TakeFindsAByte(s: State, t: Tid)
    requires Reachable(s) && t in s.threads && s.threads[t].RemoveChecked?
    ensures |s.removed| < |s.inserted|
  {
    ReachableInv(s);
    HolderSeesAByte(s, t);
  }

  /** With nobody in progress the two semaphores describe the buffer exactly. */
  lemma QuietBufferIsExact(s: State)
    requires Reachable(s) && s.threads == map[]
    ensures s.items + s.dropped == |s.inserted| - |s.removed|
    ensures s.slots + s.lost == s.n - (|s.inserted| - |s.removed|)
  {
    ReachableInv(s);
    assert Of(s.threads, Inserting) == {} && Of(s.threads, Stored) == {};
    assert Of(s.threads, Removing) == {} && Of(s.threads, Taken) == {};
  }

  // ------------------------------------------------- the unlocked test r == w

  /** Everyone past the first read read r, and r was below w then, so it is below w now. */
  ghost predicate SeenBelow(s: State) {
    forall t :: t in s.threads ==>
      !s.threads[t].SawW? && (s.threads[t].SawR? ==> s.threads[t].v < |s.inserted|)
  }

  ghost predicate ReadsRFirst(es: seq<Event>) {
    forall i :: 0 <= i < |es| && es[i].ReadFirst? ==> es[i].rFirst
  }

  lemma StepKeepsSeenBelow(s: State, e: Event)
    requires Inv(s) && SeenBelow(s) && Enabled(s, e) && (e.ReadFirst? ==> e.rFirst)
    ensures SeenBelow(Apply(s, e))
  {
    if e.ReadFirst? {
      HolderSeesAByte(s, e.t);
    }
  }

  lemma {:induction false} RunKeepsSeenBelow(s: State, es: seq<Event>)
    requires Inv(s) && SeenBelow(s) && Legal(s, es) && ReadsRFirst(es)
    ensures SeenBelow(Exec(s, es))
    decreases |es|
  {
    if es != [] {
      StepKeepsInv(s, es[0]);
      StepKeepsSeenBelow(s, es[0]);
      assert forall i :: 0 <= i < |es[1..]| ==> es[1..][i] == es[i + 1];
      RunKeepsSeenBelow(Apply(s, es[0]), es[1..]);
    }
  }

  /** Reachable with r read before w in every test. */
  ghost predicate ReachableRFirst(s: State) {
    exists b, es :: Initial(b) && Legal(b, es) && ReadsRFirst(es) && s == Exec(b, es)
  }

  lemma SameRemainderIff(v: nat, w: nat)
    requires v <= w
    ensures v % WRAP == w % WRAP <==> (w - v) % WRAP == 0
  {
    var a, b := v / WRAP, w / WRAP;
    assert v == a * WRAP + v % WRAP && w == b * WRAP + w % WRAP;
  }

  /**
   If r is read before w, a consumer gives its item up exactly when the bytes stored beyond
   the r it read are a multiple of 2^32, and they are at least one: so only if the counter
   went all the way round between its two reads.
   */
  lemma TestGivesUpIff(s: State, t: Tid)
    requires ReachableRFirst(s) && Enabled(s, ReadSecond(t))
    ensures s.threads[t].SawR? && s.threads[t].v < |s.inserted|
    ensures Apply(s, ReadSecond(t)).dropped == s.dropped + 1 <==> (|s.inserted| - s.threads[t].v) % WRAP == 0
  {
    var b, es :| Initial(b) && Legal(b, es) && ReadsRFirst(es) && s == Exec(b, es);
    InitialInv(b);
    RunKeepsSeenBelow(b, es);
    SameRemainderIff(s.threads[t].v, |s.inserted|);
  }

  /** Every test reads w before 2^32 bytes have gone in beyond the r it read. */
  ghost predicate Prompt(s: State, es: seq<Event>)
    requires Legal(s, es)
    decreases |es|
  {
    es == []
    || ((es[0].ReadSecond? && s.threads[es[0].t].SawR? ==> |s.inserted| < s.threads[es[0].t].v + WRAP)
        && Prompt(Apply(s, es[0]), es[1..]))
  }

  lemma {:induction false} PromptRunKeepsItems(s: State, es: seq<Event>)
    requires Inv(s) && SeenBelow(s) && Legal(s, es) && ReadsRFirst(es) && Prompt(s, es)
    ensures Exec(s, es).dropped == s.dropped
    decreases |es|
  {
    if es != [] {
      var s' := Apply(s, es[0]);
      StepKeepsInv(s, es[0]);
      StepKeepsSeenBelow(s, es[0]);
      if es[0].ReadSecond? {
        SameRemainderIff(s.threads[es[0].t].v, |s.inserted|);
      }
      assert s'.dropped == s.dropped;
      assert forall i :: 0 <= i < |es[1..]| ==> es[1..][i] == es[i + 1];
      PromptRunKeepsItems(s', es[1..]);
    }
  }

  /**
   So in runs of any length in which no consumer sleeps through a whole turn of the counter,
   no item is given up.
   */
  lemma {:induction false} NoItemIsGivenUp(b: State, es: seq<Event>)
    requires Initial(b) && Legal(b, es) && ReadsRFirst(es) && Prompt(b, es)
    ensures var s := Exec(b, es);
            s.dropped == 0
            && s.items + |Of(s.threads, Removing)| + |Of(s.threads, Stored)| == |s.inserted| - |s.removed|
  {
    InitialInv(b);
    PromptRunKeepsItems(b, es);
    RunKeepsInv(b, es);
  }
}
