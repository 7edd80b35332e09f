/**
 System V shared memory: identifiers, page accounting, and the deferred destruction of
 a segment that is removed while attaches are in flight.
 */
module Shm {
  import opened Common

  const IPCMNI: nat := 32768
  const INT_MAX: nat := 0x7fff_ffff
  const USHORT_MAX: nat := 65535
  const WORD: nat := 0x1_0000_0000_0000_0000  // 2^64
  const SHMMAX: nat := WORD - 1 - 0x100_0000  // ULONG_MAX - (1 << 24)
  const SHMALL: nat := WORD - 1 - 0x100_0000
  const SHMMNI: nat := 4096

  // ----------------------------------------------------------- identifiers

  /** `ipc_init_ids`: the largest sequence number. */
  function SeqMax(): nat {
    var limit := INT_MAX / IPCMNI;
    if limit > USHORT_MAX then USHORT_MAX else limit
  }

  function BuildId(idx: nat, gen: nat): int { IPCMNI * gen + idx }

  function IdToIdx(id: int): nat { id % IPCMNI }

  function IdToSeq(id: int): int { id / IPCMNI }

  /**
   An identifier decodes to the index and sequence number it was built from, and fits
   an int, exactly while the index is below 2^15; the indices the kernel hands out are
   not limited to that range.
   */
  lemma IdDecodesIff(idx: nat, gen: nat)
    requires gen <= SeqMax()
    ensures IdToIdx(BuildId(idx, gen)) == idx && IdToSeq(BuildId(idx, gen)) == gen <==> idx < IPCMNI
    ensures idx < IPCMNI ==> 0 <= BuildId(idx, gen) <= INT_MAX
  {
  }

  /** The index after the last decodable one is taken for index 0 of the next sequence number. */
  lemma IndexOverflowAliases(gen: nat)
    ensures BuildId(IPCMNI, gen) == BuildId(0, gen + 1)
  {
  }

  // -------------------------------------------------------------- segments

  /**
   A descriptor. It is named by its index, which the allocation counter never repeats; it is
   never freed.
   */
  datatype Seg = Seg(gen: nat, id: int, size: nat, nattch: int, dest: bool, deleted: bool)

  /** The namespace: every descriptor so far, the hash table of live indices, and the counters. */
  datatype Ns = Ns(segs: map<nat, Seg>, table: set<nat>, inUse: int, gen: nat, nextIdx: nat, tot: nat)

  datatype Answer = Id(id: int) | Einval | Enospc | Panic

  /** Pages of a segment: the size rounded up, computed in 64 bits. */
  function Pages(size: nat): (p: nat)
    ensures p <= WORD
  {
    ((size + 4095) % WORD) / 4096
  }

  /** Subtraction in 64 bits. */
  function Minus(a: nat, b: nat): nat
    requires b <= WORD
  {
    if a >= b then a - b else a + WORD - b
  }

  /** The admission test of `newseg`, in 64-bit arithmetic. */
  function Admit(ns: Ns, size: nat): Answer
  {
    var pages := Pages(size);
    if size < 1 || size > SHMMAX then Einval
    else if (pages * 4096) % WORD < size then Enospc
    else if (ns.tot + pages) % WORD < ns.tot || (ns.tot + pages) % WORD > SHMALL then Enospc
    else if ns.inUse >= (if SHMMNI > IPCMNI then IPCMNI else SHMMNI) then Panic
    else Id(BuildId(ns.nextIdx, ns.gen))
  }

  /**
   What admission means: a size of at least one byte, and a page total within the limit as
   plain integers.
   */
  lemma AdmissionIsExact(ns: Ns, size: nat)
    requires ns.tot <= SHMALL && size < WORD && ns.inUse < SHMMNI
    ensures Admit(ns, size).Id? <==> 1 <= size <= SHMMAX && ns.tot + Pages(size) <= SHMALL
    ensures 1 <= size <= SHMMAX ==> Pages(size) * 4096 >= size > (Pages(size) - 1) * 4096
  {
    if 1 <= size <= SHMMAX {
      assert size + 4095 < WORD;
      var p := Pages(size);
      assert p * 4096 <= size + 4095 < p * 4096 + 4096;
    }
  }

  /** Which answer a request gets: each failure has its own reason, tried in this order. */
  ghost predicate AnswerFor(ns: Ns, size: nat, r: Answer) {
    var fits := 1 <= size <= 0xFFFF_FFFF_FEFF_FFFF;
    var enough := ns.tot + (size + 4095) / 4096 <= 0xFFFF_FFFF_FEFF_FFFF;
    && (r == Einval <==> !fits)
    && (r == Enospc <==> fits && !enough)
    && (r == Panic <==> fits && enough && ns.inUse >= 4096)
    && (r.Id? <==> fits && enough && ns.inUse < 4096)
    && (r.Id? ==> r.id == 32768 * ns.gen + ns.nextIdx)
  }

  lemma AnswerIsExact(ns: Ns, size: nat)
    requires ns.tot <= SHMALL && size < WORD
    ensures AnswerFor(ns, size, Admit(ns, size))
  {
    if 1 <= size <= SHMMAX {
      assert Pages(size) == (size + 4095) / 4096;
      var p := Pages(size);
      assert p * 4096 <= size + 4095 < p * 4096 + 4096;
    }
  }

  /** `newseg` and `ipc_addid` once admitted. */
  function NewSeg(ns: Ns, size: nat): Ns
    requires Admit(ns, size).Id?
  {
    var s := Seg(ns.gen, BuildId(ns.nextIdx, ns.gen), size, 0, false, false);
    ns.(segs := ns.segs[ns.nextIdx := s], table := ns.table + {ns.nextIdx}, inUse := ns.inUse + 1,
        gen := if ns.gen + 1 > SeqMax() then 0 else ns.gen + 1, nextIdx := ns.nextIdx + 1,
        tot := ns.tot + Pages(size))
  }

  /** `shm_destroy`. */
  function Destroy(ns: Ns, h: nat): Ns
    requires h in ns.segs
  {
    var s := ns.segs[h];
    ns.(segs := ns.segs[h := s.(deleted := true)], table := ns.table - {IdToIdx(s.id)}, inUse := ns.inUse - 1,
        tot := Minus(ns.tot, Pages(s.size)))
  }

  /** `ipc_lock`: the descriptor an identifier finds; None is its panic. */
  function Lookup(ns: Ns, id: int): Option<nat> {
    if IdToIdx(id) in ns.table && IdToIdx(id) in ns.segs then Some(IdToIdx(id)) else None
  }

  /** `ipc_lock` once the descriptor's lock is held, and the sequence test of `ipc_lock_check`. */
  predicate Passes(s: Seg, id: int) { !s.deleted && IdToSeq(id) == s.gen }

  /** `do_shm_rmid`: mark the segment if attaches are in flight, destroy it otherwise. */
  function Rmid(ns: Ns, h: nat): Ns
    requires h in ns.segs
  {
    if ns.segs[h].nattch != 0 then ns.(segs := ns.segs[h := ns.segs[h].(dest := true)]) else Destroy(ns, h)
  }

  /** The first critical section of `do_shmat`. */
  function BeginAttach(ns: Ns, h: nat): Ns
    requires h in ns.segs
  {
    ns.(segs := ns.segs[h := ns.segs[h].(nattch := ns.segs[h].nattch + 1)])
  }

  /** The last critical section of `do_shmat`. */
  function EndAttach(ns: Ns, h: nat): Ns
    requires h in ns.segs
  {
    var s := ns.segs[h].(nattch := ns.segs[h].nattch - 1);
    var ns' := ns.(segs := ns.segs[h := s]);
    if s.nattch == 0 && s.dest then Destroy(ns', h) else ns'
  }

  // ------------------------------------------------------- page accounting

  ghost function LivePages(s: Seg): nat { if s.deleted then 0 else Pages(s.size) }

  /** Pages of all live segments. */
  ghost function Total(m: map<nat, Seg>): nat {
    if m == map[] then 0
    else
      var h :| h in m;
      LivePages(m[h]) + Total(m - {h})
  }

  lemma {:induction false} TotalRemove(m: map<nat, Seg>, h: nat)
    requires h in m
    ensures Total(m) == LivePages(m[h]) + Total(m - {h})
    decreases |m|
  {
    var g :| g in m && Total(m) == LivePages(m[g]) + Total(m - {g});
    if g != h {
      assert |(m - {g}).Keys| < |m.Keys| by { assert (m - {g}).Keys == m.Keys - {g}; }
      assert |(m - {h}).Keys| < |m.Keys| by { assert (m - {h}).Keys == m.Keys - {h}; }
      TotalRemove(m - {g}, h);
      TotalRemove(m - {h}, g);
      assert (m - {g}) - {h} == (m - {h}) - {g};
    }
  }

  lemma TotalUpdate(m: map<nat, Seg>, h: nat, s: Seg)
    ensures Total(m[h := s]) == Total(m) - (if h in m then LivePages(m[h]) else 0) + LivePages(s)
  {
    var m' := m[h := s];
    TotalRemove(m', h);
    if h in m {
      TotalRemove(m, h);
      assert m' - {h} == m - {h};
    } else {
      assert m' - {h} == m;
    }
  }

  // -------------------------------------------------------- table and totals

  /** The table lists exactly the live segments. */
  ghost predicate TableInv(ns: Ns) {
    && (forall i :: i in ns.table <==> i in ns.segs && !ns.segs[i].deleted)
    && ns.inUse == |ns.table|
  }

  /** Indices are never reused, and every identifier is built from its index and sequence number. */
  ghost predicate IdInv(ns: Ns) {
    && (forall h :: h in ns.segs ==>
          h < ns.nextIdx && ns.segs[h].gen <= SeqMax() && ns.segs[h].id == BuildId(h, ns.segs[h].gen))
    && ns.nextIdx <= IPCMNI && ns.gen <= SeqMax()
  }

  lemma DestroyKeepsTable(ns: Ns, h: nat)
    requires TableInv(ns) && IdInv(ns) && h in ns.segs && !ns.segs[h].deleted
    ensures TableInv(Destroy(ns, h)) && IdInv(Destroy(ns, h))
  {
    IdDecodesIff(h, ns.segs[h].gen);
    hide BuildId, IdToIdx, SeqMax, Pages;
    assert Destroy(ns, h).table == ns.table - {h};
  }

  lemma DestroyKeepsTotal(ns: Ns, h: nat)
    requires h in ns.segs && !ns.segs[h].deleted && ns.tot == Total(ns.segs) && ns.tot <= SHMALL
    ensures Destroy(ns, h).tot == Total(Destroy(ns, h).segs) <= SHMALL
  {
    TotalUpdate(ns.segs, h, ns.segs[h].(deleted := true));
  }

  /** Changing a descriptor's attach count or mark leaves table, identifiers and totals alone. */
  lemma SameTable(ns: Ns, h: nat, s: Seg)
    requires TableInv(ns) && h in ns.segs && s == ns.segs[h].(nattch := s.nattch, dest := s.dest)
    ensures TableInv(ns.(segs := ns.segs[h := s]))
  {
  }

  lemma SameIds(ns: Ns, h: nat, s: Seg)
    requires IdInv(ns) && h in ns.segs && s == ns.segs[h].(nattch := s.nattch, dest := s.dest)
    ensures IdInv(ns.(segs := ns.segs[h := s]))
  {
    hide BuildId, SeqMax;
  }

  lemma SameTotal(ns: Ns, h: nat, s: Seg)
    requires h in ns.segs && s == ns.segs[h].(nattch := s.nattch, dest := s.dest)
    ensures Total(ns.segs[h := s]) == Total(ns.segs)
  {
    TotalUpdate(ns.segs, h, s);
  }

  lemma CreateKeepsTable(ns: Ns, size: nat)
    requires TableInv(ns) && IdInv(ns) && Admit(ns, size).Id? && ns.nextIdx < IPCMNI
    ensures TableInv(NewSeg(ns, size)) && IdInv(NewSeg(ns, size))
  {
    hide Admit, Pages, BuildId, SeqMax;
    assert ns.nextIdx !in ns.table;
  }

  lemma CreateKeepsTotal(ns: Ns, size: nat)
    requires ns.tot == Total(ns.segs) <= SHMALL && ns.nextIdx !in ns.segs && size < WORD && Admit(ns, size).Id?
    ensures NewSeg(ns, size).tot == Total(NewSeg(ns, size).segs) <= SHMALL
  {
    AdmissionIsExact(ns, size);
    hide Admit, Pages, BuildId, SeqMax;
    TotalUpdate(ns.segs, ns.nextIdx, NewSeg(ns, size).segs[ns.nextIdx]);
  }

  lemma NextIsNew(ns: Ns)
    requires IdInv(ns)
    ensures ns.nextIdx !in ns.segs
  {
  }

  // ------------------------------------------------------ the table in place

  /** What every operation keeps and relies on: exact table, decodable identifiers, exact page total. */
  ghost predicate Consistent(ns: Ns) {
    && TableInv(ns) && IdInv(ns) && ns.tot == Total(ns.segs) && ns.tot <= SHMALL
    && forall h :: h in ns.segs ==> ns.segs[h].nattch >= 0
  }

  lemma DestroyIsConsistent(ns: Ns, h: nat)
    requires Consistent(ns) && h in ns.segs && !ns.segs[h].deleted
    ensures Consistent(Destroy(ns, h)) && Destroy(ns, h).tot == ns.tot - Pages(ns.segs[h].size)
    ensures Destroy(ns, h).table == ns.table - {h}
  {
    DestroyKeepsTable(ns, h);
    DestroyKeepsTotal(ns, h);
    TotalRemove(ns.segs, h);
    IdDecodesIff(h, ns.segs[h].gen);
    hide TableInv, IdInv, Total, Pages, IdToIdx;
  }

  lemma ChangeIsConsistent(ns: Ns, h: nat, s: Seg)
    requires Consistent(ns) && h in ns.segs && s == ns.segs[h].(nattch := s.nattch, dest := s.dest) && s.nattch >= 0
    ensures Consistent(ns.(segs := ns.segs[h := s]))
  {
    SameTable(ns, h, s);
    SameIds(ns, h, s);
    SameTotal(ns, h, s);
    hide TableInv, IdInv, Total;
  }

  lemma CreateIsConsistent(ns: Ns, size: nat)
    requires Consistent(ns) && Admit(ns, size).Id? && size < WORD && ns.nextIdx < IPCMNI
    ensures Consistent(NewSeg(ns, size))
  {
    NextIsNew(ns);
    CreateKeepsTable(ns, size);
    CreateKeepsTotal(ns, size);
    hide TableInv, IdInv, Total, Admit, Pages, BuildId, SeqMax;
  }

  class Namespace {
    var segs: map<nat, Seg>
    var table: set<nat>
    var inUse: int
    var seqNo: nat
    var nextIdx: nat
    var tot: nat

    ghost function View(): (ns: Ns)
      reads this
    {
      Ns(segs, table, inUse, seqNo, nextIdx, tot)
    }

    ghost predicate Valid()
      reads this
    {
      Consistent(View())
    }

    constructor ()
      ensures View() == Empty() && Valid()
    {
      segs, table, inUse, seqNo, nextIdx, tot := map[], {}, 0, 0, 0, 0;
    }

    /**
     A size outside its range is refused with EINVAL, one that does not fit the page limit with
     ENOSPC, and one beyond 4096 segments panics. Otherwise the segment gets the next index and
     the next sequence number, which goes from 65535 back to zero. The namespace stays valid as
     long as indices are decodable.
     */
    method Shmget(size: nat) returns (r: Answer)
      requires Valid() && size < WORD
      modifies this
      ensures AnswerFor(old(View()), size, r)
      ensures r.Id? ==> Made(old(View()), size, View())
      ensures r == Admit(old(View()), size)
      ensures View() == if r.Id? then NewSeg(old(View()), size) else old(View())
      ensures old(nextIdx) < IPCMNI ==> Valid()
      ensures old(nextIdx) < IPCMNI && r.Id? ==>
                Lookup(View(), r.id) == Some(old(nextIdx)) && old(nextIdx) !in old(segs)
    {
      AnswerIsExact(View(), size);
      hide AnswerFor, Consistent, Pages, Admit, SeqMax, BuildId, Made;
      r := Admit(Ns(segs, table, inUse, seqNo, nextIdx, tot), size);
      if r.Id? {
        NewSegIsExact(View(), size);
        if nextIdx < IPCMNI {
          CreateIsConsistent(View(), size);
          NewIsFound(View(), size);
        }
        hide Lookup;
        var idx := nextIdx;
        nextIdx := nextIdx + 1;
        table := table + {idx};
        inUse := inUse + 1;
        var number := seqNo;
        seqNo := seqNo + 1;
        if seqNo > SeqMax() {
          seqNo := 0;
        }
        segs := segs[idx := Seg(number, BuildId(idx, number), size, 0, false, false)];
        tot := tot + Pages(size);
      }
    }

    /** Exactly this segment is no longer found, and its pages are given back without a wrap. */
    method ShmDestroy(h: nat)
      requires Valid() && h in segs && !segs[h].deleted
      modifies this
      ensures Valid() && View() == Destroy(old(View()), h)
      ensures segs == old(segs)[h := old(segs[h]).(deleted := true)] && inUse == old(inUse) - 1
      ensures tot == old(tot) - Pages(segs[h].size)
      ensures forall id :: Lookup(View(), id) == if IdToIdx(id) == h then None else Lookup(old(View()), id)
    {
      DestroyIsConsistent(View(), h);
      hide Consistent, Pages, IdToIdx;
      var s := segs[h];
      tot := Minus(tot, Pages(s.size));
      table := table - {IdToIdx(s.id)};
      inUse := inUse - 1;
      segs := segs[h := s.(deleted := true)];
    }

    /** A segment with attaches in flight is marked and stays; another is destroyed. */
    method ShmRmid(h: nat)
      requires Valid() && h in segs && !segs[h].deleted
      modifies this
      ensures Valid() && View() == Rmid(old(View()), h)
      ensures segs[h].deleted <==> old(segs[h].nattch) == 0
      ensures old(segs[h].nattch) != 0 ==> segs == old(segs)[h := old(segs[h]).(dest := true)] && table == old(table)
    {
      if segs[h].nattch != 0 {
        ChangeIsConsistent(View(), h, segs[h].(dest := true));
        hide Consistent;
        segs := segs[h := segs[h].(dest := true)];
      } else {
        ShmDestroy(h);
      }
    }

    /**
     Counting the attach protects the segment: a removal from now on only marks it, and it is
     still found.
     */
    method AttachBegin(h: nat)
      requires Valid() && h in segs && !segs[h].deleted
      modifies this
      ensures Valid() && View() == BeginAttach(old(View()), h)
      ensures segs == old(segs)[h := old(segs[h]).(nattch := old(segs[h].nattch) + 1)]
      ensures forall id :: Lookup(View(), id) == Lookup(old(View()), id)
      ensures !Rmid(View(), h).segs[h].deleted && Lookup(Rmid(View(), h), segs[h].id) == Some(h)
    {
      AttachProtects(View(), h);
      ChangeIsConsistent(View(), h, segs[h].(nattch := segs[h].nattch + 1));
      hide Consistent;
      segs := segs[h := segs[h].(nattch := segs[h].nattch + 1)];
    }

    /** The last attach of a marked segment destroys it. */
    method AttachEnd(h: nat)
      requires Valid() && h in segs && !segs[h].deleted && segs[h].nattch > 0
      modifies this
      ensures Valid() && View() == EndAttach(old(View()), h)
      ensures segs[h].deleted <==> old(segs[h].nattch == 1 && segs[h].dest)
      ensures segs == old(segs)[h := old(segs[h]).(nattch := old(segs[h].nattch) - 1, deleted := segs[h].deleted)]
    {
      ChangeIsConsistent(View(), h, segs[h].(nattch := segs[h].nattch - 1));
      segs := segs[h := segs[h].(nattch := segs[h].nattch - 1)];
      if segs[h].nattch == 0 && segs[h].dest {
        ShmDestroy(h);
      }
    }
  }

  /** The new segment, its identifier and the counters after it. */
  ghost predicate Made(ns: Ns, size: nat, ns': Ns) {
    var id := 32768 * ns.gen + ns.nextIdx;
    && ns'.segs == ns.segs[ns.nextIdx := Seg(ns.gen, id, size, 0, false, false)]
    && ns'.table == ns.table + {ns.nextIdx} && ns'.inUse == ns.inUse + 1
    && ns'.gen == (if ns.gen == 65535 then 0 else ns.gen + 1) && ns'.nextIdx == ns.nextIdx + 1
    && ns'.tot == ns.tot + (size + 4095) / 4096
  }

  lemma NewSegIsExact(ns: Ns, size: nat)
    requires Consistent(ns) && size < WORD && Admit(ns, size).Id?
    ensures Made(ns, size, NewSeg(ns, size))
  {
    assert ns.gen <= SeqMax() == 65535;
    AnswerIsExact(ns, size);
    assert 1 <= size <= SHMMAX ==> Pages(size) == (size + 4095) / 4096;
    hide Consistent, Admit;
  }

  lemma NewIsFound(ns: Ns, size: nat)
    requires Consistent(ns) && Admit(ns, size).Id? && ns.nextIdx < IPCMNI
    ensures ns.nextIdx !in ns.segs && Lookup(NewSeg(ns, size), BuildId(ns.nextIdx, ns.gen)) == Some(ns.nextIdx)
  {
    NextIsNew(ns);
    IdDecodesIff(ns.nextIdx, ns.gen);
    hide Total, Pages, IdToIdx, BuildId, SeqMax;
  }

  lemma AttachProtects(ns: Ns, h: nat)
    requires Consistent(ns) && h in ns.segs && !ns.segs[h].deleted
    ensures var ns' := Rmid(BeginAttach(ns, h), h);
            !ns'.segs[h].deleted && Lookup(ns', ns.segs[h].id) == Some(h)
  {
    IdDecodesIff(h, ns.segs[h].gen);
    hide Total, IdToIdx, BuildId, SeqMax;
  }

  function Empty(): Ns { Ns(map[], {}, 0, 0, 0, 0) }
}
