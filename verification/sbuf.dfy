/**
 The bounded byte buffer of pipes and sockets: a ring of n bytes indexed by
 free-running 32-bit counters modulo n, guarded by a `slots` and an `items` semaphore.
 */
module SbufRing {
  import opened Common

  const WRAP: nat := 0x1_0000_0000

  /** The slot of the k-th byte: the 32-bit counter reduced modulo the capacity. */
  function Slot(k: nat, n: nat): (s: nat)
    requires n > 0
    ensures s < n
  {
    (k % WRAP) % n
  }

  /** Slots follow the counter without a jump: always when n divides 2^32, otherwise before the first wrap. */
  ghost predicate Exact(total: nat, n: nat)
    requires n > 0
  {
    WRAP % n == 0 || total <= WRAP
  }

  class Sbuf {
    const buf: array<bv8>
    const n: nat
    var w: nat
    var r: nat
    ghost var inserted: seq<bv8>
    ghost var removed: seq<bv8>

    ghost predicate Valid()
      reads this, buf
    {
      && buf.Length == n > 0
      && |removed| <= |inserted| <= |removed| + n
      && r == |removed| % WRAP && w == |inserted| % WRAP
      && (Exact(|inserted|, n) ==>
            && removed == inserted[..|removed|]
            && forall k :: |removed| <= k < |inserted| ==> buf[Slot(k, n)] == inserted[k])
    }

    constructor (capacity: nat)
      requires capacity > 0
      ensures Valid() && n == capacity && inserted == [] && removed == [] && fresh(buf)
    {
      buf := new bv8[capacity];
      n := capacity;
      w, r := 0, 0;
      inserted, removed := [], [];
    }

    /** The section of `sbuf_insert` under the lock, with a slot in hand. */
    method Insert(item: bv8)
      requires Valid() && |inserted| - |removed| < n
      modifies this`w, this`inserted, buf
      ensures Valid() && inserted == old(inserted) + [item]
      ensures buf[..] == old(buf[..])[(|old(inserted)| % 0x1_0000_0000) % n := item]
    {
      ghost var k := |inserted|;
      if Exact(k + 1, n) {
        SlotsDiffer(|removed|, k, n);
      }
      var i := w % n;
      assert Slot(k, n) == i;
      Advance(k, n);
      hide Slot, Exact;
      buf[i] := item;
      w := (w + 1) % WRAP;
      inserted := inserted + [item];
    }

    /** The section of `sbuf_remove` under the lock, with an item in hand. */
    method Remove() returns (item: bv8)
      requires Valid() && |removed| < |inserted|
      modifies this`r, this`removed
      ensures Valid() && removed == old(removed) + [item]
      ensures item == buf[(|old(removed)| % 0x1_0000_0000) % n]
      ensures Exact(|inserted|, n) ==> item == inserted[|old(removed)|]
    {
      ghost var k := |removed|;
      var i := r % n;
      assert Slot(k, n) == i;
      Advance(k, n);
      hide Slot, Exact;
      item := buf[i];
      r := (r + 1) % WRAP;
      removed := removed + [item];
    }
  }

  lemma Advance(k: nat, n: nat)
    requires n > 0
    ensures (k % WRAP + 1) % WRAP == (k + 1) % WRAP
    ensures Exact(k + 1, n) ==> Exact(k, n)
  {
  }

  lemma PlainSlot(k: nat, total: nat, n: nat)
    requires n > 0 && k < total && Exact(total, n)
    ensures Slot(k, n) == k % n
  {
    if WRAP % n == 0 {
      var a, m := k / WRAP, WRAP / n;
      assert k == a * WRAP + k % WRAP && WRAP == m * n;
      assert a * (m * n) == (a * m) * n;
      ProductIsNatural(a, m);
      RemainderOfSum(a * m, k % WRAP, n);
    }
  }

  lemma SlotsDiffer(r: nat, w: nat, n: nat)
    requires n > 0 && r <= w < r + n && Exact(w + 1, n)
    ensures forall k :: r <= k < w ==> Slot(k, n) != Slot(w, n)
  {
    forall k | r <= k < w
      ensures Slot(k, n) != Slot(w, n)
    {
      PlainSlot(k, w + 1, n);
      PlainSlot(w, w + 1, n);
      RemaindersDiffer(k, w, n);
    }
  }

  /** The last multiple of n before the wrap shares its slot with the wrap itself. */
  lemma LastMultiple(n: nat) returns (i: nat)
    requires 0 < n <= WRAP && WRAP % n != 0
    ensures n <= i < WRAP < i + n && Slot(i, n) == 0 && Slot(WRAP, n) == 0
  {
    hide Slot;
    MultipleBelow(WRAP, n);
    i := WRAP - WRAP % n;
    SlotBelow(i, n);
    SlotAtWrap(n);
  }

  lemma SlotBelow(k: nat, n: nat)
    requires n > 0 && k < WRAP
    ensures Slot(k, n) == k % n
  {
    assert k % WRAP == k;
  }

  lemma SlotAtWrap(n: nat)
    requires n > 0
    ensures Slot(WRAP, n) == 0
  {
    DivModUnique(0, 0, 0, n);
  }

  /**
   Unread bytes keep to different slots for ever exactly when the capacity divides
   2^32: otherwise the byte that follows the wrap lands on one stored fewer than n
   bytes before it.
   */
  lemma SlotsStayApartIff(n: nat)
    requires 0 < n <= WRAP
    ensures (forall i, j :: 0 <= i < j < i + n ==> Slot(i, n) != Slot(j, n)) <==> WRAP % n == 0
  {
    var m := WRAP % n;
    if m == 0 {
      forall i, j | 0 <= i < j < i + n
        ensures Slot(i, n) != Slot(j, n)
      {
        SlotsDiffer(i, j, n);
      }
    } else {
      var i := LastMultiple(n);
      assert Slot(i, n) == Slot(WRAP, n);
    }
  }

  /** The capacity sockets use is not such a divisor. */
  lemma SocketCapacityCollides()
    ensures WRAP % 40960 != 0
    ensures exists i, j :: 0 <= i < j < i + 40960 && Slot(i, 40960) == Slot(j, 40960)
  {
    SlotsStayApartIff(40960);
  }
}
