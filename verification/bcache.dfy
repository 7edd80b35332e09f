/**
 The block buffer cache: a fixed pool of buffers with reference counts, a sleeping
 lock per buffer, write-back on release and recycling in least-recently-released
 order, used by any number of concurrent sessions. A session is one bracket from
 `bread` to `brelse`; a thread that keeps several blocks open is several sessions.

 One step is one critical section of the cache lock or one action of the session
 that holds the buffer's sleeping lock. The sleeping lock is the counting semaphore
 `permits` that `Semaphores.RefinesCountingSemaphore` justifies.
 */
module BufferCache {
  import opened Common

  type Sid = nat  // sessions
  type Block = seq<bv8>

  datatype Key = Key(dev: nat, blockno: nat)

  datatype Buf = Buf(key: Key, valid: bool, dirty: bool, refcnt: int, data: Block, permits: nat)

  /** Where a session is between `bget` and the end of `brelse`. */
  datatype Phase =
    | Queued(b: nat, key: Key)                  // reference taken, waiting for the sleeping lock
    | Locked(b: nat, key: Key)                  // lock held inside bread
    | Holding(b: nat, key: Key, touched: bool)  // bread returned; touched: contents changed since they matched the disk
    | Leaving(b: nat, key: Key)                 // lock given back, reference not yet dropped

  // ------------------------------------------------ bget and brelse on the list

  ghost predicate IsOrder(lru: seq<nat>, n: nat) {
    && |lru| == n
    && (forall i :: 0 <= i < n ==> lru[i] < n)
    && NoDup(lru)
  }

  /** Position of the first buffer, from position i on, that caches k; the length when there is none. */
  ghost function FirstMatch(bufs: seq<Buf>, lru: seq<nat>, k: Key, i: nat): (r: nat)
    requires i <= |lru| && forall p :: 0 <= p < |lru| ==> lru[p] < |bufs|
    ensures i <= r <= |lru|
    ensures r < |lru| ==> bufs[lru[r]].key == k
    ensures forall p :: i <= p < r ==> bufs[lru[p]].key != k
    decreases |lru| - i
  {
    if i == |lru| || bufs[lru[i]].key == k then i else FirstMatch(bufs, lru, k, i + 1)
  }

  /** Position of the last unreferenced buffer among the first n; -1 when there is none. */
  ghost function LastFree(bufs: seq<Buf>, lru: seq<nat>, n: nat): (r: int)
    requires n <= |lru| && forall p :: 0 <= p < |lru| ==> lru[p] < |bufs|
    ensures -1 <= r < n
    ensures r >= 0 ==> bufs[lru[r]].refcnt == 0
    ensures forall p :: r < p < n ==> bufs[lru[p]].refcnt != 0
  {
    if n == 0 then -1 else if bufs[lru[n - 1]].refcnt == 0 then n - 1 else LastFree(bufs, lru, n - 1)
  }

  /** The buffer `bget` hands out for k; None is its panic. */
  ghost function Choose(bufs: seq<Buf>, lru: seq<nat>, k: Key): (r: Option<nat>)
    requires IsOrder(lru, |bufs|)
  {
    var i := FirstMatch(bufs, lru, k, 0);
    if i < |lru| then Some(lru[i])
    else
      var j := LastFree(bufs, lru, |lru|);
      if j >= 0 then Some(lru[j]) else None
  }

  /** The chosen buffer after `bget`: one more reference on a hit, a fresh identity on a miss. */
  ghost function Claimed(b: Buf, k: Key): Buf {
    if b.key == k then b.(refcnt := b.refcnt + 1) else b.(key := k, valid := false, refcnt := 1)
  }

  function MoveFront(lru: seq<nat>, b: nat): seq<nat> {
    [b] + Without(lru, b)
  }

  ghost function Read(disk: map<Key, Block>, k: Key): Block {
    if k in disk then disk[k] else []
  }

  class Cache {
    var bufs: seq<Buf>
    var lru: seq<nat>
    var disk: map<Key, Block>

    ghost predicate Valid()
      reads this
    {
      IsOrder(lru, |bufs|)
    }

    /** `binit`: every buffer starts unused under key (0, 0) and is pushed to the front in turn. */
    constructor (n: nat, device: map<Key, Block>)
      ensures Valid() && |bufs| == n && disk == device
      ensures forall i :: 0 <= i < n ==> bufs[i] == Buf(Key(0, 0), false, false, 0, [], 1) && lru[i] == n - 1 - i
    {
      bufs := seq(n, i => Buf(Key(0, 0), false, false, 0, [], 1));
      disk := device;
      var order: seq<nat> := [];
      for i := 0 to n
        invariant |order| == i && forall p :: 0 <= p < i ==> order[p] == i - 1 - p
      {
        order := [i] + order;
      }
      lru := order;
    }

    /** The section of `bget` under the cache lock: forward scan for a hit, then reverse scan for a victim. */
    method Bget(k: Key) returns (r: Option<nat>)
      requires Valid()
      modifies this`bufs
      ensures Valid() && |bufs| == old(|bufs|)
      ensures r == Choose(old(bufs), lru, k)
      ensures r == None ==> bufs == old(bufs)
      ensures r.Some? ==> r.value < |bufs| && bufs == old(bufs)[r.value := Claimed(old(bufs)[r.value], k)]
      ensures r.Some? ==> bufs[r.value].key == k && bufs[r.value].data == old(bufs)[r.value].data
      ensures r.Some? && old(bufs)[r.value].key == k ==>
                bufs == old(bufs)[r.value := old(bufs)[r.value].(refcnt := old(bufs)[r.value].refcnt + 1)]
      ensures r.Some? && old(bufs)[r.value].key != k ==>
                && old(bufs)[r.value].refcnt == 0
                && bufs == old(bufs)[r.value := old(bufs)[r.value].(key := k, valid := false, refcnt := 1)]
    {
      var i := 0;
      while i < |lru|
        invariant 0 <= i <= |lru| && bufs == old(bufs)
        invariant FirstMatch(bufs, lru, k, 0) == FirstMatch(bufs, lru, k, i)
      {
        var b := lru[i];
        if bufs[b].key == k {
          bufs := bufs[b := bufs[b].(refcnt := bufs[b].refcnt + 1)];
          return Some(b);
        }
        i := i + 1;
      }
      var j := |lru| - 1;
      while j >= 0
        invariant -1 <= j < |lru| && bufs == old(bufs)
        invariant FirstMatch(bufs, lru, k, 0) == |lru|
        invariant LastFree(bufs, lru, |lru|) == LastFree(bufs, lru, j + 1)
      {
        var b := lru[j];
        if bufs[b].refcnt == 0 {
          MatchMissesAll(bufs, lru, k, b);
          bufs := bufs[b := bufs[b].(key := k, valid := false, refcnt := 1)];
          return Some(b);
        }
        j := j - 1;
      }
      return None;
    }

    /** `bread` once the buffer is locked. */
    method Fill(b: nat)
      requires Valid() && b < |bufs|
      modifies this`bufs
      ensures bufs == old(bufs)[b := Filled(old(bufs)[b], disk)]
      ensures old(bufs)[b].valid ==> bufs == old(bufs)
      ensures !old(bufs)[b].valid && bufs[b].key in disk ==>
                bufs == old(bufs)[b := old(bufs)[b].(data := disk[bufs[b].key], valid := true, dirty := false)]
    {
      if !bufs[b].valid {
        bufs := bufs[b := bufs[b].(data := if bufs[b].key in disk then disk[bufs[b].key] else [])];
        bufs := bufs[b := bufs[b].(valid := true, dirty := false)];
      }
    }

    /** `bwback`, and the first half of `brelse` before the semaphore is signalled. */
    method WriteBack(b: nat)
      requires Valid() && b < |bufs|
      modifies this`bufs, this`disk
      ensures disk == Synced(old(disk), old(bufs)[b]) && bufs == old(bufs)[b := old(bufs)[b].(dirty := false)]
      ensures disk == if old(bufs)[b].dirty then old(disk)[bufs[b].key := bufs[b].data] else old(disk)
    {
      if bufs[b].dirty {
        disk := disk[bufs[b].key := bufs[b].data];
        bufs := bufs[b := bufs[b].(dirty := false)];
      }
    }

    /** The section of `brelse` under the cache lock. */
    method Put(b: nat)
      requires Valid() && b < |bufs|
      modifies this`bufs, this`lru
      ensures Valid() && bufs == old(bufs)[b := old(bufs)[b].(refcnt := old(bufs)[b].refcnt - 1)]
      ensures lru == if bufs[b].refcnt == 0 then MoveFront(old(lru), b) else old(lru)
      ensures bufs[b].refcnt == 0 ==>
                exists p :: 0 <= p < |bufs| && old(lru)[p] == b && lru == [b] + old(lru)[..p] + old(lru)[p + 1..]
    {
      bufs := bufs[b := bufs[b].(refcnt := bufs[b].refcnt - 1)];
      if bufs[b].refcnt == 0 {
        ghost var p := MoveFrontIsOrder(lru, |bufs|, b);
        assert [b] + (lru[..p] + lru[p + 1..]) == [b] + lru[..p] + lru[p + 1..];
        lru := MoveFront(lru, b);
      }
    }
  }

  ghost function Filled(b: Buf, disk: map<Key, Block>): Buf {
    if b.valid then b else b.(data := Read(disk, b.key), valid := true, dirty := false)
  }

  ghost function Synced(disk: map<Key, Block>, b: Buf): map<Key, Block> {
    if b.dirty then disk[b.key := b.data] else disk
  }

  lemma {:induction false} MatchMissesAll(bufs: seq<Buf>, lru: seq<nat>, k: Key, b: nat)
    requires IsOrder(lru, |bufs|) && FirstMatch(bufs, lru, k, 0) == |lru| && b < |bufs|
    ensures bufs[b].key != k
  {
    PermutationCovers(lru, |bufs|, b);
  }

  /** Position p holds the first buffer with the key k, or, without one, the last unreferenced buffer. */
  ghost predicate IsChoice(bufs: seq<Buf>, lru: seq<nat>, k: Key, p: nat)
    requires IsOrder(lru, |bufs|)
  {
    && p < |lru|
    && if bufs[lru[p]].key == k then forall q :: 0 <= q < p ==> bufs[lru[q]].key != k
       else
         && bufs[lru[p]].refcnt == 0
         && (forall q :: p < q < |lru| ==> bufs[lru[q]].refcnt != 0)
         && (forall q :: 0 <= q < |lru| ==> bufs[lru[q]].key != k)
  }

  /** Which buffer is handed out, and that the panic means no buffer has the key or is unreferenced. */
  lemma ChoiceIsExact(bufs: seq<Buf>, lru: seq<nat>, k: Key)
    requires IsOrder(lru, |bufs|)
    ensures Choose(bufs, lru, k) == None <==> forall b :: 0 <= b < |bufs| ==> bufs[b].key != k && bufs[b].refcnt != 0
    ensures forall p :: 0 <= p < |lru| ==> (IsChoice(bufs, lru, k, p) <==> Choose(bufs, lru, k) == Some(lru[p]))
  {
    var i, j := FirstMatch(bufs, lru, k, 0), LastFree(bufs, lru, |lru|);
    if i == |lru| && j < 0 {
      forall b | 0 <= b < |bufs| ensures bufs[b].key != k && bufs[b].refcnt != 0 {
        PermutationCovers(lru, |bufs|, b);
      }
    }
    if i < |lru| {
      assert bufs[lru[i]].key == k;
    } else if j >= 0 {
      assert bufs[lru[j]].refcnt == 0;
    }
    forall p | 0 <= p < |lru| ensures IsChoice(bufs, lru, k, p) <==> Choose(bufs, lru, k) == Some(lru[p]) {
      if IsChoice(bufs, lru, k, p) {
        assert p == if i < |lru| then i else j;
      }
    }
  }

  lemma MoveFrontIsOrder(lru: seq<nat>, n: nat, b: nat) returns (p: nat)
    requires IsOrder(lru, n) && b < n
    ensures p < n && lru[p] == b
    ensures MoveFront(lru, b) == [b] + (lru[..p] + lru[p + 1..])
    ensures IsOrder(MoveFront(lru, b), n)
  {
    PermutationCovers(lru, n, b);
    p :| 0 <= p < n && lru[p] == b;
    WithoutShape(lru, p);
  }
}
