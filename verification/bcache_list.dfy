/**
 The buffer cache's list as it is in memory: one ring node per buffer. The scans of `bget`
 and the move in `brelse`, on the pointers, are the ones `BufferCache` has on the sequence
 of buffer numbers.
 */
module BufferList {
  import opened Common
  import opened BufferCache
  import opened Rings

  /** The nodes of the buffers in list order; `node[b]` is the `lru` field of buffer b. */
  ghost function Nodes(lru: seq<nat>, node: seq<ListHead>): (s: seq<ListHead>)
    requires forall i :: 0 <= i < |lru| ==> lru[i] < |node|
    ensures |s| == |lru| && forall i :: 0 <= i < |s| ==> s[i] == node[lru[i]]
  {
    if lru == [] then [] else Nodes(lru[..|lru| - 1], node) + [node[lru[|lru| - 1]]]
  }

  /** The list at `head` links the buffers in the order `lru`. */
  ghost predicate Linked(head: ListHead, node: seq<ListHead>, lru: seq<nat>)
    reads head, node
  {
    IsOrder(lru, |node|) && NoDup(node) && List(head, Nodes(lru, node))
  }

  /** container_of: which buffer a node belongs to. */
  ghost predicate Owners(owner: map<ListHead, nat>, node: seq<ListHead>) {
    forall b :: 0 <= b < |node| ==> node[b] in owner && owner[node[b]] == b
  }

  lemma NodesMove(lru: seq<nat>, node: seq<ListHead>, b: nat) returns (p: nat)
    requires IsOrder(lru, |node|) && b < |node|
    ensures p < |lru| && lru[p] == b && IsOrder(MoveFront(lru, b), |node|)
    ensures Nodes(MoveFront(lru, b), node) == [node[b]] + Removed(Nodes(lru, node), p)
  {
    p := MoveFrontIsOrder(lru, |node|, b);
    hide MoveFront;
    var s, s' := Nodes(lru, node), Nodes(MoveFront(lru, b), node);
    forall i | 0 <= i < |s'| ensures s'[i] == ([node[b]] + Removed(s, p))[i] {
      var l := [b] + (lru[..p] + lru[p + 1..]);
      assert l[i] == if i == 0 then b else if i <= p then lru[i - 1] else lru[i];
    }
  }

  /** `brelse` on the pointers: the buffer goes to the front of the list. */
  method Release(head: ListHead, node: seq<ListHead>, b: nat, ghost lru: seq<nat>)
    requires Linked(head, node, lru) && b < |node|
    modifies node[b], node[b].prev, node[b].next, head, head.next
    ensures Linked(head, node, MoveFront(lru, b))
  {
    ghost var p := NodesMove(lru, node, b);
    hide List, MoveFront;
    ToFront(node[b], head, Nodes(lru, node), p);
  }

  /** The forward loop of `bget`. */
  method FindKey(head: ListHead, owner: map<ListHead, nat>, bufs: seq<Buf>, k: Key,
                 ghost node: seq<ListHead>, ghost lru: seq<nat>) returns (r: Option<nat>)
    requires Linked(head, node, lru) && Owners(owner, node) && |bufs| == |node|
    ensures var i := FirstMatch(bufs, lru, k, 0); r == if i < |lru| then Some(lru[i]) else None
  {
    hide List, Cyclic;
    ghost var s, i := Nodes(lru, node), 0;
    Ends(head, s);
    var pos := head.next;
    while pos != head
      invariant 0 <= i <= |s| && pos == (if i < |s| then s[i] else head)
      invariant FirstMatch(bufs, lru, k, 0) == FirstMatch(bufs, lru, k, i)
      decreases |s| - i
    {
      Neighbours(head, s, i);
      var b := owner[pos];
      if bufs[b].key == k {
        return Some(b);
      }
      pos, i := pos.next, i + 1;
    }
    return None;
  }

  /** The reverse loop of `bget`. */
  method FindFree(head: ListHead, owner: map<ListHead, nat>, bufs: seq<Buf>,
                  ghost node: seq<ListHead>, ghost lru: seq<nat>) returns (r: Option<nat>)
    requires Linked(head, node, lru) && Owners(owner, node) && |bufs| == |node|
    ensures var i := LastFree(bufs, lru, |lru|); r == if i >= 0 then Some(lru[i]) else None
  {
    hide List, Cyclic;
    ghost var s, i := Nodes(lru, node), |lru|;
    Ends(head, s);
    var pos := head.prev;
    while pos != head
      invariant 0 <= i <= |s| && pos == (if i > 0 then s[i - 1] else head)
      invariant LastFree(bufs, lru, |lru|) == LastFree(bufs, lru, i)
      decreases i
    {
      Neighbours(head, s, i - 1);
      var b := owner[pos];
      if bufs[b].refcnt == 0 {
        return Some(b);
      }
      pos, i := pos.prev, i - 1;
    }
    return None;
  }

  /** Both loops together pick the buffer that `BufferCache.Choose` picks, or panic. */
  method Pick(head: ListHead, owner: map<ListHead, nat>, bufs: seq<Buf>, k: Key,
              ghost node: seq<ListHead>, ghost lru: seq<nat>) returns (r: Option<nat>)
    requires Linked(head, node, lru) && Owners(owner, node) && |bufs| == |node|
    ensures r == Choose(bufs, lru, k)
  {
    r := FindKey(head, owner, bufs, k, node, lru);
    if r == None {
      r := FindFree(head, owner, bufs, node, lru);
    }
  }
}
